/** The two consumers of a streamed response: StreamHandle of the Rust client, which pulls whole
    frames, and QfStream of the JavaScript client, which is handed arbitrary chunks. */
module Readers {
  import opened Options
  import opened Frames
  import opened FrameBuffers
  import opened Messages

  // ---------------------------------------------------------------- reference meaning

  datatype Ending = EndMarker | CutOff | ServerError(code: int)

  /** What a stream of chunk and error messages means to its reader. */
  function Meaning(ms: seq<Message>): (seq<Bytes>, Ending)
  {
    if ms == [] then ([], CutOff) else
    match ms[0]
    case StreamChunk(_, _, data, final) =>
      if final then ([], EndMarker) else
      var (ds, e) := Meaning(ms[1..]);
      ([data] + ds, e)
    case ErrorFrame(_, code, _, _) => ([], ServerError(code))
    case _ => ([], CutOff)
  }

  predicate StreamMessages(ms: seq<Message>) { forall m <- ms :: m.StreamChunk? || m.ErrorFrame? }

  predicate MidFrame(s: Bytes) { ParseFrame(s).ShortHeader? || ParseFrame(s).ShortBody? }

  lemma FirstFrame(fs: seq<Frame>, tail: Bytes)
    requires AllWellFormed(fs) && fs != []
    ensures ParseFrame(EncodedAll(fs) + tail) == Got(fs[0], EncodedAll(fs[1..]) + tail)
  {
    assert EncodedAll(fs) + tail == Encoded(fs[0]) + (EncodedAll(fs[1..]) + tail);
    ParseFrameExact(EncodedAll(fs) + tail, fs[0], EncodedAll(fs[1..]) + tail);
  }

  // ---------------------------------------------------------------- Rust

  datatype RustItem =
    | Chunk(data: Bytes)
    | NoMore
    | Io
    | Codec
    | ServerSaid(code: int)
    | Unexpected(ftype: byte)

  function RustReact(mp: MsgPack, f: Frame): RustItem
  {
    if f.ftype == STREAM_DATA then
      match mp.decode(f.payload)
      case Some(StreamChunk(_, _, data, final)) => if final then NoMore else Chunk(data)
      case _ => Codec
    else if f.ftype == STREAM_END then NoMore
    else if f.ftype == ERROR then
      match mp.decode(f.payload)
      case Some(ErrorFrame(_, code, _, _)) => ServerSaid(code)
      case _ => Codec
    else Unexpected(f.ftype)
  }

  /** The next item, given the bytes still to be received. */
  function RustNext(mp: MsgPack, s: Bytes): RustItem
  {
    match ParseFrame(s)
    case Got(f, _) => RustReact(mp, f)
    case BadLength(_) => Codec
    case _ => Io
  }

  /** Which input gives which outcome: frame types 3, 4 and 5 are read, any other is reported, and a
      stream that stops inside a frame is an I/O error. */
  lemma RustNextExactly(mp: MsgPack, s: Bytes)
    ensures var item, r := RustNext(mp, s), ParseFrame(s);
            && (item == Io <==> r.ShortHeader? || r.ShortBody?)
            && (r.BadLength? ==> item == Codec)
            && (r.Got? ==>
                  var t, m := r.frame.ftype, mp.decode(r.frame.payload);
                  && (item.Chunk? <==> t == 3 && m.Some? && m.value.StreamChunk? && !m.value.final)
                  && (item.Chunk? ==> item.data == m.value.data)
                  && (item == NoMore <==> t == 4 || (t == 3 && m.Some? && m.value.StreamChunk? && m.value.final))
                  && (item.ServerSaid? <==> t == 5 && m.Some? && m.value.ErrorFrame?)
                  && (item.ServerSaid? ==> item.code == m.value.code)
                  && (item.Unexpected? <==> t < 3 || t > 5)
                  && (item.Unexpected? ==> item.ftype == t))
  {}

  datatype Collected = All(chunks: seq<Bytes>) | Failed(item: RustItem)

  function Prepend(ds: seq<Bytes>, c: Collected): Collected
  {
    if c.All? then All(ds + c.chunks) else c
  }

  /** collect_all: the chunks, or the first error with the chunks before it dropped. */
  function RustCollect(mp: MsgPack, s: Bytes): Collected
    decreases |s|
  {
    match RustNext(mp, s)
    case Chunk(data) => Prepend([data], RustCollect(mp, ParseFrame(s).rest))
    case NoMore => All([])
    case item => Failed(item)
  }

  class StreamHandle {
    const recv: ByteReader
    const mp: MsgPack

    constructor (recv: ByteReader, mp: MsgPack)
      ensures this.recv == recv && this.mp == mp
    {
      this.recv, this.mp := recv, mp;
    }

    method Next() returns (item: RustItem)
      requires recv.Valid()
      modifies recv
      ensures recv.Valid()
      ensures item == RustNext(mp, old(recv.Remaining()))
      ensures ParseFrame(old(recv.Remaining())).Got? ==> recv.Remaining() == ParseFrame(old(recv.Remaining())).rest
    {
      var r := recv.ReadFrame();
      if !r.Got? {
        return if r.BadLength? then Codec else Io;
      }
      var frame := r.frame;
      if frame.ftype == STREAM_DATA {
        var chunk := mp.decode(frame.payload);
        if chunk.None? || !chunk.value.StreamChunk? {
          return Codec;
        }
        if chunk.value.final {
          return NoMore;
        }
        return Chunk(chunk.value.data);
      } else if frame.ftype == STREAM_END {
        return NoMore;
      } else if frame.ftype == ERROR {
        var ef := mp.decode(frame.payload);
        if ef.None? || !ef.value.ErrorFrame? {
          return Codec;
        }
        return ServerSaid(ef.value.code);
      }
      return Unexpected(frame.ftype);
    }

    method CollectAll() returns (r: Collected)
      requires recv.Valid()
      modifies recv
      ensures r == RustCollect(mp, old(recv.Remaining()))
    {
      var out: seq<Bytes> := [];
      ghost var start := recv.Remaining();
      while true
        invariant recv.Valid()
        invariant Prepend(out, RustCollect(mp, recv.Remaining())) == RustCollect(mp, start)
        decreases |recv.Remaining()|
      {
        ghost var s := recv.Remaining();
        var item := Next();
        if item.NoMore? {
          assert out + [] == out;
          return All(out);
        }
        if !item.Chunk? {
          return Failed(item);
        }
        ghost var after := RustCollect(mp, recv.Remaining());
        assert RustCollect(mp, s) == Prepend([item.data], after);
        assert after.All? ==> out + ([item.data] + after.chunks) == (out + [item.data]) + after.chunks;
        out := out + [item.data];
      }
    }
  }

  function RustVerdict(r: (seq<Bytes>, Ending)): Collected
  {
    match r.1
    case EndMarker => All(r.0)
    case CutOff => Failed(Io)
    case ServerError(code) => Failed(ServerSaid(code))
  }

  /** The Rust client gets the meaning of the stream; a stream cut off before its end marker is
      reported as an error, with the chunks lost. */
  lemma {:induction false} RustDelivers(mp: MsgPack, ms: seq<Message>, tail: Bytes)
    requires mp.RoundTrips() && StreamMessages(ms)
    requires AllWellFormed(ToFrames(mp, ms)) && MidFrame(tail)
    ensures RustCollect(mp, EncodedAll(ToFrames(mp, ms)) + tail) == RustVerdict(Meaning(ms))
    decreases |ms|
  {
    var fs := ToFrames(mp, ms);
    var s := EncodedAll(fs) + tail;
    if ms == [] {
      assert s == tail;
    } else {
      hide Encoded, ParseFrame;
      FirstFrame(fs, tail);
      assert ms[0] in ms;
      assert mp.decode(mp.encode(ms[0])) == Some(ms[0]);
      if ms[0].StreamChunk? && !ms[0].final {
        assert fs[1..] == ToFrames(mp, ms[1..]);
        RustDelivers(mp, ms[1..], tail);
      }
    }
  }

  // ---------------------------------------------------------------- JavaScript

  datatype JsItem =
    | Value(data: Bytes)
    | Done
    | Thrown(code: Option<int>)

  /** What QfStream makes of one extracted frame: an item, and whether the stream is over; or
      nothing, for a type it does not know.  tryRead decodes the payload before anyone looks at
      the type, so an undecodable payload throws whatever the type is. */
  datatype Reaction = React(item: JsItem, over: bool) | Skip

  function JsReact(mp: MsgPack, ftype: seq<byte>, payload: Bytes): Reaction
  {
    match mp.decode(payload)
    case None => React(Thrown(None), false)
    case Some(m) =>
      if ftype == [STREAM_DATA] then
        match m
        case StreamChunk(_, _, data, final) => if final then React(Done, true) else React(Value(data), false)
        case ErrorFrame(_, _, _, data) => React(Value(data), false)
        case _ => React(Thrown(None), false)
      else if ftype == [STREAM_END] then React(Done, true)
      else if ftype == [ERROR] then
        React(Thrown(if m.ErrorFrame? then Some(m.code) else None), true)
      else Skip
  }

  /** Which frame gives which outcome.  An undecodable payload throws and leaves the stream open,
      whatever the type; an end marker and an error end it; other types are skipped. */
  lemma JsReactExactly(mp: MsgPack, t: byte, payload: Bytes)
    ensures var r, m := JsReact(mp, [t], payload), mp.decode(payload);
            && (m.None? ==> r == React(Thrown(None), false))
            && (r == Skip <==> m.Some? && (t < 3 || t > 5))
            && (r == React(Done, true) <==> m.Some? && (t == 4 || (t == 3 && m.value.StreamChunk? && m.value.final)))
            && (m.Some? && t == 3 && m.value.StreamChunk? && !m.value.final ==> r == React(Value(m.value.data), false))
            && (m.Some? && t == 3 && m.value.ErrorFrame? ==> r == React(Value(m.value.data), false))
            && (m.Some? && t == 3 && !m.value.StreamChunk? && !m.value.ErrorFrame? ==> r == React(Thrown(None), false))
            && (m.Some? && t == 5 && m.value.ErrorFrame? ==> r == React(Thrown(Some(m.value.code)), true))
            && (m.Some? && t == 5 && !m.value.ErrorFrame? ==> r == React(Thrown(None), true))
  {
    assert forall a: byte, b: byte :: [a] == [b] <==> a == b by {
      assert forall a: byte, b: byte :: a != b ==> [a][0] != [b][0];
    }
  }

  /** The stream object, and the chunks its transport reader has still to hand out before it
      reports the end. */
  datatype Js = Js(buf: Bytes, chunks: seq<Bytes>, done: bool)

  function Size(st: Js): nat { |st.buf| + |Flatten(st.chunks)| }

  function JsNext(mp: MsgPack, st: Js): (r: (JsItem, Js))
    ensures r.0.Value? ==> !st.done && Size(r.1) < Size(st)
    decreases |st.chunks|
  {
    if st.done then (Done, st) else
    match TryParse(st.buf)
    case Extracted(t, p, rest) =>
      (match JsReact(mp, t, p)
       case React(item, over) => (item, Js(rest, st.chunks, over))
       case Skip => JsPull(mp, Js(rest, st.chunks, false)))
    case Incomplete => JsPull(mp, st)
  }

  /** Read from the transport, and only then look at the buffer again. */
  function JsPull(mp: MsgPack, st: Js): (r: (JsItem, Js))
    requires !st.done
    ensures r.0.Value? ==> Size(r.1) < Size(st)
    decreases |st.chunks|, 0
  {
    if st.chunks == [] then (Done, st.(done := true))
    else JsNext(mp, Js(st.buf + st.chunks[0], st.chunks[1..], false))
  }

  /** Once it said so, a stream is over: next reports the end again, and takes nothing from buffer
      or transport. */
  lemma {:induction false} OverForGood(mp: MsgPack, st: Js)
    ensures var (item, st') := JsNext(mp, st);
            && (item == Done ==> st'.done)
            && (item.Value? ==> !st'.done)
            && (st'.done ==> JsNext(mp, st') == (Done, st'))
    decreases |st.chunks|
  {
    if !st.done {
      var r := TryParse(st.buf);
      var after := if r.Extracted? then Js(r.rest, st.chunks, false) else st;
      if st.chunks != [] {
        OverForGood(mp, Js(after.buf + st.chunks[0], st.chunks[1..], false));
      }
      ItemsAndEnds(mp, st);
    }
  }

  lemma ItemsAndEnds(mp: MsgPack, st: Js)
    ensures TryParse(st.buf).Extracted? ==>
              var r := JsReact(mp, TryParse(st.buf).ftype, TryParse(st.buf).payload);
              r.React? ==> (r.item == Done ==> r.over) && (r.item.Value? ==> !r.over)
  {}

  /** `for await` over the stream: the values, and what ended the loop. */
  function JsCollect(mp: MsgPack, st: Js): (seq<Bytes>, JsItem)
    decreases Size(st)
  {
    var (item, st') := JsNext(mp, st);
    if item.Value? then
      var (ds, e) := JsCollect(mp, st');
      ([item.data] + ds, e)
    else ([], item)
  }

  /** The reader of the transport: the chunks not yet handed out. */
  class ChunkReader {
    var chunks: seq<Bytes>

    constructor (chunks: seq<Bytes>)
      ensures this.chunks == chunks
    {
      this.chunks := chunks;
    }

    method Read() returns (value: Bytes, done: bool)
      modifies this
      ensures done <==> old(chunks) == []
      ensures done ==> chunks == []
      ensures !done ==> value == old(chunks)[0] && chunks == old(chunks)[1..]
    {
      if chunks == [] {
        return [], true;
      }
      value, done := chunks[0], false;
      chunks := chunks[1..];
    }
  }

  class QfStream {
    const reader: ChunkReader
    const buf: FrameBuffer
    const mp: MsgPack
    var done: bool

    constructor (reader: ChunkReader, mp: MsgPack)
      ensures this.reader == reader && this.mp == mp && fresh(buf) && buf.Valid()
      ensures State() == Js([], reader.chunks, false)
    {
      this.reader, this.mp, done := reader, mp, false;
      buf := new FrameBuffer();
    }

    ghost function State(): Js
      reads this, buf, reader
    {
      Js(buf.buf, reader.chunks, done)
    }

    method Next() returns (item: JsItem)
      requires buf.Valid()
      modifies this, buf, reader
      ensures buf.Valid()
      ensures (item, State()) == JsNext(mp, old(State()))
    {
      if done {
        return Done;
      }
      while true
        invariant buf.Valid() && !done
        invariant JsNext(mp, State()) == JsNext(mp, old(State()))
        decreases |reader.chunks|
      {
        var frame := buf.TryRead(mp.decode);
        if frame.Undecodable? {
          return Thrown(None);
        }
        if frame.Decoded? {
          var m := frame.payload;
          if frame.ftype == [STREAM_DATA] {
            if m.StreamChunk? && m.final {
              done := true;
              return Done;
            }
            if m.StreamChunk? || m.ErrorFrame? {
              return Value(m.data);
            }
            return Thrown(None);
          } else if frame.ftype == [STREAM_END] {
            done := true;
            return Done;
          } else if frame.ftype == [ERROR] {
            done := true;
            return Thrown(if m.ErrorFrame? then Some(m.code) else None);
          }
        }
        var value, end := reader.Read();
        if end {
          done := true;
          return Done;
        }
        buf.Push(value);
      }
    }
  }

  function JsVerdict(e: Ending): JsItem
  {
    match e
    case EndMarker => Done
    case CutOff => Done
    case ServerError(code) => Thrown(Some(code))
  }

  lemma FlattenOne(chunks: seq<Bytes>, buf: Bytes)
    requires chunks != []
    ensures buf + Flatten(chunks) == (buf + chunks[0]) + Flatten(chunks[1..])
  {}

  /** The buffer a + the chunks b still to come begin with the frame f: tryRead finds it as soon
      as it is complete, and not before. */
  lemma TryParsePrefix(a: Bytes, b: Bytes, f: Frame, s: Bytes)
    requires WellFormed(f) && ParseFrame(a + b) == Got(f, s)
    ensures TryParse(a).Extracted? ==>
              TryParse(a).ftype == [f.ftype] && TryParse(a).payload == f.payload && TryParse(a).rest + b == s
    ensures b == [] ==> TryParse(a).Extracted?
  {
    TryParseAgreesExactly(a + b);
    if b == [] {
      assert a + b == a;
    }
    if TryParse(a).Extracted? {
      LengthOfPrefix(a);
      LengthOfPrefix(a + b);
      assert (a + b)[..4] == a[..4];
      TryParseAppend(a, b);
    }
  }

  lemma TryParseIncomplete(a: Bytes, b: Bytes)
    requires MidFrame(a + b)
    ensures TryParse(a).Incomplete?
  {
    if |a| >= 4 {
      LengthOfPrefix(a);
      LengthOfPrefix(a + b);
      assert (a + b)[..4] == a[..4];
    }
  }

  /** The JavaScript client gets the meaning of the stream however its bytes are cut; it cannot
      tell a stream that was cut off from one that ended. */
  lemma {:induction false} JsDelivers(mp: MsgPack, ms: seq<Message>, tail: Bytes, buf: Bytes, chunks: seq<Bytes>)
    requires mp.RoundTrips() && StreamMessages(ms)
    requires AllWellFormed(ToFrames(mp, ms)) && MidFrame(tail)
    requires buf + Flatten(chunks) == EncodedAll(ToFrames(mp, ms)) + tail
    ensures JsCollect(mp, Js(buf, chunks, false)) == (Meaning(ms).0, JsVerdict(Meaning(ms).1))
    decreases |ms|, |chunks|
  {
    hide Encoded, PutUint32, Uint32, TryParse, ParseFrame, JsReact;
    var st := Js(buf, chunks, false);
    var fs := ToFrames(mp, ms);
    if ms == [] {
      assert EncodedAll(fs) + tail == tail;
      TryParseIncomplete(buf, Flatten(chunks));
    } else {
      FirstFrame(fs, tail);
      TryParsePrefix(buf, Flatten(chunks), fs[0], EncodedAll(fs[1..]) + tail);
      assert ms[0] in ms;
      assert mp.decode(mp.encode(ms[0])) == Some(ms[0]);
    }
    if TryParse(buf).Incomplete? {
      if chunks != [] {
        FlattenOne(chunks, buf);
        JsDelivers(mp, ms, tail, buf + chunks[0], chunks[1..]);
        var pulled := Js(buf + chunks[0], chunks[1..], false);
        assert JsNext(mp, st) == JsPull(mp, st) == JsNext(mp, pulled);
        assert JsCollect(mp, st) == JsCollect(mp, pulled);
      } else {
        assert ms == [] && JsNext(mp, st).0 == Done;
      }
    } else {
      var m, rest := ms[0], Js(TryParse(buf).rest, chunks, false);
      ReactToMessage(mp, m);
      if m.StreamChunk? && !m.final {
        assert fs[1..] == ToFrames(mp, ms[1..]);
        JsDelivers(mp, ms[1..], tail, TryParse(buf).rest, chunks);
        assert JsNext(mp, st) == (Value(m.data), rest);
      } else {
        assert !JsNext(mp, st).0.Value?;
      }
    }
  }

  lemma ReactToMessage(mp: MsgPack, m: Message)
    requires mp.decode(mp.encode(m)) == Some(m) && (m.StreamChunk? || m.ErrorFrame?)
    ensures JsReact(mp, [TypeOf(m)], mp.encode(m)) ==
              match m
              case StreamChunk(_, _, data, final) => if final then React(Done, true) else React(Value(data), false)
              case ErrorFrame(_, code, _, _) => React(Thrown(Some(code)), true)
              case _ => Skip
  {
    assert [STREAM_END] != [STREAM_DATA] && [ERROR] != [STREAM_DATA] && [ERROR] != [STREAM_END] by {
      assert [STREAM_END][0] != [STREAM_DATA][0] && [ERROR][0] != [STREAM_DATA][0] && [ERROR][0] != [STREAM_END][0];
    }
  }

  /** A chunk, with its end marker and without: Rust reports the difference, JavaScript does not. */
  lemma CutOffExample(mp: MsgPack, id: string, data: Bytes)
    requires mp.RoundTrips()
    requires var chunk, end := StreamChunk(id, 0, data, false), StreamChunk(id, 1, [], true);
             AllWellFormed(ToFrames(mp, [chunk, end])) && AllWellFormed(ToFrames(mp, [chunk]))
    ensures var chunk, end := StreamChunk(id, 0, data, false), StreamChunk(id, 1, [], true);
            var ended, cutOff := EncodedAll(ToFrames(mp, [chunk, end])), EncodedAll(ToFrames(mp, [chunk]));
            && JsCollect(mp, Js([], [ended], false)) == JsCollect(mp, Js([], [cutOff], false)) == ([data], Done)
            && RustCollect(mp, ended) == All([data])
            && RustCollect(mp, cutOff) == Failed(Io)
  {
    hide EncodedAll, ParseFrame, JsCollect, RustCollect;
    var chunk, end := StreamChunk(id, 0, data, false), StreamChunk(id, 1, [], true);
    NoMoreBytes();
    assert [chunk, end][1..] == [end] && [chunk][1..] == [];
    assert [data] + [] == [data];
    assert Meaning([end]) == ([], EndMarker) && Meaning([]) == ([], CutOff);
    WholeInOneChunk(mp, [chunk, end]);
    WholeInOneChunk(mp, [chunk]);
  }

  lemma NoMoreBytes()
    ensures MidFrame([])
  {}

  lemma WholeInOneChunk(mp: MsgPack, ms: seq<Message>)
    requires mp.RoundTrips() && StreamMessages(ms) && AllWellFormed(ToFrames(mp, ms))
    ensures var s := EncodedAll(ToFrames(mp, ms));
            && JsCollect(mp, Js([], [s], false)) == (Meaning(ms).0, JsVerdict(Meaning(ms).1))
            && RustCollect(mp, s) == RustVerdict(Meaning(ms))
  {
    hide JsCollect, RustCollect, Meaning;
    NoMoreBytes();
    var s := EncodedAll(ToFrames(mp, ms));
    assert [s][1..] == [] && Flatten([s]) == s && [] + s == s && s + [] == s;
    JsDelivers(mp, ms, [], [], [s]);
    RustDelivers(mp, ms, []);
  }
}
