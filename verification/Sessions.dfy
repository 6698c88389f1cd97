/** Opening a stream from the client side, and two places where the JavaScript client depends on
    how the transport happened to cut the bytes. */
module Sessions {
  import opened Options
  import opened Frames
  import opened FrameBuffers
  import opened Messages
  import opened StreamWriters
  import opened Readers
  import opened EndToEnd
  import opened Dispatch

  // ---------------------------------------------------------------- the response head

  datatype RustOpened = Opened(status: int, rest: Bytes) | Refused(item: RustItem)

  /** Client::stream after the request was sent. */
  function RustOpen(mp: MsgPack, s: Bytes): RustOpened
  {
    match ParseFrame(s)
    case Got(f, rest) =>
      if f.ftype == RESPONSE then
        match mp.decode(f.payload)
        case Some(Response(_, status, _, _, stream)) => if stream then Opened(status, rest) else Refused(Codec)
        case _ => Refused(Codec)
      else if f.ftype == ERROR then
        match mp.decode(f.payload)
        case Some(ErrorFrame(_, code, _, _)) => Refused(ServerSaid(code))
        case _ => Refused(Codec)
      else Refused(Unexpected(f.ftype))
    case BadLength(_) => Refused(Codec)
    case _ => Refused(Io)
  }

  /** What stream() leaves of the chunks, and what was in its own buffer when it returned. */
  datatype JsOpened = JsOpened(left: seq<Bytes>, dropped: Bytes) | JsRefused(code: Option<int>)

  /** One tryRead per chunk, until the response head is there. */
  function JsOpen(mp: MsgPack, buf: Bytes, chunks: seq<Bytes>): JsOpened
    decreases |chunks|
  {
    if chunks == [] then JsRefused(Some(500)) else
    var b := buf + chunks[0];
    match TryParse(b)
    case Incomplete => JsOpen(mp, b, chunks[1..])
    case Extracted(t, p, rest) =>
      match mp.decode(p)
      case None => JsRefused(None)
      case Some(m) =>
        if t == [ERROR] then JsRefused(if m.ErrorFrame? then Some(m.code) else None)
        else if t == [RESPONSE] then JsOpened(chunks[1..], rest)
        else JsOpen(mp, rest, chunks[1..])
  }

  method JsOpenStream(mp: MsgPack, reader: ChunkReader) returns (r: JsOpened)
    modifies reader
    ensures r == JsOpen(mp, [], old(reader.chunks))
    ensures r.JsOpened? ==> reader.chunks == r.left
  {
    var buf := new FrameBuffer();
    while true
      invariant buf.Valid() && fresh(buf)
      invariant JsOpen(mp, buf.buf, reader.chunks) == JsOpen(mp, [], old(reader.chunks))
      decreases |reader.chunks|
    {
      var value, end := reader.Read();
      if end {
        return JsRefused(Some(500));
      }
      buf.Push(value);
      var f := buf.TryRead(mp.decode);
      if f.Undecodable? {
        return JsRefused(None);
      }
      if f.Decoded? {
        if f.ftype == [ERROR] {
          return JsRefused(if f.payload.ErrorFrame? then Some(f.payload.code) else None);
        }
        if f.ftype == [RESPONSE] {
          return JsOpened(reader.chunks, buf.buf);
        }
      }
    }
  }

  /** Some cut falls at offset n. */
  ghost predicate CutAt(chunks: seq<Bytes>, n: int)
  {
    exists j :: 0 <= j <= |chunks| && |Flatten(chunks[..j])| == n
  }

  lemma CutAtStep(chunks: seq<Bytes>, n: nat)
    requires chunks != []
    ensures |chunks[0]| < n ==> (CutAt(chunks, n) <==> CutAt(chunks[1..], n - |chunks[0]|))
    ensures |chunks[0]| == n ==> CutAt(chunks, n)
    ensures |chunks[0]| > n > 0 ==> !CutAt(chunks, n)
  {
    assert Flatten(chunks[..0]) == [];
    forall j | 1 <= j <= |chunks|
      ensures |Flatten(chunks[..j])| == |chunks[0]| + |Flatten(chunks[1..][..j - 1])|
    {
      assert chunks[..j][1..] == chunks[1..][..j - 1];
    }
    assert chunks[1..][..0] == [];
    if |chunks[0]| < n && CutAt(chunks[1..], n - |chunks[0]|) {
      var j :| 0 <= j <= |chunks[1..]| && |Flatten(chunks[1..][..j])| == n - |chunks[0]|;
      assert |Flatten(chunks[..j + 1])| == n;
    }
    if |chunks[0]| < n && CutAt(chunks, n) {
      var j :| 0 <= j <= |chunks| && |Flatten(chunks[..j])| == n;
      assert |Flatten(chunks[1..][..j - 1])| == n - |chunks[0]|;
    }
    if |chunks[0]| == n {
      assert |Flatten(chunks[..1])| == n;
    }
  }

  /** Opening finds the head, and hands on the body without the bytes that shared a chunk with the
      end of the head: nothing is lost exactly when the transport cut between head and body. */
  lemma {:induction false} HeadBoundary(mp: MsgPack, head: Message, body: Bytes, buf: Bytes, chunks: seq<Bytes>)
    requires mp.RoundTrips() && head.Response? && WellFormed(ToFrame(mp, head))
    requires buf + Flatten(chunks) == Encoded(ToFrame(mp, head)) + body
    requires |buf| < |Encoded(ToFrame(mp, head))|
    ensures var r := JsOpen(mp, buf, chunks);
            && r.JsOpened?
            && r.dropped + Flatten(r.left) == body
            && (r.dropped == [] <==> CutAt(chunks, |Encoded(ToFrame(mp, head))| - |buf|))
    decreases |chunks|
  {
    hide PutUint32, Uint32, TryParse, ParseFrame;
    var f := ToFrame(mp, head);
    var n := |Encoded(f)| - |buf|;
    assert chunks != [];
    var b := buf + chunks[0];
    FlattenOne(chunks, buf);
    CutAtStep(chunks, n);
    ParseFrameExact(b + Flatten(chunks[1..]), f, body);
    TryParsePrefix(b, Flatten(chunks[1..]), f, body);
    FoundWhenComplete(b, f, Flatten(chunks[1..]), body);
    assert mp.decode(mp.encode(head)) == Some(head);
    assert [RESPONSE] != [ERROR] by { assert [RESPONSE][0] != [ERROR][0]; }
    if TryParse(b).Incomplete? {
      HeadBoundary(mp, head, body, b, chunks[1..]);
    } else {
      assert |TryParse(b).rest| == |b| - |Encoded(f)|;
    }
  }

  lemma FoundWhenComplete(a: Bytes, f: Frame, b: Bytes, s: Bytes)
    requires WellFormed(f) && a + b == Encoded(f) + s
    ensures TryParse(a).Extracted? <==> |a| >= |Encoded(f)|
    ensures TryParse(a).Extracted? ==> |TryParse(a).rest| == |a| - |Encoded(f)|
  {
    hide PutUint32, Uint32;
    if |a| >= 4 {
      LengthOfPrefix(a);
      LengthRoundTrip(1 + |f.payload|);
      assert a[..4] == (a + b)[..4] == PutUint32(1 + |f.payload|);
    }
  }

  /** The first frame, when the head is something else than a response. */
  lemma {:induction false} JsErrorHead(mp: MsgPack, head: Message, body: Bytes, buf: Bytes, chunks: seq<Bytes>)
    requires mp.RoundTrips() && head.ErrorFrame? && WellFormed(ToFrame(mp, head))
    requires buf + Flatten(chunks) == Encoded(ToFrame(mp, head)) + body
    requires |buf| < |Encoded(ToFrame(mp, head))|
    ensures JsOpen(mp, buf, chunks) == JsRefused(Some(head.code))
    decreases |chunks|
  {
    hide PutUint32, Uint32, TryParse, ParseFrame;
    var f := ToFrame(mp, head);
    assert chunks != [];
    var b := buf + chunks[0];
    FlattenOne(chunks, buf);
    ParseFrameExact(b + Flatten(chunks[1..]), f, body);
    TryParsePrefix(b, Flatten(chunks[1..]), f, body);
    FoundWhenComplete(b, f, Flatten(chunks[1..]), body);
    assert mp.decode(mp.encode(head)) == Some(head);
    if TryParse(b).Incomplete? {
      JsErrorHead(mp, head, body, b, chunks[1..]);
    }
  }

  /** A stream that stops before its head is complete. */
  lemma {:induction false} NoHead(mp: MsgPack, buf: Bytes, chunks: seq<Bytes>)
    requires MidFrame(buf + Flatten(chunks))
    ensures JsOpen(mp, buf, chunks) == JsRefused(Some(500))
    ensures RustOpen(mp, buf + Flatten(chunks)) == Refused(Io)
    decreases |chunks|
  {
    if chunks != [] {
      hide TryParse, ParseFrame;
      FlattenOne(chunks, buf);
      TryParseIncomplete(buf + chunks[0], Flatten(chunks[1..]));
      NoHead(mp, buf + chunks[0], chunks[1..]);
    }
  }

  /** The first chunk completes a frame: what opening does with it goes by its type.  A response (2)
      is the head, an error (5) refuses, and any other frame is passed over, the bytes behind it
      kept. */
  lemma HeadByType(mp: MsgPack, f: Frame, more: Bytes, chunks: seq<Bytes>)
    requires WellFormed(f) && chunks != [] && chunks[0] == Encoded(f) + more
    ensures JsOpen(mp, [], chunks) ==
              var m := mp.decode(f.payload);
              if m.None? then JsRefused(None)
              else if f.ftype == 5 then JsRefused(if m.value.ErrorFrame? then Some(m.value.code) else None)
              else if f.ftype == 2 then JsOpened(chunks[1..], more)
              else JsOpen(mp, more, chunks[1..])
  {
    hide PutUint32, Uint32, TryParse;
    assert [] + chunks[0] == chunks[0];
    TryParseWhole(f.ftype, f.payload, more);
    assert [f.ftype][0] == f.ftype && [ERROR][0] == 5 && [RESPONSE][0] == 2;
    assert [f.ftype] == [ERROR] <==> f.ftype == 5;
    assert [f.ftype] == [RESPONSE] <==> f.ftype == 2;
  }

  /** What the Rust client makes of the first frame: only a streaming response opens a stream, and
      only an error frame is the server's own error. */
  lemma RustOpenExactly(mp: MsgPack, s: Bytes)
    ensures var o, r := RustOpen(mp, s), ParseFrame(s);
            && (o.Opened? ==> r.Got? && o.rest == r.rest)
            && (r.ShortHeader? || r.ShortBody? <==> o == Refused(Io))
            && (r.BadLength? ==> o == Refused(Codec))
            && (r.Got? ==>
                  var t, m := r.frame.ftype, mp.decode(r.frame.payload);
                  && (o.Opened? <==> t == 2 && m.Some? && m.value.Response? && m.value.stream)
                  && (o.Opened? ==> o.status == m.value.status)
                  && (t == 2 && !o.Opened? ==> o == Refused(Codec))
                  && (t == 5 ==> o == if m.Some? && m.value.ErrorFrame? then Refused(ServerSaid(m.value.code)) else Refused(Codec))
                  && (t != 2 && t != 5 ==> o == Refused(Unexpected(t))))
  {}

  function JsSession(mp: MsgPack, chunks: seq<Bytes>): (seq<Bytes>, JsItem)
  {
    match JsOpen(mp, [], chunks)
    case JsRefused(code) => ([], Thrown(code))
    case JsOpened(left, _) => JsCollect(mp, Js([], left, false))
  }

  /** With a cut between head and body the whole stream is delivered. */
  lemma SessionDelivers(mp: MsgPack, head: Message, ms: seq<Message>, tail: Bytes, chunks: seq<Bytes>)
    requires mp.RoundTrips() && head.Response? && WellFormed(ToFrame(mp, head))
    requires StreamMessages(ms) && AllWellFormed(ToFrames(mp, ms)) && MidFrame(tail)
    requires Flatten(chunks) == Encoded(ToFrame(mp, head)) + (EncodedAll(ToFrames(mp, ms)) + tail)
    requires CutAt(chunks, |Encoded(ToFrame(mp, head))|)
    ensures JsSession(mp, chunks) == (Meaning(ms).0, JsVerdict(Meaning(ms).1))
  {
    var body := EncodedAll(ToFrames(mp, ms)) + tail;
    assert [] + Flatten(chunks) == Flatten(chunks);
    HeadBoundary(mp, head, body, [], chunks);
    var left := JsOpen(mp, [], chunks).left;
    assert [] + Flatten(left) == Flatten(left);
    JsDelivers(mp, ms, tail, [], left);
  }

  /** Head and body in one chunk: whatever the stream carried, the client sees an empty one. */
  lemma SessionLosesExample(mp: MsgPack, head: Message, body: Bytes)
    requires mp.RoundTrips() && head.Response? && WellFormed(ToFrame(mp, head))
    ensures JsSession(mp, [Encoded(ToFrame(mp, head)) + body]) == ([], Done)
  {
    var whole := Encoded(ToFrame(mp, head)) + body;
    var chunks := [whole];
    assert chunks[1..] == [] && Flatten(chunks) == whole && [] + whole == whole;
    FlattenOne(chunks, []);
    ParseFrameExact(whole, ToFrame(mp, head), body);
    TryParsePrefix(whole, [], ToFrame(mp, head), body);
    assert whole + [] == whole;
    assert mp.decode(mp.encode(head)) == Some(head);
    assert [RESPONSE] != [ERROR] by { assert [RESPONSE][0] != [ERROR][0]; }
    assert JsOpen(mp, [], chunks) == JsOpened([], TryParse(whole).rest);
    assert TryParse([]).Incomplete?;
    assert JsNext(mp, Js([], [], false)) == (Done, Js([], [], true));
  }

  // ---------------------------------------------------------------- a whole dispatch

  lemma HeadBytes(mp: MsgPack, m: Message)
    requires Accepts(mp, m) && Fits(mp, m)
    ensures WellFormed(ToFrame(mp, m)) && MessageBytes(mp, m) == Encoded(ToFrame(mp, m))
  {
    hide PutUint32, Narrow;
    NarrowFacts(1 + |mp.encode(m)|);
  }

  lemma ResponseReachesClients(mp: MsgPack, id: string, head: Message, stream: seq<Message>, chunks: seq<Bytes>)
    requires mp.RoundTrips() && head.Response? && head.stream && Accepts(mp, head) && Fits(mp, head)
    requires StreamShaped(id, stream) && forall m <- stream :: Accepts(mp, m) && Fits(mp, m)
    requires Flatten(chunks) == MessageBytes(mp, head) + Wire(mp, stream)
    ensures RustOpen(mp, Flatten(chunks)) == Opened(head.status, Wire(mp, stream))
    ensures RustCollect(mp, Wire(mp, stream)) == (if Ended(stream) then All(Datas(stream)) else Failed(Io))
    ensures CutAt(chunks, |MessageBytes(mp, head)|) ==> JsSession(mp, chunks) == (Datas(stream), Done)
  {
    hide PutUint32, Uint32, TryParse, Narrow, RustCollect, JsSession, MessageBytes, Encoded, Accepts, Fits;
    HeadBytes(mp, head);
    WireIsEncoding(mp, stream);
    var body := EncodedAll(ToFrames(mp, stream));
    assert body + [] == body;
    ParseFrameExact(Flatten(chunks), ToFrame(mp, head), body);
    assert mp.decode(mp.encode(head)) == Some(head);
    assert forall m <- stream :: m.StreamChunk?;
    RustDelivers(mp, stream, []);
    MeaningOfStream(id, stream);
    if CutAt(chunks, |MessageBytes(mp, head)|) {
      SessionDelivers(mp, head, stream, [], chunks);
    }
  }

  /** From a handler's actions to both clients: if the request was answered by opening a stream
      and the transport carried everything, the clients get the chunks of the writes performed on
      it, in order; JavaScript provided the transport cut between head and stream. */
  lemma DispatchReachesClients(env: Env, p: Program, hooks: seq<Action>, chunks: seq<Bytes>)
    requires env.mp.RoundTrips() && !RepliesTwice(env, p, hooks)
    requires var ms := Serve(env, p, hooks); ms != [] && ms[0].Response? && ms[0].stream
    requires forall m <- Serve(env, p, hooks) :: Fits(env.mp, m)
    requires Flatten(chunks) == Wire(env.mp, Serve(env, p, hooks))
    ensures var mp, ms := env.mp, Serve(env, p, hooks);
            var stream := ms[1..];
            && stream == Fold(mp, env.id, Performed(env, p, hooks)).sent
            && RustOpen(mp, Flatten(chunks)) == Opened(ms[0].status, Wire(mp, stream))
            && RustCollect(mp, Wire(mp, stream)) == (if Ended(stream) then All(Datas(stream)) else Failed(Io))
            && (CutAt(chunks, |MessageBytes(mp, ms[0])|) ==> JsSession(mp, chunks) == (Datas(stream), Done))
  {
    hide Serve, Performed, RepliesTwice, RustCollect, RustOpen, JsSession, MessageBytes, Wire, Accepts, Fits;
    var mp, ms := env.mp, Serve(env, p, hooks);
    var head, stream := ms[0], ms[1..];
    ServeAccepted(env, p, hooks);
    OpenedStream(env, p, hooks);
    GrammarExactly(env, p, hooks);
    assert [head] + stream == ms && forall m <- stream :: m in ms;
    WireAppend(mp, [head], stream);
    WireOne(mp, head);
    ResponseReachesClients(mp, env.id, head, stream, chunks);
  }

  /** A request answered with an error: both clients report its code, however the bytes are cut. */
  lemma ErrorReachesClients(mp: MsgPack, capacity: int, app: App, input: Bytes, chunks: seq<Bytes>)
    requires mp.RoundTrips()
    requires var ms := Answer(mp, capacity, app, input); ms != [] && ms[0].ErrorFrame? && Fits(mp, ms[0])
    requires Flatten(chunks) == Wire(mp, Answer(mp, capacity, app, input))
    ensures var code := Answer(mp, capacity, app, input)[0].code;
            && RustOpen(mp, Flatten(chunks)) == Refused(ServerSaid(code))
            && JsSession(mp, chunks) == ([], Thrown(Some(code)))
  {
    hide Answer, Wire, MessageBytes, PutUint32, Uint32, ParseFrame, Accepts, Fits;
    var ms := Answer(mp, capacity, app, input);
    var f := ToFrame(mp, ms[0]);
    AnswerAccepted(mp, capacity, app, input);
    WireFront(mp, ms);
    HeadBytes(mp, ms[0]);
    ParseFrameExact(Flatten(chunks), f, Wire(mp, ms[1..]));
    assert mp.decode(mp.encode(ms[0])) == Some(ms[0]);
    assert [] + Flatten(chunks) == Flatten(chunks);
    JsErrorHead(mp, ms[0], Wire(mp, ms[1..]), [], chunks);
  }
}
