/** QfStream.next and frames of a type it does not know: it skips them, but then reads from the
    transport before it looks at its buffer again. */
module SkippedFrames {
  import opened Options
  import opened Frames
  import opened FrameBuffers
  import opened Messages
  import opened Readers

  predicate Known(m: Message) { m.StreamChunk? || m.ErrorFrame? }

  function KnownOf(ms: seq<Message>): seq<Message>
  {
    if ms == [] then [] else (if Known(ms[0]) then [ms[0]] else []) + KnownOf(ms[1..])
  }

  /** What the reader should yield: the meaning of the stream without the frames it skips. */
  function Wanted(ms: seq<Message>): (seq<Bytes>, JsItem)
  {
    (Meaning(KnownOf(ms)).0, JsVerdict(Meaning(KnownOf(ms)).1))
  }

  lemma WantedStep(ms: seq<Message>)
    requires ms != []
    ensures Wanted(ms) ==
              match ms[0]
              case StreamChunk(_, _, data, final) =>
                if final then ([], Done) else ([data] + Wanted(ms[1..]).0, Wanted(ms[1..]).1)
              case ErrorFrame(_, code, _, _) => ([], Thrown(Some(code)))
              case _ => Wanted(ms[1..])
  {
    if Known(ms[0]) {
      assert KnownOf(ms) == [ms[0]] + KnownOf(ms[1..]);
      assert KnownOf(ms)[1..] == KnownOf(ms[1..]);
    } else {
      assert KnownOf(ms) == [] + KnownOf(ms[1..]) == KnownOf(ms[1..]);
    }
  }

  predicate Quiet(ms: seq<Message>) { Wanted(ms) == ([], Done) }

  /** Behind the first unknown frame there is nothing left to yield. */
  predicate Harmless(ms: seq<Message>)
  {
    ms == [] ||
    match ms[0]
    case StreamChunk(_, _, _, final) => final || Harmless(ms[1..])
    case ErrorFrame(_, _, _, _) => true
    case _ => Quiet(ms[1..])
  }

  /** The next frame as the reader meets it. */
  lemma NextFrame(mp: MsgPack, ms: seq<Message>, buf: Bytes, chunks: seq<Bytes>)
    requires mp.RoundTrips() && AllWellFormed(ToFrames(mp, ms))
    requires buf + Flatten(chunks) == EncodedAll(ToFrames(mp, ms))
    ensures ms == [] ==> TryParse(buf).Incomplete?
    ensures ms != [] && TryParse(buf).Extracted? ==>
              TryParse(buf).rest + Flatten(chunks) == EncodedAll(ToFrames(mp, ms[1..])) &&
              AllWellFormed(ToFrames(mp, ms[1..])) &&
              JsReact(mp, TryParse(buf).ftype, TryParse(buf).payload) ==
                match ms[0]
                case StreamChunk(_, _, data, final) => if final then React(Done, true) else React(Value(data), false)
                case ErrorFrame(_, code, _, _) => React(Thrown(Some(code)), true)
                case _ => Skip
    ensures ms != [] && chunks == [] ==> TryParse(buf).Extracted?
  {
    hide Encoded, PutUint32, Uint32, TryParse, ParseFrame, JsReact;
    var fs := ToFrames(mp, ms);
    assert EncodedAll(fs) + [] == EncodedAll(fs);
    NoMoreBytes();
    if ms == [] {
      TryParseIncomplete(buf, Flatten(chunks));
    } else {
      FirstFrame(fs, []);
      assert fs[1..] == ToFrames(mp, ms[1..]);
      assert EncodedAll(fs[1..]) + [] == EncodedAll(fs[1..]);
      TryParsePrefix(buf, Flatten(chunks), fs[0], EncodedAll(fs[1..]));
      assert mp.decode(mp.encode(ms[0])) == Some(ms[0]);
      ReactToAny(mp, ms[0]);
    }
  }

  lemma ReactToAny(mp: MsgPack, m: Message)
    requires mp.decode(mp.encode(m)) == Some(m)
    ensures JsReact(mp, [TypeOf(m)], mp.encode(m)) ==
              match m
              case StreamChunk(_, _, data, final) => if final then React(Done, true) else React(Value(data), false)
              case ErrorFrame(_, code, _, _) => React(Thrown(Some(code)), true)
              case _ => Skip
  {
    assert forall a: byte, b: byte :: a != b ==> [a][0] != [b][0];
    if Known(m) {
      ReactToMessage(mp, m);
    } else {
      assert [TypeOf(m)][0] != [STREAM_DATA][0] && [TypeOf(m)][0] != [STREAM_END][0] && [TypeOf(m)][0] != [ERROR][0];
    }
  }

  lemma {:induction false} QuietStaysQuiet(mp: MsgPack, ms: seq<Message>, buf: Bytes, chunks: seq<Bytes>)
    requires mp.RoundTrips() && AllWellFormed(ToFrames(mp, ms)) && Quiet(ms)
    requires buf + Flatten(chunks) == EncodedAll(ToFrames(mp, ms))
    ensures JsNext(mp, Js(buf, chunks, false)).0 == Done
    decreases |chunks|
  {
    hide TryParse, JsReact, Wanted;
    NextFrame(mp, ms, buf, chunks);
    if ms != [] {
      WantedStep(ms);
    }
    if chunks != [] {
      if TryParse(buf).Incomplete? {
        FlattenOne(chunks, buf);
        QuietStaysQuiet(mp, ms, buf + chunks[0], chunks[1..]);
      } else if !Known(ms[0]) {
        var rest := TryParse(buf).rest;
        FlattenOne(chunks, rest);
        QuietStaysQuiet(mp, ms[1..], rest + chunks[0], chunks[1..]);
      }
    }
  }

  lemma {:induction false} HarmlessIsDelivered(mp: MsgPack, ms: seq<Message>, buf: Bytes, chunks: seq<Bytes>)
    requires mp.RoundTrips() && AllWellFormed(ToFrames(mp, ms)) && Harmless(ms)
    requires buf + Flatten(chunks) == EncodedAll(ToFrames(mp, ms))
    ensures JsCollect(mp, Js(buf, chunks, false)) == Wanted(ms)
    decreases |ms|, |chunks|
  {
    hide TryParse, JsReact, Wanted;
    var st := Js(buf, chunks, false);
    NextFrame(mp, ms, buf, chunks);
    if ms != [] {
      WantedStep(ms);
    } else {
      NothingWanted();
    }
    if TryParse(buf).Incomplete? {
      if chunks != [] {
        FlattenOne(chunks, buf);
        HarmlessIsDelivered(mp, ms, buf + chunks[0], chunks[1..]);
        var pulled := Js(buf + chunks[0], chunks[1..], false);
        assert JsNext(mp, st) == JsPull(mp, st) == JsNext(mp, pulled);
        assert JsCollect(mp, st) == JsCollect(mp, pulled);
      } else {
        assert ms == [] && JsNext(mp, st).0 == Done;
      }
    } else {
      var rest := Js(TryParse(buf).rest, chunks, false);
      if !Known(ms[0]) {
        QuietAfterSkip(mp, ms[1..], rest);
        assert JsNext(mp, st) == JsPull(mp, rest);
      } else if ms[0].StreamChunk? && !ms[0].final {
        HarmlessIsDelivered(mp, ms[1..], rest.buf, chunks);
        assert JsNext(mp, st) == (Value(ms[0].data), rest);
      } else {
        assert !JsNext(mp, st).0.Value?;
      }
    }
  }

  lemma NothingWanted()
    ensures Wanted([]) == ([], Done)
  {}

  lemma QuietAfterSkip(mp: MsgPack, ms: seq<Message>, st: Js)
    requires mp.RoundTrips() && AllWellFormed(ToFrames(mp, ms)) && Quiet(ms) && !st.done
    requires st.buf + Flatten(st.chunks) == EncodedAll(ToFrames(mp, ms))
    ensures JsPull(mp, st).0 == Done
  {
    if st.chunks != [] {
      FlattenOne(st.chunks, st.buf);
      QuietStaysQuiet(mp, ms, st.buf + st.chunks[0], st.chunks[1..]);
    }
  }

  /** Everything buffered and nothing left to read: the first unknown frame ends the stream. */
  lemma {:induction false} HarmfulIsLost(mp: MsgPack, ms: seq<Message>, buf: Bytes)
    requires mp.RoundTrips() && AllWellFormed(ToFrames(mp, ms)) && !Harmless(ms)
    requires buf == EncodedAll(ToFrames(mp, ms))
    ensures JsCollect(mp, Js(buf, [], false)) != Wanted(ms)
    decreases |ms|
  {
    hide TryParse, JsReact, Wanted;
    var st := Js(buf, [], false);
    assert buf + Flatten([]) == buf;
    NextFrame(mp, ms, buf, []);
    WantedStep(ms);
    var rest := Js(TryParse(buf).rest, [], false);
    assert rest.buf + Flatten([]) == rest.buf;
    if Known(ms[0]) {
      HarmfulIsLost(mp, ms[1..], rest.buf);
      assert JsNext(mp, st) == (Value(ms[0].data), rest);
      var a, b := JsCollect(mp, rest), Wanted(ms[1..]);
      assert ([ms[0].data] + a.0)[1..] == a.0 && ([ms[0].data] + b.0)[1..] == b.0;
    } else {
      assert JsNext(mp, st) == JsPull(mp, rest) == (Done, rest.(done := true));
    }
  }

  /** Exactly the frame sequences that are delivered however they are cut. */
  lemma SkippingExactly(mp: MsgPack, ms: seq<Message>)
    requires mp.RoundTrips() && AllWellFormed(ToFrames(mp, ms))
    ensures Harmless(ms) <==>
            forall chunks :: Flatten(chunks) == EncodedAll(ToFrames(mp, ms)) ==>
              JsCollect(mp, Js([], chunks, false)) == Wanted(ms)
  {
    var s := EncodedAll(ToFrames(mp, ms));
    if Harmless(ms) {
      forall chunks | Flatten(chunks) == s ensures JsCollect(mp, Js([], chunks, false)) == Wanted(ms) {
        assert [] + Flatten(chunks) == Flatten(chunks);
        HarmlessIsDelivered(mp, ms, [], chunks);
      }
    } else {
      HarmfulIsLost(mp, ms, s);
      assert [s][1..] == [] && Flatten([s]) == s && [] + s == s;
      var st, pulled := Js([], [s], false), Js(s, [], false);
      assert TryParse([]).Incomplete?;
      assert JsNext(mp, st) == JsPull(mp, st) == JsNext(mp, pulled);
      assert JsCollect(mp, st) == JsCollect(mp, pulled);
    }
  }

  /** A pong in front of a chunk, received together with it: the chunk is lost. */
  lemma SkippedExample(mp: MsgPack, id: string, data: Bytes)
    requires mp.RoundTrips() && AllWellFormed(ToFrames(mp, [Ping(0), StreamChunk(id, 0, data, false)]))
    ensures var ms := [Ping(0), StreamChunk(id, 0, data, false)];
            && !Harmless(ms) && Wanted(ms) == ([data], Done)
            && JsCollect(mp, Js(EncodedAll(ToFrames(mp, ms)), [], false)) == ([], Done)
  {
    hide TryParse, JsReact, Wanted, ToFrames;
    var ms := [Ping(0), StreamChunk(id, 0, data, false)];
    assert ms[1..] == [StreamChunk(id, 0, data, false)] && ms[1..][1..] == [] && [data] + [] == [data];
    WantedStep(ms);
    WantedStep(ms[1..]);
    NothingWanted();
    var buf := EncodedAll(ToFrames(mp, ms));
    assert buf + Flatten([]) == buf;
    NextFrame(mp, ms, buf, []);
    var rest := Js(TryParse(buf).rest, [], false);
    assert JsNext(mp, Js(buf, [], false)) == JsPull(mp, rest) == (Done, rest.(done := true));
  }
}
