/** The payload structures of protocol/types.go.  MessagePack itself is a parameter: an encoder
    and a decoder, related by `RoundTrips` where a theorem needs them related. */
module Messages {
  import opened Frames
  import opened Options

  datatype Message =
    | Request(id: string, verb: string, path: string, headers: map<string, string>, body: Bytes, stream: bool)
    | Response(id: string, status: int, headers: map<string, string>, body: Bytes, stream: bool)
    | StreamChunk(id: string, seqNo: nat, data: Bytes, final: bool)
    | ErrorFrame(id: string, code: int, message: string, data: Bytes)
    | Ping(ts: int)

  datatype MsgPack = MsgPack(encode: Message -> Bytes, decode: Bytes -> Option<Message>)
  {
    ghost predicate RoundTrips() { forall m :: decode(encode(m)) == Some(m) }
  }

  /** The frame type the server gives each message; a ping payload is only sent as a pong. */
  function TypeOf(m: Message): byte
  {
    match m
    case Request(_, _, _, _, _, _) => REQUEST
    case Response(_, _, _, _, _) => RESPONSE
    case StreamChunk(_, _, _, final) => if final then STREAM_END else STREAM_DATA
    case ErrorFrame(_, _, _, _) => ERROR
    case Ping(_) => PONG
  }

  function ToFrame(mp: MsgPack, m: Message): Frame { Frame(TypeOf(m), mp.encode(m)) }

  function ToFrames(mp: MsgPack, ms: seq<Message>): (fs: seq<Frame>)
    ensures |fs| == |ms| && forall i :: 0 <= i < |ms| ==> fs[i] == ToFrame(mp, ms[i])
  {
    seq(|ms|, i requires 0 <= i < |ms| => ToFrame(mp, ms[i]))
  }

  /** WriteFrame accepts the message. */
  predicate Accepts(mp: MsgPack, m: Message) { GoLength(mp.encode(m)) <= MAX_FRAME_SIZE }

  /** The encoded length is not narrowed. */
  predicate Fits(mp: MsgPack, m: Message) { 1 + |mp.encode(m)| < TWO_TO_THE_32 }

  /** The messages WriteFrame puts on the wire when given m: m, or nothing. */
  function Offered(mp: MsgPack, m: Message): seq<Message> { if Accepts(mp, m) then [m] else [] }

  function MessageBytes(mp: MsgPack, m: Message): Bytes
  {
    PutUint32(GoLength(mp.encode(m))) + [TypeOf(m)] + mp.encode(m)
  }

  /** The type bytes of the protocol: a response is 2, a chunk 3, the end marker 4, an error 5 and
      the answer to a ping 7. */
  lemma MessageLaidOut(mp: MsgPack, m: Message)
    ensures LaidOut(MessageBytes(mp, m), (1 + |mp.encode(m)|) % 0x1_0000_0000,
                    if m.Request? then 1 else if m.Response? then 2 else if m.ErrorFrame? then 5
                    else if m.Ping? then 7 else if m.final then 4 else 3,
                    mp.encode(m))
  {
    LayoutOf(GoLength(mp.encode(m)), TypeOf(m), mp.encode(m));
  }

  /** Everything a lossless transport would carry for these messages. */
  function Wire(mp: MsgPack, ms: seq<Message>): Bytes
  {
    if ms == [] then [] else Wire(mp, ms[..|ms| - 1]) + MessageBytes(mp, ms[|ms| - 1])
  }

  lemma {:induction false} WireAppend(mp: MsgPack, ms: seq<Message>, ns: seq<Message>)
    ensures Wire(mp, ms + ns) == Wire(mp, ms) + Wire(mp, ns)
    decreases |ns|
  {
    hide MessageBytes;
    if ns == [] {
      assert ms + ns == ms;
    } else {
      var n := |ns| - 1;
      assert (ms + ns)[..|ms + ns| - 1] == ms + ns[..n];
      WireAppend(mp, ms, ns[..n]);
    }
  }

  lemma WireOne(mp: MsgPack, m: Message)
    ensures Wire(mp, [m]) == MessageBytes(mp, m)
  {
    hide MessageBytes;
    assert [m][..0] == [];
    assert [] + MessageBytes(mp, m) == MessageBytes(mp, m);
  }

  /** Messages that were accepted without narrowing travel as the reference encoding. */
  lemma {:induction false} WireIsEncoding(mp: MsgPack, ms: seq<Message>)
    requires forall m <- ms :: Accepts(mp, m) && Fits(mp, m)
    ensures AllWellFormed(ToFrames(mp, ms))
    ensures Wire(mp, ms) == EncodedAll(ToFrames(mp, ms))
    decreases |ms|
  {
    if ms != [] {
      hide PutUint32, Narrow;
      var init, m := ms[..|ms| - 1], ms[|ms| - 1];
      assert ms == init + [m];
      WireIsEncoding(mp, init);
      assert m in ms;
      NarrowFacts(1 + |mp.encode(m)|);
      assert WellFormed(ToFrame(mp, m));
      assert ToFrames(mp, ms) == ToFrames(mp, init) + [ToFrame(mp, m)];
      EncodedAllAppend(ToFrames(mp, init), [ToFrame(mp, m)]);
      EncodedAllOne(ToFrame(mp, m));
    }
  }

  /** WriteFrame of one message to the transport. */
  method WriteMessage(w: ByteSink, mp: MsgPack, m: Message) returns (ok: bool)
    requires w.Valid()
    modifies w
    ensures w.Valid()
    ensures w.out == Clip(w.capacity, old(w.out) + Wire(mp, Offered(mp, m)))
    ensures ok <==> Accepts(mp, m) && !Clips(w.capacity, old(w.out) + Wire(mp, Offered(mp, m)))
  {
    WireOne(mp, m);
    ok := WriteFrame(w, TypeOf(m), mp.encode(m));
  }
}
