/** The incremental parser of the JavaScript library (sdk/js/src/protocol.js), compared with
    reading the same bytes in one go. */
module FrameBuffers {
  import opened Frames
  import opened Options

  /** What tryRead takes off the front of the buffer.  The type byte is missing when a header
      announcing zero bytes is the last thing buffered. */
  datatype TryResult =
    | Incomplete
    | Extracted(ftype: seq<byte>, payload: Bytes, rest: Bytes)

  /** The parser accepts any announced length, zero and oversize included. */
  function TryParse(buf: Bytes): TryResult
  {
    if |buf| < 4 then Incomplete else
    var n := Uint32(buf);
    if |buf| < 4 + n then Incomplete
    else Extracted(
           if |buf| > 4 then [buf[4]] else [],
           if n == 0 then [] else buf[5..4 + n],
           buf[4 + n..])
  }

  /** A laid-out frame of any 32-bit length is taken off whole. */
  lemma TryParseWhole(t: byte, payload: Bytes, rest: Bytes)
    requires 1 + |payload| < TWO_TO_THE_32
    ensures TryParse(PutUint32(1 + |payload|) + [t] + payload + rest) == Extracted([t], payload, rest)
  {
    hide PutUint32, Uint32;
    var n := 1 + |payload|;
    var s := PutUint32(n) + [t] + payload + rest;
    LengthRoundTrip(n);
    LengthOfPrefix(s);
    assert s[..4] == PutUint32(n) && s[4] == t && s[5..4 + n] == payload && s[4 + n..] == rest;
  }

  /** ReadFrame's verdict on the same bytes, with its errors taken as "no frame". */
  function AsTryResult(r: ParseResult): TryResult
  {
    match r
    case Got(f, rest) => Extracted([f.ftype], f.payload, rest)
    case _ => Incomplete
  }

  /** The two parsers differ on a complete frame of an invalid length, and nowhere else. */
  lemma TryParseAgreesExactly(buf: Bytes)
    ensures TryParse(buf) == AsTryResult(ParseFrame(buf)) <==>
            !(|buf| >= 4 && (Uint32(buf) == 0 || (Uint32(buf) > MAX_FRAME_SIZE && |buf| >= 4 + Uint32(buf))))
  {}

  // ---------------------------------------------------------------- draining

  /** A frame as tryRead reports it, before the payload is decoded. */
  datatype JsFrame = JsFrame(ftype: seq<byte>, payload: Bytes)

  function FromFrame(f: Frame): JsFrame { JsFrame([f.ftype], f.payload) }

  function FromFrames(fs: seq<Frame>): (js: seq<JsFrame>)
    ensures |js| == |fs| && forall i :: 0 <= i < |fs| ==> js[i] == FromFrame(fs[i])
  {
    seq(|fs|, i requires 0 <= i < |fs| => FromFrame(fs[i]))
  }

  /** tryRead until it returns null. */
  function Drain(buf: Bytes): (seq<JsFrame>, Bytes)
    decreases |buf|
  {
    match TryParse(buf)
    case Incomplete => ([], buf)
    case Extracted(t, p, rest) => var (fs, tail) := Drain(rest); ([JsFrame(t, p)] + fs, tail)
  }

  /** Push each chunk and drain after each push. */
  function DrainEach(buf: Bytes, chunks: seq<Bytes>): (seq<JsFrame>, Bytes)
    decreases |chunks|
  {
    if chunks == [] then ([], buf) else
    var (fs, left) := Drain(buf + chunks[0]);
    var (gs, tail) := DrainEach(left, chunks[1..]);
    (fs + gs, tail)
  }

  function Flatten(chunks: seq<Bytes>): Bytes
  {
    if chunks == [] then [] else chunks[0] + Flatten(chunks[1..])
  }

  /** Repeated ReadFrame on the whole input. */
  function OneShot(s: Bytes): (seq<JsFrame>, Bytes)
  {
    (FromFrames(ParseAll(s).0), ParseAll(s).1)
  }

  /** Following the announced lengths through s never meets a complete frame of invalid length. */
  predicate Sound(s: Bytes)
    decreases |s|
  {
    |s| >= 4 ==>
      var n := Uint32(s);
      n != 0 && (|s| >= 4 + n ==> n <= MAX_FRAME_SIZE && Sound(s[4 + n..]))
  }

  lemma TryParseAppend(a: Bytes, b: Bytes)
    requires |a| >= 4 && Uint32(a) != 0 && |a| >= 4 + Uint32(a)
    ensures Uint32(a + b) == Uint32(a)
    ensures TryParse(a).Extracted?
    ensures TryParse(a + b) == Extracted(TryParse(a).ftype, TryParse(a).payload, TryParse(a).rest + b)
  {
    LengthOfPrefix(a);
    LengthOfPrefix(a + b);
    assert (a + b)[..4] == a[..4];
    var n := Uint32(a);
    assert (a + b)[4 + n..] == a[4 + n..] + b;
    assert (a + b)[5..4 + n] == a[5..4 + n];
  }

  /** Draining early and carrying the rest over loses nothing and invents nothing. */
  lemma {:induction false} DrainAppend(a: Bytes, b: Bytes)
    requires Sound(a + b)
    ensures Sound(Drain(a).1 + b)
    ensures Drain(a + b) == (Drain(a).0 + Drain(Drain(a).1 + b).0, Drain(Drain(a).1 + b).1)
    decreases |a|
  {
    hide Uint32;
    var r := TryParse(a);
    if r.Extracted? {
      LengthOfPrefix(a);
      LengthOfPrefix(a + b);
      assert (a + b)[..4] == a[..4];
      TryParseAppend(a, b);
      assert (a + b)[4 + Uint32(a)..] == r.rest + b;
      DrainAppend(r.rest, b);
      var f := [JsFrame(r.ftype, r.payload)];
      var rest := Drain(Drain(r.rest).1 + b).0;
      assert f + (Drain(r.rest).0 + rest) == (f + Drain(r.rest).0) + rest;
    } else {
      assert [] + Drain(a + b).0 == Drain(a + b).0;
    }
  }

  lemma {:induction false} DrainIsOneShot(s: Bytes)
    requires Sound(s)
    ensures Drain(s) == OneShot(s)
    decreases |s|
  {
    hide Uint32;
    var r := ParseFrame(s);
    TryParseAgreesExactly(s);
    if r.Got? {
      DrainIsOneShot(r.rest);
      assert FromFrames([r.frame] + ParseAll(r.rest).0) == [FromFrame(r.frame)] + FromFrames(ParseAll(r.rest).0);
    } else {
      assert FromFrames([]) == [];
    }
  }

  lemma {:induction false} DrainEachIsDrain(buf: Bytes, chunks: seq<Bytes>)
    requires Sound(buf + Flatten(chunks)) && TryParse(buf).Incomplete?
    ensures DrainEach(buf, chunks) == Drain(buf + Flatten(chunks))
    decreases |chunks|
  {
    hide TryParse, Sound;
    if chunks == [] {
      assert buf + Flatten(chunks) == buf;
    } else {
      var a, b := buf + chunks[0], Flatten(chunks[1..]);
      assert buf + Flatten(chunks) == a + b;
      DrainAppend(a, b);
      DrainedIsIncomplete(a);
      DrainEachIsDrain(Drain(a).1, chunks[1..]);
    }
  }

  lemma {:induction false} DrainedIsIncomplete(s: Bytes)
    ensures TryParse(Drain(s).1).Incomplete?
    decreases |s|
  {
    hide Uint32;
    var r := TryParse(s);
    if r.Extracted? {
      DrainedIsIncomplete(r.rest);
    }
  }

  /** Incremental parsing is one-shot parsing, however the bytes are cut. */
  lemma IncrementalAgrees(chunks: seq<Bytes>)
    requires Sound(Flatten(chunks))
    ensures DrainEach([], chunks) == OneShot(Flatten(chunks))
  {
    assert [] + Flatten(chunks) == Flatten(chunks);
    DrainEachIsDrain([], chunks);
    DrainIsOneShot(Flatten(chunks));
  }

  /** With a complete frame of invalid length somewhere, even the uncut input is parsed
      differently: one-shot reading stops there, the buffer goes on. */
  lemma {:induction false} UnsoundDiffers(s: Bytes)
    requires !Sound(s)
    ensures |Drain(s).0| > |OneShot(s).0|
    decreases |s|
  {
    var n := Uint32(s);
    if n != 0 && n <= MAX_FRAME_SIZE {
      UnsoundDiffers(s[4 + n..]);
      assert ParseFrame(s).rest == s[4 + n..] && TryParse(s).rest == s[4 + n..];
      assert ParseAll(s).0 == [ParseFrame(s).frame] + ParseAll(s[4 + n..]).0;
    }
  }

  /** Exactly the inputs on which every cutting gives what repeated ReadFrame gives. */
  lemma IncrementalAgreesExactly(s: Bytes)
    ensures Sound(s) <==> forall chunks :: Flatten(chunks) == s ==> DrainEach([], chunks) == OneShot(s)
  {
    if Sound(s) {
      forall chunks | Flatten(chunks) == s ensures DrainEach([], chunks) == OneShot(s) {
        IncrementalAgrees(chunks);
      }
    } else {
      UnsoundDiffers(s);
      assert [s][1..] == [] && Flatten([s]) == s;
      DrainWhole(s);
    }
  }

  lemma {:induction false} EncodedIsSound(fs: seq<Frame>, tail: Bytes)
    requires AllWellFormed(fs) && Sound(tail)
    ensures Sound(EncodedAll(fs) + tail)
    decreases |fs|
  {
    if fs == [] {
      assert EncodedAll(fs) + tail == tail;
    } else {
      hide PutUint32, Uint32;
      var s, rest := EncodedAll(fs) + tail, EncodedAll(fs[1..]) + tail;
      assert s == Encoded(fs[0]) + rest;
      ParseFrameExact(s, fs[0], rest);
      EncodedIsSound(fs[1..], tail);
    }
  }

  /** Frames the writers produced come back once each and in order; an incomplete tail stays
      in the buffer. */
  lemma FramesSurviveCutting(fs: seq<Frame>, tail: Bytes, chunks: seq<Bytes>)
    requires AllWellFormed(fs)
    requires ParseFrame(tail).ShortHeader? || ParseFrame(tail).ShortBody?
    requires Flatten(chunks) == EncodedAll(fs) + tail
    ensures DrainEach([], chunks) == (FromFrames(fs), tail)
  {
    EncodedIsSound(fs, tail);
    IncrementalAgrees(chunks);
    ParseAllOfEncoded(fs, tail);
    assert fs + [] == fs;
  }

  /** A complete frame above the cap: one-shot reading rejects its header, the buffer hands it
      out. */
  lemma OversizeExample(t: byte, payload: Bytes)
    requires MAX_FRAME_SIZE < 1 + |payload| < TWO_TO_THE_32
    ensures var s := PutUint32(1 + |payload|) + [t] + payload;
            && ParseFrame(s) == BadLength(1 + |payload|) && OneShot(s) == ([], s)
            && TryParse(s) == Extracted([t], payload, [])
            && DrainEach([], [s]) == ([JsFrame([t], payload)], [])
  {
    hide PutUint32, Uint32;
    var n := 1 + |payload|;
    var s := PutUint32(n) + [t] + payload;
    TryParseWhole(t, payload, []);
    assert s + [] == s;
    LengthRoundTrip(n);
    LengthOfPrefix(s);
    assert s[..4] == PutUint32(n);
    assert FromFrames([]) == [];
    DrainWhole(s);
    DrainShort([]);
    var none: seq<JsFrame> := [];
    assert [JsFrame([t], payload)] + none == [JsFrame([t], payload)];
    assert Drain(s) == ([JsFrame([t], payload)] + Drain([]).0, Drain([]).1);
  }

  /** A header announcing zero bytes, before the empty payload is decoded: cut behind the header the type is missing, cut later the
      first byte of the next frame is reported as the type. */
  lemma ZeroLengthExample(next: byte)
    ensures var header: Bytes := [0, 0, 0, 0];
            DrainEach([], [header, [next]]).0 == [JsFrame([], [])] &&
            DrainEach([], [header + [next]]).0 == [JsFrame([next], [])]
  {
    hide TryParse;
    var header: Bytes := [0, 0, 0, 0];
    ZeroHeader(header, []);
    ZeroHeader(header, [next]);
    DrainWhole(header);
    DrainWhole(header + [next]);
    var more: Bytes := [next];
    DrainShort(more);
    DrainWhole(more);
    assert [header, more][1..] == [more];
    assert [] + header == header && header + [] == header && [] + more == more;
  }

  lemma DrainShort(s: Bytes)
    requires |s| < 4
    ensures Drain(s) == ([], s)
  {}

  lemma ZeroHeader(header: Bytes, more: Bytes)
    requires header == [0, 0, 0, 0] && |more| <= 1
    ensures Drain(header + more) == ([JsFrame(more, [])], more)
  {
    var s := header + more;
    assert s[..4] == header && s[4..] == more;
    assert Uint32(s) == 0 by { LengthOfPrefix(s); }
    assert TryParse(s) == Extracted(more, [], more);
    assert Drain(more) == ([], more);
    var f := [JsFrame(more, [])];
    assert Drain(s) == (f + [], more) && f + [] == f;
  }

  lemma DrainWhole(s: Bytes)
    ensures DrainEach([], [s]) == Drain(s)
  {
    hide TryParse;
    assert [] + s == s && [s][1..] == [];
    assert Drain(s).0 + [] == Drain(s).0;
  }

  // ---------------------------------------------------------------- the class

  /** What tryRead returns, or Undecodable where its decoder throws. */
  datatype ReadResult<+T> = NoFrame | Undecodable | Decoded(ftype: seq<byte>, payload: T)

  function DecodedResult<T>(decode: Bytes -> Option<T>, r: TryResult): ReadResult<T>
  {
    match r
    case Incomplete => NoFrame
    case Extracted(t, p, _) => if decode(p).None? then Undecodable else Decoded(t, decode(p).value)
  }

  /** One new array, filled from both parts. */
  method Concat(a: Bytes, b: Bytes) returns (r: Bytes)
    ensures r == a + b
  {
    var merged := new byte[|a| + |b|];
    for i := 0 to |a|
      invariant merged[..i] == a[..i]
    {
      merged[i] := a[i];
    }
    for i := 0 to |b|
      invariant merged[..|a| + i] == a + b[..i]
    {
      merged[|a| + i] := b[i];
    }
    assert merged[..] == merged[..|a| + |b|];
    r := merged[..];
  }

  class FrameBuffer {
    var buf: Bytes
    ghost var pushed: Bytes    // everything ever pushed
    ghost var consumed: Bytes  // what tryRead has taken off the front

    ghost predicate Valid()
      reads this
    {
      pushed == consumed + buf
    }

    constructor ()
      ensures Valid() && buf == [] && pushed == []
    {
      buf, pushed, consumed := [], [], [];
    }

    method Push(chunk: Bytes)
      requires Valid()
      modifies this
      ensures Valid()
      ensures buf == old(buf) + chunk && pushed == old(pushed) + chunk && consumed == old(consumed)
    {
      var merged := Concat(buf, chunk);
      buf, pushed := merged, pushed + chunk;
    }

    /** The frame is off the buffer before its payload is decoded, so an undecodable payload costs
        its frame. */
    method TryRead<T>(decode: Bytes -> Option<T>) returns (r: ReadResult<T>)
      requires Valid()
      modifies this
      ensures Valid()
      ensures r == DecodedResult(decode, TryParse(old(buf))) && pushed == old(pushed)
      ensures TryParse(old(buf)).Incomplete? ==> buf == old(buf) && consumed == old(consumed)
      ensures TryParse(old(buf)).Extracted? ==> buf == TryParse(old(buf)).rest
    {
      if |buf| < 4 {
        return NoFrame;
      }
      var frameLen := Uint32(buf);
      var totalSize := 4 + frameLen;
      if |buf| < totalSize {
        return NoFrame;
      }
      var frameType := if 4 < |buf| then [buf[4]] else [];
      var payload := if 5 <= totalSize then buf[5..totalSize] else [];
      consumed := consumed + buf[..totalSize];
      buf := buf[totalSize..];
      var value := decode(payload);
      if value.None? {
        return Undecodable;
      }
      r := Decoded(frameType, value.value);
    }
  }
}
