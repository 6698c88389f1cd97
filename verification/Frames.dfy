/** The length-prefixed frame codec: protocol/codec.go, and the same layout in the Rust and
    JavaScript client libraries.  Payloads are opaque bytes here. */
module Frames {
  newtype byte = x: int | 0 <= x < 256
  type Bytes = seq<byte>

  const MAX_FRAME_SIZE: nat := 64 * 1024 * 1024
  const TWO_TO_THE_32: nat := 0x1_0000_0000

  datatype Frame = Frame(ftype: byte, payload: Bytes)

  const RESPONSE: byte := 2
  const STREAM_DATA: byte := 3
  const STREAM_END: byte := 4
  const ERROR: byte := 5
  const PING: byte := 6
  const PONG: byte := 7
  const REQUEST: byte := 1

  // ---------------------------------------------------------------- lengths

  /** Big-endian 32-bit encoding. */
  function PutUint32(n: nat): (b: Bytes)
    requires n < TWO_TO_THE_32
    ensures |b| == 4
  {
    [(n / 0x100_0000) as byte, (n / 0x1_0000 % 256) as byte, (n / 0x100 % 256) as byte, (n % 256) as byte]
  }

  function Uint32(b: Bytes): (n: nat)
    requires |b| >= 4
    ensures n < TWO_TO_THE_32
  {
    b[0] as nat * 0x100_0000 + b[1] as nat * 0x1_0000 + b[2] as nat * 0x100 + b[3] as nat
  }

  lemma LengthRoundTrip(n: nat)
    requires n < TWO_TO_THE_32
    ensures Uint32(PutUint32(n)) == n
  {
    var q1 := n / 0x100;
    var q2 := q1 / 0x100;
    assert q1 / 0x100 == n / 0x1_0000 && q2 / 0x100 == n / 0x100_0000;
  }

  lemma LengthInjective(b: Bytes)
    requires |b| == 4
    ensures PutUint32(Uint32(b)) == b
  {
    var n := Uint32(b);
    var lo := b[2] as nat * 0x100 + b[3] as nat;
    assert n == (b[0] as nat * 0x100 + b[1] as nat) * 0x1_0000 + lo;
    assert n / 0x1_0000 == b[0] as nat * 0x100 + b[1] as nat;
    assert n / 0x100 == b[0] as nat * 0x1_0000 + b[1] as nat * 0x100 + b[2] as nat;
    assert n / 0x100_0000 == b[0] as nat;
  }

  /** The most significant byte comes first: appending a byte to the number appends it to the
      encoding, which only this byte order satisfies. */
  lemma BigEndianShift(m: nat, r: nat)
    requires m < 0x100_0000 && r < 256
    ensures PutUint32(m)[0] == 0
    ensures PutUint32(256 * m + r) == PutUint32(m)[1..] + [r as byte]
    ensures Uint32(PutUint32(m)[1..] + [r as byte]) == 256 * m + r
  {
    var n := 256 * m + r;
    assert n / 0x100 == m && n % 256 == r;
    assert n / 0x1_0000 == m / 0x100 && n / 0x100_0000 == m / 0x1_0000;
    LengthRoundTrip(n);
  }

  lemma LengthOfPrefix(s: Bytes)
    requires |s| >= 4
    ensures Uint32(s) == Uint32(s[..4])
  {}

  // ---------------------------------------------------------------- reference encoding

  predicate WellFormed(f: Frame) { 1 + |f.payload| <= MAX_FRAME_SIZE }

  predicate AllWellFormed(fs: seq<Frame>) { forall i :: 0 <= i < |fs| ==> WellFormed(fs[i]) }

  /** The documented layout: big-endian length of type and payload, type, payload. */
  function Encoded(f: Frame): (b: Bytes)
    requires WellFormed(f)
    ensures |b| == 5 + |f.payload|
  {
    PutUint32(1 + |f.payload|) + [f.ftype] + f.payload
  }

  /** A frame on the wire, byte by byte: the length with its most significant byte first, the
      type, the payload. */
  predicate LaidOut(b: Bytes, n: nat, t: byte, payload: Bytes)
  {
    && |b| == 5 + |payload|
    && b[0] as nat * 0x100_0000 + b[1] as nat * 0x1_0000 + b[2] as nat * 0x100 + b[3] as nat == n
    && b[4] == t
    && b[5..] == payload
  }

  lemma LayoutOf(n: nat, t: byte, payload: Bytes)
    requires n < TWO_TO_THE_32
    ensures LaidOut(PutUint32(n) + [t] + payload, n, t, payload)
  {
    LengthRoundTrip(n);
    hide PutUint32;
    var b := PutUint32(n) + [t] + payload;
    assert b[..4] == PutUint32(n) && b[5..] == payload;
    LengthOfPrefix(b);
  }

  /** A response whose payload is the byte 0xC0. */
  lemma LayoutExample()
    ensures Encoded(Frame(RESPONSE, [0xC0])) == [0, 0, 0, 2, 2, 0xC0]
  {}

  function EncodedAll(fs: seq<Frame>): Bytes
    requires AllWellFormed(fs)
  {
    if fs == [] then [] else Encoded(fs[0]) + EncodedAll(fs[1..])
  }

  lemma {:induction false} EncodedAllAppend(fs: seq<Frame>, gs: seq<Frame>)
    requires AllWellFormed(fs) && AllWellFormed(gs)
    ensures AllWellFormed(fs + gs)
    ensures EncodedAll(fs + gs) == EncodedAll(fs) + EncodedAll(gs)
  {
    hide PutUint32, Uint32;
    if fs == [] {
      assert fs + gs == gs;
    } else {
      EncodedAllAppend(fs[1..], gs);
      assert (fs + gs)[1..] == fs[1..] + gs;
    }
  }

  lemma EncodedAllOne(f: Frame)
    requires WellFormed(f)
    ensures EncodedAll([f]) == Encoded(f)
  {
    assert EncodedAll([f][1..]) == [];
  }

  // ---------------------------------------------------------------- one-shot reader

  datatype ParseResult =
    | Got(frame: Frame, rest: Bytes)
    | ShortHeader
    | BadLength(length: nat)
    | ShortBody

  /** What ReadFrame does with the bytes still to come from the transport. */
  function ParseFrame(s: Bytes): ParseResult
  {
    if |s| < 4 then ShortHeader else
    var n := Uint32(s);
    if n == 0 || n > MAX_FRAME_SIZE then BadLength(n)
    else if |s| < 4 + n then ShortBody
    else Got(Frame(s[4], s[5..4 + n]), s[4 + n..])
  }

  /** ReadFrame inverts the encoding, and nothing but an encoding is ever read as a frame. */
  lemma ParseFrameExact(s: Bytes, f: Frame, rest: Bytes)
    ensures ParseFrame(s) == Got(f, rest) <==> WellFormed(f) && s == Encoded(f) + rest
  {
    hide PutUint32, Uint32;
    if |s| >= 4 {
      LengthOfPrefix(s);
    }
    if ParseFrame(s) == Got(f, rest) {
      LengthInjective(s[..4]);
      var n := Uint32(s);
      assert s == s[..4] + [s[4]] + s[5..4 + n] + s[4 + n..];
    }
    if WellFormed(f) && s == Encoded(f) + rest {
      LengthRoundTrip(1 + |f.payload|);
      assert s[..4] == PutUint32(1 + |f.payload|);
      assert s[5..5 + |f.payload|] == f.payload;
      assert s[5 + |f.payload|..] == rest;
    }
  }

  /** Which inputs are rejected, and as what: the length is judged before the body is waited for. */
  lemma ParseFailsExactly(s: Bytes)
    ensures ParseFrame(s).ShortHeader? <==> |s| < 4
    ensures |s| >= 4 ==>
              var n := s[0] as nat * 0x100_0000 + s[1] as nat * 0x1_0000 + s[2] as nat * 0x100 + s[3] as nat;
              && (ParseFrame(s).BadLength? <==> n == 0 || n > 67_108_864)
              && (ParseFrame(s).BadLength? ==> ParseFrame(s).length == n)
              && (ParseFrame(s).ShortBody? <==> 1 <= n <= 67_108_864 && |s| < 4 + n)
  {}

  /** ReadFrame repeated until it fails: the frames, and the bytes it could not read. */
  function ParseAll(s: Bytes): (seq<Frame>, Bytes)
    decreases |s|
  {
    match ParseFrame(s)
    case Got(f, rest) => var (fs, tail) := ParseAll(rest); ([f] + fs, tail)
    case _ => ([], s)
  }

  lemma ParseAllStep(f: Frame, s: Bytes)
    requires WellFormed(f)
    ensures ParseAll(Encoded(f) + s) == ([f] + ParseAll(s).0, ParseAll(s).1)
  {
    ParseFrameExact(Encoded(f) + s, f, s);
  }

  lemma {:induction false} ParseAllOfEncoded(fs: seq<Frame>, tail: Bytes)
    requires AllWellFormed(fs)
    ensures ParseAll(EncodedAll(fs) + tail) == (fs + ParseAll(tail).0, ParseAll(tail).1)
    decreases |fs|
  {
    hide PutUint32, Uint32, Encoded, ParseFrame;
    var p := ParseAll(tail).0;
    if fs == [] {
      assert EncodedAll(fs) + tail == tail && fs + p == p;
    } else {
      var s := EncodedAll(fs[1..]) + tail;
      ParseAllOfEncoded(fs[1..], tail);
      ParseAllStep(fs[0], s);
      assert EncodedAll(fs) + tail == Encoded(fs[0]) + s;
      assert fs + p == [fs[0]] + (fs[1..] + p);
    }
  }

  lemma {:induction false} ParseAllReencodes(s: Bytes)
    ensures AllWellFormed(ParseAll(s).0)
    ensures EncodedAll(ParseAll(s).0) + ParseAll(s).1 == s
    ensures !ParseFrame(ParseAll(s).1).Got?
    decreases |s|
  {
    var r := ParseFrame(s);
    if r.Got? {
      ParseFrameExact(s, r.frame, r.rest);
      ParseAllReencodes(r.rest);
      var fs := ParseAll(r.rest).0;
      assert ([r.frame] + fs)[1..] == fs;
    }
  }

  /** A concatenation of frames has one parse only, whatever unreadable bytes follow it. */
  lemma UniqueParse(fs: seq<Frame>, tail: Bytes, gs: seq<Frame>, tail': Bytes)
    requires AllWellFormed(fs) && AllWellFormed(gs)
    requires !ParseFrame(tail).Got? && !ParseFrame(tail').Got?
    requires EncodedAll(fs) + tail == EncodedAll(gs) + tail'
    ensures fs == gs && tail == tail'
  {
    ParseAllOfEncoded(fs, tail);
    ParseAllOfEncoded(gs, tail');
    assert fs + [] == fs && gs + [] == gs;
  }

  /** A prefix of an encoding is whole frames followed by an incomplete one. */
  lemma {:induction false} PrefixOfEncoded(fs: seq<Frame>, n: nat) returns (k: nat, tail: Bytes)
    requires AllWellFormed(fs) && n <= |EncodedAll(fs)|
    ensures k <= |fs| && AllWellFormed(fs[..k])
    ensures EncodedAll(fs)[..n] == EncodedAll(fs[..k]) + tail
    ensures ParseFrame(tail) == ShortHeader || ParseFrame(tail) == ShortBody
    ensures tail != [] ==> k < |fs| && |tail| < |Encoded(fs[k])|
    ensures n == |EncodedAll(fs)| ==> k == |fs|
  {
    hide PutUint32, Uint32;
    if fs == [] {
      k, tail := 0, [];
    } else {
      var e := Encoded(fs[0]);
      if n < |e| {
        k, tail := 0, EncodedAll(fs)[..n];
        assert tail == e[..n];
        if n >= 4 {
          LengthRoundTrip(1 + |fs[0].payload|);
          assert tail[..4] == PutUint32(1 + |fs[0].payload|);
          LengthOfPrefix(tail);
        }
      } else {
        var k', t := PrefixOfEncoded(fs[1..], n - |e|);
        k, tail := k' + 1, t;
        assert fs[..k][1..] == fs[1..][..k'];
        assert EncodedAll(fs)[..n] == e + EncodedAll(fs[1..])[..n - |e|];
      }
    }
  }

  // ---------------------------------------------------------------- the three writers

  datatype WriteResult = Bytes(bytes: Bytes) | TooLarge | Panic

  /** Conversion to a 32-bit unsigned integer. */
  function Narrow(n: nat): (r: nat)
    ensures r < TWO_TO_THE_32
  {
    n % TWO_TO_THE_32
  }

  lemma NarrowFacts(n: nat)
    ensures n < TWO_TO_THE_32 ==> Narrow(n) == n
    ensures Narrow(1 + Narrow(n)) == Narrow(1 + n)
    ensures Narrow(1 + n) == 0 <==> Narrow(n) == TWO_TO_THE_32 - 1
  {}

  /** The Go writer narrows the length to 32 bits before it compares it with the cap. */
  function GoLength(payload: Bytes): (n: nat)
    ensures n < TWO_TO_THE_32
  {
    Narrow(1 + |payload|)
  }

  function GoEncode(t: byte, payload: Bytes): WriteResult
  {
    if GoLength(payload) > MAX_FRAME_SIZE then TooLarge
    else WriteResult.Bytes(PutUint32(GoLength(payload)) + [t] + payload)
  }

  /** `1u32 + len as u32`: the addition overflows for one residue; a build with overflow
      checks panics there, one without wraps. */
  function RustEncode(t: byte, payload: Bytes, checked: bool): WriteResult
  {
    var len := Narrow(|payload|);
    if checked && len == TWO_TO_THE_32 - 1 then Panic else
    var n := Narrow(1 + len);
    if n > MAX_FRAME_SIZE then TooLarge
    else WriteResult.Bytes(PutUint32(n) + [t] + payload)
  }

  /** JavaScript numbers do not wrap at these sizes. */
  function JsEncode(t: byte, payload: Bytes): WriteResult
  {
    if 1 + |payload| > MAX_FRAME_SIZE then TooLarge
    else WriteResult.Bytes(PutUint32(1 + |payload|) + [t] + payload)
  }

  /** Within the cap the three writers emit the reference bytes; up to 2^32 - 2 payload bytes
      they agree on refusing too. */
  lemma WritersAgree(t: byte, payload: Bytes, checked: bool)
    ensures WellFormed(Frame(t, payload)) ==>
              GoEncode(t, payload) == RustEncode(t, payload, checked) == JsEncode(t, payload)
              == WriteResult.Bytes(Encoded(Frame(t, payload)))
    ensures 1 + |payload| < TWO_TO_THE_32 ==>
              GoEncode(t, payload) == RustEncode(t, payload, checked) == JsEncode(t, payload)
  {
    hide PutUint32, Narrow;
    NarrowFacts(|payload|);
    NarrowFacts(1 + |payload|);
  }

  /** The exact sizes at which the Go writer and the JavaScript writer part. */
  lemma WritersDisagreeExactly(t: byte, payload: Bytes)
    ensures GoEncode(t, payload) != JsEncode(t, payload) <==>
            1 + |payload| >= TWO_TO_THE_32 && Narrow(1 + |payload|) <= MAX_FRAME_SIZE
    ensures RustEncode(t, payload, false) == GoEncode(t, payload)
    ensures RustEncode(t, payload, true) != GoEncode(t, payload) <==> Narrow(|payload|) == TWO_TO_THE_32 - 1
  {
    hide Narrow;
    NarrowFacts(|payload|);
    NarrowFacts(1 + |payload|);
    if GoLength(payload) <= MAX_FRAME_SIZE && 1 + |payload| <= MAX_FRAME_SIZE {
      assert GoLength(payload) == 1 + |payload|;
    }
  }

  ghost predicate ReadsBack(w: WriteResult, f: Frame)
  {
    w.Bytes? && forall rest: Bytes :: ParseFrame(w.bytes + rest) == Got(f, rest)
  }

  /** Write-then-read holds exactly within the cap: a writer that accepts a longer payload
      (because the length was narrowed first) has put something else on the wire. */
  lemma GoRoundTripExact(t: byte, payload: Bytes)
    ensures ReadsBack(GoEncode(t, payload), Frame(t, payload)) <==> 1 + |payload| <= 67_108_864
  {
    hide PutUint32, Uint32, Narrow;
    NarrowFacts(1 + |payload|);
    var f := Frame(t, payload);
    var w := GoEncode(t, payload);
    if WellFormed(f) {
      forall rest: Bytes ensures ParseFrame(w.bytes + rest) == Got(f, rest) {
        ParseFrameExact(w.bytes + rest, f, rest);
      }
    } else if w.Bytes? {
      ParseFrameExact(w.bytes + [], f, []);
    }
  }

  /** A payload of 2^32 - 1 bytes: the narrowed length is zero, the Go writer accepts it, and
      its reader rejects what was written. */
  lemma NarrowedLengthExample(t: byte)
    ensures exists p: Bytes :: GoEncode(t, p).Bytes? && ParseFrame(GoEncode(t, p).bytes) == BadLength(0)
  {
    var p: Bytes := seq(TWO_TO_THE_32 - 1, i => 0);
    var b := GoEncode(t, p).bytes;
    LengthRoundTrip(0);
    assert b[..4] == PutUint32(0);
    LengthOfPrefix(b);
    assert GoEncode(t, p).Bytes? && ParseFrame(GoEncode(t, p).bytes) == BadLength(0);
  }

  // ---------------------------------------------------------------- the transport stream

  /** All of s, or as much of it as the transport takes before it fails. */
  function Clip(capacity: int, s: Bytes): (r: Bytes)
    ensures r <= s
  {
    if 0 <= capacity < |s| then s[..capacity] else s
  }

  predicate Clips(capacity: int, s: Bytes) { 0 <= capacity < |s| }

  lemma ClipAppend(capacity: int, a: Bytes, b: Bytes)
    ensures Clip(capacity, Clip(capacity, a) + b) == Clip(capacity, a + b)
    ensures Clips(capacity, a) ==> Clip(capacity, a + b) == Clip(capacity, a)
  {
    if Clips(capacity, a) {
      assert (a[..capacity] + b)[..capacity] == a[..capacity] == (a + b)[..capacity];
    }
  }

  /** The sending half of a QUIC stream.  It takes `capacity` bytes and then fails for good;
      a negative capacity never fails. */
  class ByteSink {
    const capacity: int
    var out: Bytes

    ghost predicate Valid() reads this { 0 <= capacity ==> |out| <= capacity }

    constructor (capacity: int)
      ensures Valid() && out == [] && this.capacity == capacity
    {
      this.capacity := capacity;
      out := [];
    }

    method Write(b: Bytes) returns (ok: bool)
      requires Valid()
      modifies this
      ensures Valid()
      ensures out == Clip(capacity, old(out) + b)
      ensures ok <==> out == old(out) + b
    {
      if 0 <= capacity && capacity - |out| < |b| {
        assert (out + b)[..capacity] == out + b[..capacity - |out|];
        out := out + b[..capacity - |out|];
        ok := false;
      } else {
        out := out + b;
        ok := true;
      }
    }
  }

  /** WriteFrame of the Go server: three writes, stopping at the first that fails. */
  method WriteFrame(w: ByteSink, t: byte, payload: Bytes) returns (ok: bool)
    requires w.Valid()
    modifies w
    ensures w.Valid()
    ensures GoEncode(t, payload).TooLarge? ==> !ok && w.out == old(w.out)
    ensures GoEncode(t, payload).Bytes? ==>
              var full := old(w.out) + GoEncode(t, payload).bytes;
              w.out == Clip(w.capacity, full) && (ok <==> !Clips(w.capacity, full))
    ensures ok ==> w.out[..|old(w.out)|] == old(w.out) &&
                   LaidOut(w.out[|old(w.out)|..], (1 + |payload|) % 0x1_0000_0000, t, payload)
  {
    var frameLen := Narrow(1 + |payload|);
    if frameLen > MAX_FRAME_SIZE {
      return false;
    }
    var header := PutUint32(frameLen);
    ghost var start := w.out;
    ghost var all := start + header + [t] + payload;
    assert start + (header + [t] + payload) == all;
    assert (start + header) + ([t] + payload) == all;
    assert (start + header + [t]) + payload == all;
    ok := w.Write(header);
    if !ok {
      ClipAppend(w.capacity, start + header, [t] + payload);
      return;
    }
    ok := w.Write([t]);
    if !ok {
      ClipAppend(w.capacity, start + header + [t], payload);
      return;
    }
    ok := w.Write(payload);
    LayoutOf(frameLen, t, payload);
    assert all[|start|..] == header + [t] + payload;
  }

  /** The Rust writer builds one buffer and writes it whole. */
  method RustWriteFrame(w: ByteSink, t: byte, payload: Bytes, checked: bool) returns (r: WriteResult, ok: bool)
    requires w.Valid()
    modifies w
    ensures w.Valid()
    ensures r == RustEncode(t, payload, checked)
    ensures r.Bytes? ==> w.out == Clip(w.capacity, old(w.out) + r.bytes) && (ok <==> w.out == old(w.out) + r.bytes)
    ensures !r.Bytes? ==> w.out == old(w.out) && !ok
    ensures r.Bytes? ==> LaidOut(r.bytes, (1 + |payload|) % 0x1_0000_0000, t, payload)
  {
    var narrowed := Narrow(|payload|);
    if checked && narrowed == TWO_TO_THE_32 - 1 {
      return Panic, false;
    }
    var frameLen := Narrow(1 + narrowed);
    if frameLen > MAX_FRAME_SIZE {
      return TooLarge, false;
    }
    NarrowFacts(|payload|);
    LayoutOf(frameLen, t, payload);
    var buf: Bytes := PutUint32(frameLen);
    buf := buf + [t];
    buf := buf + payload;
    ok := w.Write(buf);
    r := WriteResult.Bytes(buf);
  }

  /** encodeFrame of the JavaScript library fills one buffer by offset. */
  method JsEncodeFrame(t: byte, encoded: Bytes) returns (r: WriteResult)
    ensures r == JsEncode(t, encoded)
    ensures r.Bytes? <==> 1 + |encoded| <= 67_108_864
    ensures r.Bytes? ==> LaidOut(r.bytes, 1 + |encoded|, t, encoded)
  {
    var frameLen := 1 + |encoded|;
    if frameLen > MAX_FRAME_SIZE {
      return TooLarge;
    }
    LayoutOf(frameLen, t, encoded);
    var buf := new byte[4 + frameLen];
    var header := PutUint32(frameLen);
    for i := 0 to 4
      invariant buf[..i] == header[..i]
    {
      buf[i] := header[i];
    }
    buf[4] := t;
    for i := 0 to |encoded|
      invariant buf[..5 + i] == header + [t] + encoded[..i]
    {
      buf[5 + i] := encoded[i];
    }
    assert buf[..] == buf[..5 + |encoded|];
    r := WriteResult.Bytes(buf[..]);
  }

  // ---------------------------------------------------------------- the pulling reader

  /** The receiving half of a stream: the bytes the peer sent, and how far they were read. */
  class ByteReader {
    const data: Bytes
    var pos: nat

    ghost predicate Valid() reads this { pos <= |data| }

    ghost function Remaining(): Bytes
      requires Valid()
      reads this
    {
      data[pos..]
    }

    constructor (data: Bytes)
      ensures Valid() && Remaining() == data && this.data == data
    {
      this.data := data;
      pos := 0;
    }

    /** io.ReadFull and read_exact: n bytes, or an error after the end was reached. */
    method ReadFull(n: nat) returns (ok: bool, b: Bytes)
      requires Valid()
      modifies this
      ensures Valid()
      ensures ok <==> n <= |old(Remaining())|
      ensures ok ==> b == old(Remaining())[..n] && Remaining() == old(Remaining())[n..]
      ensures !ok ==> Remaining() == []
    {
      if n <= |data| - pos {
        b := data[pos..pos + n];
        pos := pos + n;
        ok := true;
      } else {
        b, pos, ok := [], |data|, false;
      }
    }

    /** ReadFrame (Go) and read_frame (Rust). */
    method ReadFrame() returns (r: ParseResult)
      requires Valid()
      modifies this
      ensures Valid()
      ensures r == ParseFrame(old(Remaining()))
      ensures r.Got? ==> Remaining() == r.rest
      ensures r.Got? ==> |old(Remaining())| >= 5 + |r.frame.payload| &&
                         LaidOut(old(Remaining())[..5 + |r.frame.payload|], 1 + |r.frame.payload|, r.frame.ftype, r.frame.payload)
      ensures r.BadLength? ==> Remaining() == old(Remaining())[4..]
      ensures r.ShortHeader? || r.ShortBody? ==> Remaining() == []
    {
      ghost var s := Remaining();
      var ok, header := ReadFull(4);
      if !ok {
        return ShortHeader;
      }
      var frameLen := Uint32(header);
      if frameLen == 0 || frameLen > MAX_FRAME_SIZE {
        return BadLength(frameLen);
      }
      var buf;
      ok, buf := ReadFull(frameLen);
      if !ok {
        return ShortBody;
      }
      assert buf[1..] == s[5..4 + frameLen];
      r := Got(Frame(buf[0], buf[1..]), data[pos..]);
      assert s[..4 + frameLen][5..] == buf[1..];
    }
  }
}
