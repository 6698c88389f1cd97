/** The streaming half of framework/context.go: one StreamWriter shared by any number of
    goroutines.  Its mutex makes every Write and Close one step. */
module StreamWriters {
  import opened Frames
  import opened Messages

  const TWO_TO_THE_64: nat := 0x1_0000_0000_0000_0000

  /** The fields the mutex guards.  The sequence number is a 64-bit unsigned integer. */
  datatype Writer = Writer(seqNo: nat, closed: bool)

  const FRESH := Writer(0, false)

  function Next(seqNo: nat): (n: nat)
    ensures n < TWO_TO_THE_64
  {
    (seqNo + 1) % TWO_TO_THE_64
  }

  function ChunkMessage(id: string, w: Writer, data: Bytes): Message { StreamChunk(id, w.seqNo, data, false) }

  function EndMessage(id: string, w: Writer): Message { StreamChunk(id, w.seqNo, [], true) }

  datatype Op = WriteOp(data: Bytes) | CloseOp

  /** A writer and the messages it has put on the wire. */
  datatype Stream = Stream(writer: Writer, sent: seq<Message>)

  /** One locked section.  A closed writer does nothing; an open one uses up a sequence number
      for every chunk, accepted or not. */
  function Apply(mp: MsgPack, id: string, s: Stream, op: Op): Stream
  {
    if s.writer.closed then s else
    match op
    case WriteOp(data) =>
      Stream(Writer(Next(s.writer.seqNo), false), s.sent + Offered(mp, ChunkMessage(id, s.writer, data)))
    case CloseOp =>
      Stream(Writer(s.writer.seqNo, true), s.sent + Offered(mp, EndMessage(id, s.writer)))
  }

  /** An accepted message that fits into the transport is there in whole, a refused one not at
      all. */
  lemma SendsWhole(mp: MsgPack, m: Message, capacity: int, out: Bytes)
    requires 0 <= capacity ==> |out| <= capacity
    ensures var all := out + Wire(mp, Offered(mp, m));
            && (Accepts(mp, m) && !Clips(capacity, all) ==> Clip(capacity, all) == out + MessageBytes(mp, m))
            && (!Accepts(mp, m) ==> Clip(capacity, all) == out)
  {
    WireOne(mp, m);
    assert out + [] == out;
  }

  class StreamWriter {
    const sink: ByteSink
    const mp: MsgPack
    const requestId: string
    var seqNo: nat
    var closed: bool

    constructor (sink: ByteSink, mp: MsgPack, requestId: string)
      ensures this.sink == sink && this.mp == mp && this.requestId == requestId
      ensures State() == FRESH
    {
      this.sink, this.mp, this.requestId := sink, mp, requestId;
      seqNo, closed := 0, false;
    }

    ghost function State(): Writer reads this { Writer(seqNo, closed) }

    ghost function After(op: Op): Stream
      reads this
    {
      Apply(mp, requestId, Stream(State(), []), op)
    }

    /** The chunk goes to the transport, or as much of it as the transport takes; it counts as
        written only if the frame was accepted and went out whole. */
    method Write(data: Bytes) returns (n: nat, ok: bool)
      requires sink.Valid()
      modifies this, sink
      ensures sink.Valid()
      ensures State() == old(After(WriteOp(data))).writer
      ensures sink.out == Clip(sink.capacity, old(sink.out) + Wire(mp, old(After(WriteOp(data))).sent))
      ensures ok <==> old(After(WriteOp(data))).sent != [] &&
                      !Clips(sink.capacity, old(sink.out) + Wire(mp, old(After(WriteOp(data))).sent))
      ensures n == if ok then |data| else 0
      ensures old(closed) ==> !ok && seqNo == old(seqNo) && sink.out == old(sink.out)
      ensures !old(closed) ==>
                var chunk := StreamChunk(requestId, old(seqNo), data, false);
                && !closed && seqNo == (old(seqNo) + 1) % 0x1_0000_0000_0000_0000
                && (ok ==> sink.out == old(sink.out) + MessageBytes(mp, chunk))
                && (!Accepts(mp, chunk) ==> !ok && sink.out == old(sink.out))
    {
      hide MessageBytes, Accepts, Clips;
      if closed {
        assert sink.out + [] == sink.out;
        return 0, false;
      }
      var chunk := StreamChunk(requestId, seqNo, data, false);
      assert [] + Offered(mp, chunk) == Offered(mp, chunk);
      seqNo := (seqNo + 1) % TWO_TO_THE_64;
      SendsWhole(mp, chunk, sink.capacity, sink.out);
      ok := WriteMessage(sink, mp, chunk);
      n := if ok then |data| else 0;
    }

    /** Closing twice is allowed and the second time does nothing. */
    method Close() returns (ok: bool)
      requires sink.Valid()
      modifies this, sink
      ensures sink.Valid() && closed
      ensures State() == old(After(CloseOp)).writer
      ensures sink.out == Clip(sink.capacity, old(sink.out) + Wire(mp, old(After(CloseOp)).sent))
      ensures ok <==> old(closed) || (old(After(CloseOp)).sent != [] &&
                      !Clips(sink.capacity, old(sink.out) + Wire(mp, old(After(CloseOp)).sent)))
      ensures seqNo == old(seqNo)
      ensures !old(closed) && ok ==> sink.out == old(sink.out) + MessageBytes(mp, StreamChunk(requestId, old(seqNo), [], true))
      ensures old(closed) || !Accepts(mp, StreamChunk(requestId, old(seqNo), [], true)) ==> sink.out == old(sink.out)
    {
      hide MessageBytes, Accepts, Clips;
      if closed {
        assert sink.out + [] == sink.out;
        return true;
      }
      closed := true;
      var chunk := StreamChunk(requestId, seqNo, [], true);
      assert [] + Offered(mp, chunk) == Offered(mp, chunk);
      SendsWhole(mp, chunk, sink.capacity, sink.out);
      ok := WriteMessage(sink, mp, chunk);
    }
  }

  // ---------------------------------------------------------------- one writer, any operations

  /** A fresh writer after the operations, in the order they took the lock. */
  function Fold(mp: MsgPack, id: string, ops: seq<Op>): Stream
  {
    if ops == [] then Stream(FRESH, []) else
    Apply(mp, id, Fold(mp, id, ops[..|ops| - 1]), ops[|ops| - 1])
  }

  lemma FoldOne(mp: MsgPack, id: string, ops: seq<Op>, op: Op)
    ensures Fold(mp, id, ops + [op]) == Apply(mp, id, Fold(mp, id, ops), op)
  {
    assert (ops + [op])[..|ops|] == ops;
  }

  /** A stream as the protocol document describes it: chunks of this request, and nothing after
      the final one. */
  predicate StreamShaped(id: string, ms: seq<Message>)
  {
    forall i :: 0 <= i < |ms| ==>
      ms[i].StreamChunk? && ms[i].id == id && (ms[i].final ==> i == |ms| - 1 && ms[i].data == [])
  }

  predicate Ended(ms: seq<Message>) { ms != [] && ms[|ms| - 1].StreamChunk? && ms[|ms| - 1].final }

  ghost predicate Shaped(mp: MsgPack, id: string, s: Stream)
  {
    && StreamShaped(id, s.sent)
    && (Ended(s.sent) ==> s.writer.closed)
    && (forall m <- s.sent :: Accepts(mp, m))
    && s.writer.seqNo < TWO_TO_THE_64
  }

  lemma ApplyKeepsShape(mp: MsgPack, id: string, s: Stream, op: Op)
    requires Shaped(mp, id, s)
    ensures Shaped(mp, id, Apply(mp, id, s, op))
    ensures Apply(mp, id, s, op).writer.closed <==> s.writer.closed || op.CloseOp?
  {
    hide Accepts;
  }

  lemma {:induction false} FoldShape(mp: MsgPack, id: string, ops: seq<Op>)
    ensures Shaped(mp, id, Fold(mp, id, ops))
    ensures Fold(mp, id, ops).writer.closed <==> CloseOp in ops
    decreases |ops|
  {
    hide Shaped, Apply;
    if ops == [] {
      FreshShaped(mp, id);
    } else {
      var n := |ops| - 1;
      FoldShape(mp, id, ops[..n]);
      ApplyKeepsShape(mp, id, Fold(mp, id, ops[..n]), ops[n]);
      assert ops == ops[..n] + [ops[n]];
    }
  }

  lemma FreshShaped(mp: MsgPack, id: string)
    ensures Shaped(mp, id, Stream(FRESH, []))
  {}

  /** Once closed, no operation adds a message to the wire. */
  lemma {:induction false} ClosedForGood(mp: MsgPack, id: string, ops: seq<Op>, more: seq<Op>)
    requires CloseOp in ops
    ensures Fold(mp, id, ops + more) == Fold(mp, id, ops)
    decreases |more|
  {
    if more == [] {
      assert ops + more == ops;
    } else {
      var n := |more| - 1;
      ClosedForGood(mp, id, ops, more[..n]);
      FoldShape(mp, id, ops);
      FoldOne(mp, id, ops + more[..n], more[n]);
      assert (ops + more[..n]) + [more[n]] == ops + more;
    }
  }

  // ---------------------------------------------------------------- numbering

  lemma NextOfModulo(n: nat)
    ensures Next(n % TWO_TO_THE_64) == (n + 1) % TWO_TO_THE_64
  {}

  /** Every frame these operations can produce is within the 64 MiB cap. */
  ghost predicate OpsWithinCap(mp: MsgPack, id: string, ops: seq<Op>)
  {
    && (forall n: nat, i {:trigger StreamChunk(id, n, ops[i].data, false)} ::
          n < TWO_TO_THE_64 && 0 <= i < |ops| && ops[i].WriteOp? ==> Accepts(mp, StreamChunk(id, n, ops[i].data, false)))
    && (forall n: nat :: n < TWO_TO_THE_64 ==> Accepts(mp, StreamChunk(id, n, [], true)))
  }

  lemma OpAccepted(mp: MsgPack, id: string, ops: seq<Op>, i: nat, w: Writer)
    requires OpsWithinCap(mp, id, ops) && i < |ops| && w.seqNo < TWO_TO_THE_64
    ensures match ops[i]
            case WriteOp(data) => Accepts(mp, ChunkMessage(id, w, data))
            case CloseOp => Accepts(mp, EndMessage(id, w))
  {
    if ops[i].WriteOp? {
      assert Accepts(mp, StreamChunk(id, w.seqNo, ops[i].data, false));
    }
  }

  /** Within the cap the k-th message on the wire is numbered k (in 64 bits); so the end marker,
      which is there once the writer is closed, carries the number of chunks before it. */
  lemma {:induction false} Numbering(mp: MsgPack, id: string, ops: seq<Op>)
    requires OpsWithinCap(mp, id, ops)
    ensures var s := Fold(mp, id, ops);
            && (forall k :: 0 <= k < |s.sent| ==>
                  s.sent[k].StreamChunk? && s.sent[k].seqNo == k % TWO_TO_THE_64)
            && (s.writer.closed <==> Ended(s.sent))
            && (!s.writer.closed ==> s.writer.seqNo == |s.sent| % TWO_TO_THE_64)
    decreases |ops|
  {
    if ops != [] {
      var n := |ops| - 1;
      assert forall i :: 0 <= i < n ==> ops[..n][i] == ops[i];
      Numbering(mp, id, ops[..n]);
      FoldShape(mp, id, ops[..n]);
      var s := Fold(mp, id, ops[..n]);
      NextOfModulo(|s.sent|);
      OpAccepted(mp, id, ops, n, s.writer);
    }
  }

  /** With refused frames the numbers have gaps but still increase, for as long as the counter
      does not wrap. */
  lemma {:induction false} NumbersIncrease(mp: MsgPack, id: string, ops: seq<Op>)
    requires |ops| <= TWO_TO_THE_64
    ensures var s := Fold(mp, id, ops);
            && (forall k :: 0 <= k < |s.sent| ==> s.sent[k].StreamChunk?)
            && (forall j, k :: 0 <= j < k < |s.sent| ==> s.sent[j].seqNo < s.sent[k].seqNo)
            && (|ops| < TWO_TO_THE_64 && !s.writer.closed ==> s.writer.seqNo == |ops|)
            && (|ops| < TWO_TO_THE_64 && !s.writer.closed ==>
                  forall k :: 0 <= k < |s.sent| ==> s.sent[k].seqNo < |ops|)
    decreases |ops|
  {
    if ops != [] {
      var n := |ops| - 1;
      NumbersIncrease(mp, id, ops[..n]);
      var s, s' := Fold(mp, id, ops[..n]), Fold(mp, id, ops);
      if s'.sent != s.sent {
        assert !s.writer.closed && s'.sent[..|s.sent|] == s.sent && |s'.sent| == |s.sent| + 1;
        assert s'.sent[|s.sent|].seqNo == s.writer.seqNo;
      }
    }
  }

  /** The frame an operation asks for when it is the n-th on an open writer. */
  function FrameOf(id: string, op: Op, n: nat): Message
  {
    match op
    case WriteOp(data) => ChunkMessage(id, Writer(n % TWO_TO_THE_64, false), data)
    case CloseOp => EndMessage(id, Writer(n % TWO_TO_THE_64, false))
  }

  /** How many of these operations ask for a frame that is refused. */
  function Refusals(mp: MsgPack, id: string, ops: seq<Op>): (r: nat)
    ensures r <= |ops|
  {
    if ops == [] then 0 else
    var n := |ops| - 1;
    Refusals(mp, id, ops[..n]) + (if Accepts(mp, FrameOf(id, ops[n], n)) then 0 else 1)
  }

  /** The documented numbering: the k-th message on the wire carries number k (in 64 bits). */
  predicate Contiguous(ms: seq<Message>)
  {
    forall k :: 0 <= k < |ms| ==> ms[k].StreamChunk? && ms[k].seqNo == k % TWO_TO_THE_64
  }

  /** A frame that is accepted comes after no refused one, or after so many that the counter is
      where it would be without them. */
  predicate RefusalsDoNotShow(mp: MsgPack, id: string, ops: seq<Op>)
  {
    forall j :: 0 <= j < |ops| && CloseOp !in ops[..j] && Accepts(mp, FrameOf(id, ops[j], j)) ==>
      Refusals(mp, id, ops[..j]) % TWO_TO_THE_64 == 0
  }

  lemma {:induction false} OpenState(mp: MsgPack, id: string, ops: seq<Op>)
    requires CloseOp !in ops
    ensures var s := Fold(mp, id, ops);
            s.writer == Writer(|ops| % TWO_TO_THE_64, false) && |s.sent| == |ops| - Refusals(mp, id, ops)
    decreases |ops|
  {
    hide Accepts;
    if ops != [] {
      var n := |ops| - 1;
      OpenState(mp, id, ops[..n]);
      NextOfModulo(n);
      assert ops[n] in ops;
    }
  }

  lemma SameResidue(n: nat, r: nat)
    requires r <= n
    ensures n % TWO_TO_THE_64 == (n - r) % TWO_TO_THE_64 <==> r % TWO_TO_THE_64 == 0
  {}

  lemma ConditionStep(mp: MsgPack, id: string, ops: seq<Op>)
    requires ops != []
    ensures var n := |ops| - 1;
            RefusalsDoNotShow(mp, id, ops) <==>
            RefusalsDoNotShow(mp, id, ops[..n]) &&
            (CloseOp !in ops[..n] && Accepts(mp, FrameOf(id, ops[n], n)) ==> Refusals(mp, id, ops[..n]) % TWO_TO_THE_64 == 0)
  {
    hide Accepts, Refusals, FrameOf;
    var n := |ops| - 1;
    assert forall j :: 0 <= j < n ==> ops[..n][..j] == ops[..j] && ops[..n][j] == ops[j];
  }

  lemma ContiguousStep(ms: seq<Message>, m: Message)
    ensures Contiguous(ms + [m]) <==> Contiguous(ms) && m.StreamChunk? && m.seqNo == |ms| % TWO_TO_THE_64
  {
    assert forall k :: 0 <= k < |ms| ==> (ms + [m])[k] == ms[k];
    assert (ms + [m])[|ms|] == m;
  }

  lemma OpenStep(mp: MsgPack, id: string, s: Stream, op: Op, n: nat)
    requires !s.writer.closed && s.writer.seqNo == n % TWO_TO_THE_64
    ensures Apply(mp, id, s, op).sent == s.sent + Offered(mp, FrameOf(id, op, n))
  {}

  /** Exactly when the numbers on the wire are 0, 1, 2 and so on. */
  lemma {:induction false} NumberingExactly(mp: MsgPack, id: string, ops: seq<Op>)
    ensures Contiguous(Fold(mp, id, ops).sent) <==> RefusalsDoNotShow(mp, id, ops)
    decreases |ops|
  {
    hide Accepts, Refusals, RefusalsDoNotShow, Contiguous, Apply;
    if ops == [] {
      NothingNumbered(mp, id);
    } else {
      var n := |ops| - 1;
      var before := ops[..n];
      NumberingExactly(mp, id, before);
      ConditionStep(mp, id, ops);
      FoldShape(mp, id, before);
      var s, m := Fold(mp, id, before), FrameOf(id, ops[n], n);
      if CloseOp in before {
        ClosedIsClosed(mp, id, s, ops[n]);
      } else {
        OpenState(mp, id, before);
        OpenStep(mp, id, s, ops[n], n);
        SameResidue(n, Refusals(mp, id, before));
        ContiguousStep(s.sent, m);
        assert s.sent + [] == s.sent;
      }
    }
  }

  lemma NothingNumbered(mp: MsgPack, id: string)
    ensures Contiguous([]) && RefusalsDoNotShow(mp, id, [])
  {}

  lemma ClosedIsClosed(mp: MsgPack, id: string, s: Stream, op: Op)
    requires s.writer.closed
    ensures Apply(mp, id, s, op) == s
  {}

  /** A frame refused and a later one, up to the close, accepted. */
  predicate RefusalBeforeFrame(mp: MsgPack, id: string, ops: seq<Op>)
  {
    exists i, j :: 0 <= i < j < |ops| && CloseOp !in ops[..j] &&
      !Accepts(mp, FrameOf(id, ops[i], i)) && Accepts(mp, FrameOf(id, ops[j], j))
  }

  /** As long as the counter does not wrap: the numbering has a gap exactly if some frame is
      refused and a later one is accepted. */
  lemma GapsExactly(mp: MsgPack, id: string, ops: seq<Op>)
    requires |ops| <= TWO_TO_THE_64
    ensures Contiguous(Fold(mp, id, ops).sent) <==> !RefusalBeforeFrame(mp, id, ops)
  {
    hide Accepts, Fold, Refusals, FrameOf;
    NumberingExactly(mp, id, ops);
    forall j | 0 <= j < |ops|
      ensures Refusals(mp, id, ops[..j]) % TWO_TO_THE_64 == 0 <==>
              forall i :: 0 <= i < j ==> Accepts(mp, FrameOf(id, ops[i], i))
    {
      NoRefusals(mp, id, ops[..j]);
      assert forall i :: 0 <= i < j ==> ops[..j][i] == ops[i];
    }
  }

  lemma {:induction false} NoRefusals(mp: MsgPack, id: string, ops: seq<Op>)
    ensures Refusals(mp, id, ops) == 0 <==> forall i :: 0 <= i < |ops| ==> Accepts(mp, FrameOf(id, ops[i], i))
    decreases |ops|
  {
    if ops != [] {
      var n := |ops| - 1;
      NoRefusals(mp, id, ops[..n]);
      assert forall i :: 0 <= i < n ==> ops[..n][i] == ops[i];
    }
  }

  /** A chunk that is too large, then one that is not: the first message is numbered 1. */
  lemma GapExample(mp: MsgPack, id: string, large: Bytes, small: Bytes)
    requires !Accepts(mp, StreamChunk(id, 0, large, false)) && Accepts(mp, StreamChunk(id, 1, small, false))
    ensures Fold(mp, id, [WriteOp(large), WriteOp(small)]).sent == [StreamChunk(id, 1, small, false)]
    ensures !Contiguous(Fold(mp, id, [WriteOp(large), WriteOp(small)]).sent)
  {
    hide Accepts;
    FoldOne(mp, id, [], WriteOp(large));
    FoldOne(mp, id, [WriteOp(large)], WriteOp(small));
    assert [] + [WriteOp(large)] == [WriteOp(large)];
    assert [WriteOp(large)] + [WriteOp(small)] == [WriteOp(large), WriteOp(small)];
    assert Fold(mp, id, [WriteOp(large)]) == Stream(Writer(1, false), []);
    assert [StreamChunk(id, 1, small, false)][0].seqNo != 0;
  }

  // ---------------------------------------------------------------- interleavings

  /** A message on the wire and the goroutine that wrote it. */
  datatype Entry = Entry(writer: nat, message: Message)

  /** pcs: how far each goroutine is in its program; openPcs: how far it was when the writer was
      closed, and the same as pcs before that. */
  datatype Server = Server(pcs: seq<nat>, openPcs: seq<nat>, writer: Writer, log: seq<Entry>)

  function Tagged(t: nat, ms: seq<Message>): (es: seq<Entry>)
    ensures |es| == |ms| && forall i :: 0 <= i < |ms| ==> es[i] == Entry(t, ms[i])
  {
    seq(|ms|, i requires 0 <= i < |ms| => Entry(t, ms[i]))
  }

  predicate Enabled(programs: seq<seq<Op>>, s: Server, t: nat)
    requires |s.pcs| == |programs|
  {
    t < |programs| && s.pcs[t] < |programs[t]|
  }

  /** Goroutine t takes the lock and performs its next operation; a step by a goroutine that has
      none left changes nothing. */
  function Step(mp: MsgPack, id: string, programs: seq<seq<Op>>, s: Server, t: nat): (s': Server)
    requires |s.pcs| == |programs|
    ensures |s'.pcs| == |programs|
  {
    if !Enabled(programs, s, t) then s else
    var pcs := s.pcs[t := s.pcs[t] + 1];
    var r := Apply(mp, id, Stream(s.writer, []), programs[t][s.pcs[t]]);
    Server(pcs, if s.writer.closed then s.openPcs else pcs, r.writer, s.log + Tagged(t, r.sent))
  }

  /** The server after the goroutines took the lock in the given order. */
  function Run(mp: MsgPack, id: string, programs: seq<seq<Op>>, schedule: seq<nat>): (s: Server)
    ensures |s.pcs| == |programs|
  {
    if schedule == [] then
      var zeros := seq(|programs|, i => 0);
      Server(zeros, zeros, FRESH, [])
    else
      var n := |schedule| - 1;
      Step(mp, id, programs, Run(mp, id, programs, schedule[..n]), schedule[n])
  }

  /** The operations in the order they took the lock. */
  function History(mp: MsgPack, id: string, programs: seq<seq<Op>>, schedule: seq<nat>): seq<Op>
  {
    if schedule == [] then [] else
    var n := |schedule| - 1;
    var s := Run(mp, id, programs, schedule[..n]);
    History(mp, id, programs, schedule[..n]) +
    (if Enabled(programs, s, schedule[n]) then [programs[schedule[n]][s.pcs[schedule[n]]]] else [])
  }

  function Turns(schedule: seq<nat>, t: nat): nat
  {
    if schedule == [] then 0 else
    var n := |schedule| - 1;
    Turns(schedule[..n], t) + (if schedule[n] == t then 1 else 0)
  }

  /** Every turn a goroutine gets takes it one operation further, until it has none left. */
  lemma {:induction false} TurnsAreTaken(mp: MsgPack, id: string, programs: seq<seq<Op>>, schedule: seq<nat>, t: nat)
    requires t < |programs|
    ensures Run(mp, id, programs, schedule).pcs[t] ==
              if Turns(schedule, t) < |programs[t]| then Turns(schedule, t) else |programs[t]|
    decreases |schedule|
  {
    hide Apply;
    if schedule != [] {
      TurnsAreTaken(mp, id, programs, schedule[..|schedule| - 1], t);
    }
  }

  function MessagesOf(log: seq<Entry>): (ms: seq<Message>)
    ensures |ms| == |log| && forall i :: 0 <= i < |log| ==> ms[i] == log[i].message
  {
    seq(|log|, i requires 0 <= i < |log| => log[i].message)
  }

  lemma ApplyFrom(mp: MsgPack, id: string, s: Stream, op: Op)
    ensures Apply(mp, id, s, op) ==
              var r := Apply(mp, id, Stream(s.writer, []), op);
              Stream(r.writer, s.sent + r.sent)
  {
    assert s.sent + [] == s.sent;
    assert forall ms: seq<Message> :: s.sent + ([] + ms) == s.sent + ms;
  }

  /** Concurrent goroutines are indistinguishable from one that performs the operations in lock
      order: everything proved of one writer holds of every interleaving. */
  lemma {:induction false} Linearized(mp: MsgPack, id: string, programs: seq<seq<Op>>, schedule: seq<nat>)
    ensures var s := Run(mp, id, programs, schedule);
            Stream(s.writer, MessagesOf(s.log)) == Fold(mp, id, History(mp, id, programs, schedule))
    decreases |schedule|
  {
    if schedule != [] {
      hide Apply;
      var n := |schedule| - 1;
      Linearized(mp, id, programs, schedule[..n]);
      var s, t := Run(mp, id, programs, schedule[..n]), schedule[n];
      var h := History(mp, id, programs, schedule[..n]);
      if Enabled(programs, s, t) {
        var op := programs[t][s.pcs[t]];
        FoldOne(mp, id, h, op);
        ApplyFrom(mp, id, Fold(mp, id, h), op);
        var r := Apply(mp, id, Stream(s.writer, []), op);
        assert MessagesOf(s.log + Tagged(t, r.sent)) == MessagesOf(s.log) + r.sent;
      } else {
        assert h + [] == h;
      }
    }
  }

  // ---------------------------------------------------------------- every writer keeps its order

  function WritesOf(ops: seq<Op>): seq<Bytes>
  {
    if ops == [] then [] else
    var n := |ops| - 1;
    WritesOf(ops[..n]) + (if ops[n].WriteOp? then [ops[n].data] else [])
  }

  /** The chunks goroutine t has on the wire, in wire order. */
  function Project(log: seq<Entry>, t: nat): seq<Bytes>
  {
    if log == [] then [] else
    var n := |log| - 1;
    var m := log[n].message;
    Project(log[..n], t) + (if log[n].writer == t && m.StreamChunk? && !m.final then [m.data] else [])
  }

  /** Every frame these programs can produce is within the 64 MiB cap. */
  ghost predicate WithinCap(mp: MsgPack, id: string, programs: seq<seq<Op>>)
  {
    && (forall t :: 0 <= t < |programs| ==> OpsWithinCap(mp, id, programs[t]))
    && (forall n: nat :: n < TWO_TO_THE_64 ==> Accepts(mp, StreamChunk(id, n, [], true)))
  }

  ghost predicate InProgramOrder(programs: seq<seq<Op>>, s: Server)
  {
    && |s.openPcs| == |s.pcs| == |programs|
    && (!s.writer.closed ==> s.openPcs == s.pcs)
    && forall t {:trigger s.openPcs[t]} :: 0 <= t < |programs| ==>
         s.openPcs[t] <= s.pcs[t] <= |programs[t]| &&
         Project(s.log, t) == WritesOf(programs[t][..s.openPcs[t]])
  }

  /** The wire holds, of each goroutine, exactly the writes it performed before the close, in the
      order of its program: the lock order is an interleaving of the programs. */
  lemma {:induction false} ProgramOrder(mp: MsgPack, id: string, programs: seq<seq<Op>>, schedule: seq<nat>)
    requires WithinCap(mp, id, programs)
    ensures InProgramOrder(programs, Run(mp, id, programs, schedule))
    decreases |schedule|
  {
    if schedule == [] {
      forall t | 0 <= t < |programs|
        ensures Project([], t) == WritesOf(programs[t][..0])
      {}
    } else {
      var n := |schedule| - 1;
      ProgramOrder(mp, id, programs, schedule[..n]);
      Linearized(mp, id, programs, schedule[..n]);
      FoldShape(mp, id, History(mp, id, programs, schedule[..n]));
      var s, t := Run(mp, id, programs, schedule[..n]), schedule[n];
      if Enabled(programs, s, t) {
        StepKeepsOrder(mp, id, programs, s, t);
      }
    }
  }

  lemma StepKeepsOrder(mp: MsgPack, id: string, programs: seq<seq<Op>>, s: Server, t: nat)
    requires WithinCap(mp, id, programs) && s.writer.seqNo < TWO_TO_THE_64
    requires InProgramOrder(programs, s) && Enabled(programs, s, t)
    ensures InProgramOrder(programs, Step(mp, id, programs, s, t))
  {
    var s' := Step(mp, id, programs, s, t);
    var ops, pc := programs[t], s.pcs[t];
    if s.writer.closed {
      assert s.log + Tagged(t, []) == s.log;
    } else {
      OpAccepted(mp, id, ops, pc, s.writer);
      var m := if ops[pc].WriteOp? then ChunkMessage(id, s.writer, ops[pc].data) else EndMessage(id, s.writer);
      assert s'.log == s.log + [Entry(t, m)];
      WritesOne(ops, pc);
    }
    forall u | 0 <= u < |programs|
      ensures s'.openPcs[u] <= s'.pcs[u] <= |programs[u]|
      ensures Project(s'.log, u) == WritesOf(programs[u][..s'.openPcs[u]])
    {
      assert s.openPcs[u] <= s.pcs[u];
      if !s.writer.closed {
        ProjectOne(s.log, s'.log[|s.log|], u);
      }
    }
  }

  lemma ProjectOne(log: seq<Entry>, e: Entry, u: nat)
    ensures Project(log + [e], u) == Project(log, u) +
              (if e.writer == u && e.message.StreamChunk? && !e.message.final then [e.message.data] else [])
  {
    assert (log + [e])[..|log|] == log;
  }

  lemma WritesOne(ops: seq<Op>, pc: nat)
    requires pc < |ops|
    ensures WritesOf(ops[..pc + 1]) == WritesOf(ops[..pc]) + (if ops[pc].WriteOp? then [ops[pc].data] else [])
  {
    assert ops[..pc + 1][..pc] == ops[..pc];
  }
}
