/** From concurrent writers to a reader's values: the writers' messages become bytes, the
    transport carries them (possibly only a prefix of them) cut into arbitrary chunks, and the
    clients reassemble them. */
module EndToEnd {
  import opened Frames
  import opened Messages
  import opened StreamWriters
  import opened FrameBuffers
  import opened Readers

  /** The chunks a list of stream messages carries, end marker aside. */
  function Datas(ms: seq<Message>): seq<Bytes>
  {
    if ms == [] then [] else
    (if ms[0].StreamChunk? && !ms[0].final then [ms[0].data] else []) + Datas(ms[1..])
  }

  lemma {:induction false} MeaningOfStream(id: string, ms: seq<Message>)
    requires StreamShaped(id, ms)
    ensures Meaning(ms) == (Datas(ms), if Ended(ms) then EndMarker else CutOff)
    decreases |ms|
  {
    if ms != [] {
      var rest := ms[1..];
      if ms[0].final {
        assert rest == [] && Datas(ms) == [] + Datas(rest) == [];
      } else {
        MeaningOfStream(id, rest);
        assert Meaning(ms) == ([ms[0].data] + Meaning(rest).0, Meaning(rest).1);
        assert rest != [] ==> rest[|rest| - 1] == ms[|ms| - 1];
      }
    }
  }

  lemma {:induction false} DatasPrefix(ms: seq<Message>, k: nat)
    requires k <= |ms|
    ensures Datas(ms[..k]) <= Datas(ms)
    decreases k
  {
    if k > 0 {
      assert ms[..k][1..] == ms[1..][..k - 1];
      DatasPrefix(ms[1..], k - 1);
    }
  }

  /** What a transport that failed after n bytes carried: k whole messages and the start of
      another. */
  lemma WholeMessages(mp: MsgPack, ms: seq<Message>, n: nat) returns (k: nat, tail: Bytes)
    requires forall m <- ms :: Accepts(mp, m) && Fits(mp, m)
    requires n <= |Wire(mp, ms)|
    ensures k <= |ms| && (n == |Wire(mp, ms)| ==> k == |ms|)
    ensures AllWellFormed(ToFrames(mp, ms[..k])) && MidFrame(tail)
    ensures Wire(mp, ms)[..n] == EncodedAll(ToFrames(mp, ms[..k])) + tail
    ensures |Wire(mp, ms[..k])| <= n && (k < |ms| ==> n < |Wire(mp, ms[..k + 1])|)
  {
    hide PutUint32, Uint32, Encoded, ParseFrame, Narrow;
    var fs := ToFrames(mp, ms);
    WireIsEncoding(mp, ms);
    k, tail := PrefixOfEncoded(fs, n);
    assert ms[..k] + ms[k..] == ms;
    assert forall m <- ms[..k] :: m in ms;
    assert fs[..k] == ToFrames(mp, ms[..k]);
    WireIsEncoding(mp, ms[..k]);
    if k < |ms| {
      assert ms[..k + 1][..k] == ms[..k];
    }
  }

  lemma StreamDelivery(mp: MsgPack, id: string, ms: seq<Message>, n: nat, chunks: seq<Bytes>) returns (k: nat)
    requires mp.RoundTrips() && StreamShaped(id, ms)
    requires forall m <- ms :: Accepts(mp, m) && Fits(mp, m)
    requires n <= |Wire(mp, ms)| && Flatten(chunks) == Wire(mp, ms)[..n]
    ensures k <= |ms| && (n == |Wire(mp, ms)| ==> k == |ms|)
    ensures |Wire(mp, ms[..k])| <= n && (k < |ms| ==> n < |Wire(mp, ms[..k + 1])|)
    ensures JsCollect(mp, Js([], chunks, false)) == (Datas(ms[..k]), Done)
    ensures RustCollect(mp, Flatten(chunks)) == (if Ended(ms[..k]) then All(Datas(ms)) else Failed(Io))
    ensures Datas(ms[..k]) <= Datas(ms)
  {
    hide Wire, MidFrame, Accepts, Fits, RustCollect, JsCollect;
    var tail;
    k, tail := WholeMessages(mp, ms, n);
    var sent := ms[..k];
    assert StreamShaped(id, sent);
    assert forall m <- sent :: m in ms && m.StreamChunk?;
    assert [] + Flatten(chunks) == Flatten(chunks);
    JsDelivers(mp, sent, tail, [], chunks);
    RustDelivers(mp, sent, tail);
    MeaningOfStream(id, sent);
    DatasPrefix(ms, k);
    if Ended(sent) {
      assert ms[k - 1].final && sent == ms;
    }
  }

  /** For every interleaving of the goroutines, every point at which the transport may fail for
      good, and every cutting of what it carried: both clients see exactly the chunks of the
      first k messages, in lock order and once each, where k is the number of messages that came
      through whole; everything that was accepted came through if the transport did not fail.
      Only payloads of 4 GiB are excluded, whose length the server narrows. */
  lemma Delivery(mp: MsgPack, id: string, programs: seq<seq<Op>>, schedule: seq<nat>,
                 capacity: int, chunks: seq<Bytes>) returns (k: nat)
    requires mp.RoundTrips()
    requires forall m <- MessagesOf(Run(mp, id, programs, schedule).log) :: Fits(mp, m)
    requires Flatten(chunks) == Clip(capacity, Wire(mp, MessagesOf(Run(mp, id, programs, schedule).log)))
    ensures var ms := MessagesOf(Run(mp, id, programs, schedule).log);
            && k <= |ms|
            && (!Clips(capacity, Wire(mp, ms)) ==> k == |ms|)
            && |Wire(mp, ms[..k])| <= |Flatten(chunks)|
            && (k < |ms| ==> |Flatten(chunks)| < |Wire(mp, ms[..k + 1])|)
            && JsCollect(mp, Js([], chunks, false)) == (Datas(ms[..k]), Done)
            && RustCollect(mp, Flatten(chunks)) == (if Ended(ms[..k]) then All(Datas(ms)) else Failed(Io))
            && Datas(ms[..k]) <= Datas(ms)
  {
    hide Wire, Run, RustCollect, JsCollect, Datas, Accepts, Fits;
    var ms := MessagesOf(Run(mp, id, programs, schedule).log);
    Linearized(mp, id, programs, schedule);
    FoldShape(mp, id, History(mp, id, programs, schedule));
    k := StreamDelivery(mp, id, ms, |Flatten(chunks)|, chunks);
  }

  // ---------------------------------------------------------------- the values as a merge

  function Carries(m: Message): bool { m.StreamChunk? && !m.final }

  /** Whose chunk each value read is. */
  function Owners(log: seq<Entry>): seq<nat>
  {
    if log == [] then [] else
    var n := |log| - 1;
    Owners(log[..n]) + (if Carries(log[n].message) then [log[n].writer] else [])
  }

  /** The values of one owner, in order. */
  function Picked(values: seq<Bytes>, owners: seq<nat>, t: nat): seq<Bytes>
    requires |values| == |owners|
  {
    if values == [] then [] else
    var n := |values| - 1;
    Picked(values[..n], owners[..n], t) + (if owners[n] == t then [values[n]] else [])
  }

  /** Each value belongs to one of the goroutines, and those of each goroutine are what it wrote
      before the close, in its program's order. */
  ghost predicate IsMerge(values: seq<Bytes>, owners: seq<nat>, programs: seq<seq<Op>>, s: Server)
    requires |s.openPcs| == |programs| && forall t :: 0 <= t < |programs| ==> s.openPcs[t] <= |programs[t]|
  {
    && |owners| == |values|
    && (forall k :: 0 <= k < |owners| ==> owners[k] < |programs|)
    && forall t :: 0 <= t < |programs| ==> Picked(values, owners, t) == WritesOf(programs[t][..s.openPcs[t]])
  }

  lemma {:induction false} DatasOneMore(ms: seq<Message>, m: Message)
    ensures Datas(ms + [m]) == Datas(ms) + (if Carries(m) then [m.data] else [])
    decreases |ms|
  {
    if ms == [] {
      assert [m][1..] == [] && [] + [m] == [m];
    } else {
      DatasOneMore(ms[1..], m);
      assert (ms + [m])[1..] == ms[1..] + [m];
    }
  }

  lemma {:induction false} LogIsMerge(log: seq<Entry>, t: nat)
    ensures |Owners(log)| == |Datas(MessagesOf(log))|
    ensures Picked(Datas(MessagesOf(log)), Owners(log), t) == Project(log, t)
    decreases |log|
  {
    if log != [] {
      var n := |log| - 1;
      LogIsMerge(log[..n], t);
      assert MessagesOf(log) == MessagesOf(log[..n]) + [log[n].message];
      DatasOneMore(MessagesOf(log[..n]), log[n].message);
      var values, owners := Datas(MessagesOf(log[..n])), Owners(log[..n]);
      assert forall v: Bytes :: (values + [v])[..|values|] == values;
      assert (owners + [log[n].writer])[..|owners|] == owners;
      assert values + [] == values && owners + [] == owners;
    }
  }

  lemma {:induction false} OwnersKnown(mp: MsgPack, id: string, programs: seq<seq<Op>>, schedule: seq<nat>)
    ensures forall e <- Run(mp, id, programs, schedule).log :: e.writer < |programs|
    decreases |schedule|
  {
    hide Apply;
    if schedule != [] {
      OwnersKnown(mp, id, programs, schedule[..|schedule| - 1]);
    }
  }

  lemma {:induction false} OwnersInLog(log: seq<Entry>, bound: nat)
    requires forall e <- log :: e.writer < bound
    ensures forall k :: 0 <= k < |Owners(log)| ==> Owners(log)[k] < bound
    decreases |log|
  {
    if log != [] {
      var n := |log| - 1;
      OwnersInLog(log[..n], bound);
      assert log[n] in log;
    }
  }

  /** With one Close among them and every frame within the cap, the values a client reads are an
      interleaving of what the goroutines wrote before the close: each value has an owner, and the
      values of each owner are its writes, in its program's order. */
  lemma ReadersSeeEveryWriter(mp: MsgPack, id: string, programs: seq<seq<Op>>, schedule: seq<nat>, chunks: seq<Bytes>)
    returns (values: seq<Bytes>, owners: seq<nat>)
    requires mp.RoundTrips() && WithinCap(mp, id, programs)
    requires forall m <- MessagesOf(Run(mp, id, programs, schedule).log) :: Fits(mp, m)
    requires Flatten(chunks) == Wire(mp, MessagesOf(Run(mp, id, programs, schedule).log))
    requires Run(mp, id, programs, schedule).writer.closed
    ensures JsCollect(mp, Js([], chunks, false)) == (values, Done)
    ensures RustCollect(mp, Flatten(chunks)) == All(values)
    ensures InProgramOrder(programs, Run(mp, id, programs, schedule))
    ensures IsMerge(values, owners, programs, Run(mp, id, programs, schedule))
  {
    hide JsCollect, RustCollect, Run, Owners, Picked, Datas, Wire, Accepts, Fits, Project, WritesOf;
    var s := Run(mp, id, programs, schedule);
    var ms := MessagesOf(s.log);
    var k := Delivery(mp, id, programs, schedule, -1, chunks);
    assert ms[..k] == ms;
    ProgramOrder(mp, id, programs, schedule);
    Linearized(mp, id, programs, schedule);
    HistoryWithinCap(mp, id, programs, schedule);
    Numbering(mp, id, History(mp, id, programs, schedule));
    values, owners := Datas(ms), Owners(s.log);
    LogIsMerge(s.log, 0);
    OwnersKnown(mp, id, programs, schedule);
    OwnersInLog(s.log, |programs|);
    forall t | 0 <= t < |programs| ensures Picked(values, owners, t) == WritesOf(programs[t][..s.openPcs[t]]) {
      LogIsMerge(s.log, t);
      assert s.openPcs[t] <= s.pcs[t];
    }
  }

  lemma {:induction false} HistoryWithinCap(mp: MsgPack, id: string, programs: seq<seq<Op>>, schedule: seq<nat>)
    requires WithinCap(mp, id, programs)
    ensures OpsWithinCap(mp, id, History(mp, id, programs, schedule))
    decreases |schedule|
  {
    if schedule != [] {
      var n := |schedule| - 1;
      HistoryWithinCap(mp, id, programs, schedule[..n]);
    }
  }
}
