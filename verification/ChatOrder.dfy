/** What the sends still to come can do to a subscriber of the chat hub: put events in its queue out
    of the log's order, or lose them.  Both questions are about a moment of a run and every way in
    which the publishers that have started then may go on. */
module ChatOrder {
  import opened Options
  import opened ChatHub
  import opened ChatDelivery

  /** Publishers that have started send, and subscribers receive; nobody comes, goes or publishes. */
  predicate OnlySends(more: seq<Step>)
  {
    forall n :: 0 <= n < |more| ==> more[n].Deliver? || more[n].Receive?
  }

  lemma RunOn(steps: seq<Step>, more: seq<Step>)
    requires more != []
    ensures var n := |more| - 1;
            Run(steps + more) == Next(Run(steps + more[..n]), more[n])
  {
    hide Run, Next;
    var n := |more| - 1;
    assert steps + more == (steps + more[..n]) + [more[n]];
    RunOne(steps + more[..n], more[n]);
  }

  // ---------------------------------------------------------------- order

  /** Snapshot, received and queued events together are in the order of the room's log. */
  ghost predicate InLogOrder(w: World, sid: string)
  {
    sid in w.subs && sid in w.hub.channels &&
    Increasing(w.subs[sid].snapshot + Got(w.subs[sid], w.hub.channels[sid]))
  }

  ghost predicate GotInOrder(w: World, sid: string)
  {
    sid in w.subs && sid in w.hub.channels && Increasing(Got(w.subs[sid], w.hub.channels[sid]))
  }

  /** Unless the subscriber has left, at most one publisher has still to send to it, and that one
      published after everything the subscriber got. */
  ghost predicate OneNewestSender(w: World, sid: string)
    requires sid in w.subs && sid in w.hub.channels
  {
    w.subs[sid].left.None? ==>
      (forall p, q :: p in w.pubs && q in w.pubs && sid in w.pubs[p].targets && sid in w.pubs[q].targets ==> p == q) &&
      (forall p :: p in w.pubs && sid in w.pubs[p].targets ==>
         forall g <- Got(w.subs[sid], w.hub.channels[sid]) :: g.index < w.pubs[p].posted.index)
  }

  ghost predicate Settled(w: World, sid: string)
  {
    GotInOrder(w, sid) && OneNewestSender(w, sid)
  }

  /** A snapshot lies before everything that came through the channel. */
  lemma SnapshotFirst(steps: seq<Step>, sid: string)
    requires sid in Run(steps).subs
    ensures InLogOrder(Run(steps), sid) <==> GotInOrder(Run(steps), sid)
  {
    hide Run, Recent;
    ExactlyOneRoute(steps, sid);
    var w := Run(steps);
    var s := w.subs[sid];
    var got := Got(s, w.hub.channels[sid]);
    RecentFacts(Log(w, s.room), s.joined);
    if Increasing(got) {
      Concatenated(s.snapshot, got, s.joined);
    } else {
      var j, k :| 0 <= j < k < |got| && got[j].index >= got[k].index;
      var both := s.snapshot + got;
      assert both[|s.snapshot| + j] == got[j] && both[|s.snapshot| + k] == got[k];
    }
  }

  /** The subscriber got nothing new, and no publisher gained a target. */
  ghost predicate NothingNew(w: World, w': World, sid: string)
    requires sid in w.subs && sid in w.hub.channels
  {
    && sid in w'.subs && sid in w'.hub.channels
    && Got(w'.subs[sid], w'.hub.channels[sid]) == Got(w.subs[sid], w.hub.channels[sid])
    && w'.subs[sid].left == w.subs[sid].left
    && (forall p <- w'.pubs :: p in w.pubs && w'.pubs[p].posted == w.pubs[p].posted && w'.pubs[p].targets <= w.pubs[p].targets)
  }

  lemma NothingNewSettled(w: World, w': World, sid: string)
    requires Settled(w, sid) && NothingNew(w, w', sid)
    ensures Settled(w', sid)
  {
    hide Increasing, Got;
  }

  lemma ElsewhereNothingNew(w: World, step: Step, sid: string)
    requires sid in w.subs && sid in w.hub.channels
    requires step.Receive? || (step.Deliver? && (step.sid != sid || !w.hub.channels[sid].open))
    ensures NothingNew(w, Next(w, step), sid)
  {
    hide LastOf;
    if step.Receive? && step.sid == sid && w.hub.channels[sid].queue != [] {
      var s, c := w.subs[sid], w.hub.channels[sid];
      assert s.received + [c.queue[0]] + c.queue[1..] == s.received + c.queue;
    }
  }

  lemma DeliverySettled(w: World, pid: nat, sid: string)
    requires Settled(w, sid) && w.subs[sid].left.None? && w.hub.channels[sid].open
    requires pid in w.pubs && sid in w.pubs[pid].targets
    ensures Settled(DoDeliver(w, pid, sid), sid)
  {
    var w' := DoDeliver(w, pid, sid);
    var s, c, p := w.subs[sid], w.hub.channels[sid], w.pubs[pid];
    assert forall q <- w'.pubs :: sid !in w'.pubs[q].targets;
    if |c.queue| < QUEUE_LIMIT {
      var got := Got(s, c);
      assert Got(w'.subs[sid], w'.hub.channels[sid]) == got + [p.posted];
      assert forall j :: 0 <= j < |got| ==> got[j] in got;
    }
  }

  lemma StepSettled(w: World, step: Step, sid: string)
    requires Inv(w) && Settled(w, sid) && (step.Deliver? || step.Receive?)
    ensures Settled(Next(w, step), sid)
  {
    hide DoDeliver, DoReceive, Increasing, OneNewestSender, PendingOk, PubIn, RoomIn;
    assert SubIn(w, sid);
    OpenExactly(w, sid);
    if step.Deliver? && step.sid == sid && w.hub.channels[sid].open {
      if step.pid in w.pubs && sid in w.pubs[step.pid].targets {
        DeliverySettled(w, step.pid, sid);
      }
    } else {
      ElsewhereNothingNew(w, step, sid);
      NothingNewSettled(w, Next(w, step), sid);
    }
  }

  lemma {:induction false} StaysSettled(steps: seq<Step>, more: seq<Step>, sid: string)
    requires Settled(Run(steps), sid) && OnlySends(more)
    ensures Settled(Run(steps + more), sid)
    decreases |more|
  {
    hide Run, Next, Settled, Inv;
    if more == [] {
      assert steps + more == steps;
    } else {
      var n := |more| - 1;
      StaysSettled(steps, more[..n], sid);
      RunOn(steps, more);
      RunKeeps(steps + more[..n]);
      StepSettled(Run(steps + more[..n]), more[n], sid);
    }
  }

  /** The subscriber empties its queue. */
  lemma {:induction false} ReceiveAll(steps: seq<Step>, sid: string) returns (more: seq<Step>)
    requires sid in Run(steps).subs && sid in Run(steps).hub.channels
    ensures OnlySends(more)
    ensures var w, w' := Run(steps), Run(steps + more);
            && w'.pubs == w.pubs && sid in w'.subs && sid in w'.hub.channels
            && w'.hub.channels[sid] == Channel([], w.hub.channels[sid].open)
            && w'.subs[sid].received == Got(w.subs[sid], w.hub.channels[sid])
    decreases |Run(steps).hub.channels[sid].queue|
  {
    hide Run;
    var w := Run(steps);
    var s, c := w.subs[sid], w.hub.channels[sid];
    if c.queue == [] {
      more := [];
      assert steps + [] == steps && s.received + [] == s.received;
    } else {
      RunOne(steps, Receive(sid));
      var rest := ReceiveAll(steps + [Receive(sid)], sid);
      more := [Receive(sid)] + rest;
      assert steps + more == (steps + [Receive(sid)]) + rest;
      assert (s.received + [c.queue[0]]) + c.queue[1..] == s.received + c.queue;
    }
  }

  lemma DifferentPositions(w: World, p: nat, q: nat, sid: string)
    requires p in w.pubs && q in w.pubs && p != q && sid in w.pubs[p].targets && sid in w.pubs[q].targets
    requires PubIn(w, p) && PubIn(w, q)
    ensures w.pubs[p].posted.index != w.pubs[q].posted.index
  {}

  /** Two publishers still to send to a subscriber that is there: they can overtake each other. */
  lemma TwoSendersReorder(steps: seq<Step>, p: nat, q: nat, sid: string) returns (more: seq<Step>)
    requires var w := Run(steps);
             && sid in w.subs && w.subs[sid].left.None?
             && p in w.pubs && q in w.pubs && sid in w.pubs[p].targets && sid in w.pubs[q].targets
             && w.pubs[p].posted.index < w.pubs[q].posted.index
    ensures OnlySends(more) && !GotInOrder(Run(steps + more), sid)
  {
    hide Run, Next, SubIn, PubIn, RoomIn, PendingOk, Increasing;
    RunKeeps(steps);
    assert SubIn(Run(steps), sid);
    OpenExactly(Run(steps), sid);
    var received := ReceiveAll(steps, sid);
    OverlapReorders(steps + received, p, q, sid);
    more := received + [Deliver(q, sid)] + [Deliver(p, sid)];
    assert steps + more == (steps + received) + [Deliver(q, sid)] + [Deliver(p, sid)];
  }

  /** One publisher that is late already. */
  lemma LateSenderReorders(steps: seq<Step>, p: nat, g: Posted, sid: string) returns (more: seq<Step>)
    requires var w := Run(steps);
             && sid in w.subs && sid in w.hub.channels && w.subs[sid].left.None?
             && p in w.pubs && sid in w.pubs[p].targets
             && g in Got(w.subs[sid], w.hub.channels[sid]) && g.index >= w.pubs[p].posted.index
    ensures OnlySends(more) && !GotInOrder(Run(steps + more), sid)
  {
    hide Run, Next, SubIn, PubIn, RoomIn, PendingOk;
    RunKeeps(steps);
    var w := Run(steps);
    assert SubIn(w, sid);
    OpenExactly(w, sid);
    var received := ReceiveAll(steps, sid);
    more := received + [Deliver(p, sid)];
    assert steps + more == (steps + received) + [Deliver(p, sid)];
    RunOne(steps + received, Deliver(p, sid));
    SendQueues(Run(steps + received), p, sid);
    var got := Got(w.subs[sid], w.hub.channels[sid]);
    var w' := Run(steps + more);
    assert Got(w'.subs[sid], w'.hub.channels[sid]) == got + [w.pubs[p].posted];
    var j :| 0 <= j < |got| && got[j] == g;
    assert (got + [w.pubs[p].posted])[j] == g && (got + [w.pubs[p].posted])[|got|] == w.pubs[p].posted;
  }

  ghost predicate StaysInLogOrder(steps: seq<Step>, sid: string)
  {
    forall more :: OnlySends(more) ==> InLogOrder(Run(steps + more), sid)
  }

  /** At any moment of any run: what a subscriber sees stays in the order of the room's log,
      however the sends under way go on, exactly if it is in order now and, unless the subscriber
      has left, at most one publisher has still to send to it, one that published after everything
      the subscriber got. */
  lemma LogOrderExactly(steps: seq<Step>, sid: string)
    requires sid in Run(steps).subs
    ensures StaysInLogOrder(steps, sid) <==> Settled(Run(steps), sid)
  {
    hide Run, Next, InLogOrder, GotInOrder, OneNewestSender, Increasing, SubIn, RoomIn, PubIn, PendingOk;
    if Settled(Run(steps), sid) {
      forall more | OnlySends(more) ensures InLogOrder(Run(steps + more), sid) {
        StaysSettled(steps, more, sid);
        KnownAfter(steps + more, sid);
        SnapshotFirst(steps + more, sid);
      }
    } else {
      var more := Disorder(steps, sid);
      NotInLogOrder(steps + more, sid);
    }
  }

  lemma KnownAfter(steps: seq<Step>, sid: string)
    requires GotInOrder(Run(steps), sid)
    ensures sid in Run(steps).subs
  {}

  lemma NotInLogOrder(steps: seq<Step>, sid: string)
    requires !GotInOrder(Run(steps), sid)
    ensures !InLogOrder(Run(steps), sid)
  {
    hide Run, Increasing;
    if sid in Run(steps).subs {
      SnapshotFirst(steps, sid);
    }
  }

  lemma Disorder(steps: seq<Step>, sid: string) returns (more: seq<Step>)
    requires sid in Run(steps).subs && !Settled(Run(steps), sid)
    ensures OnlySends(more) && !GotInOrder(Run(steps + more), sid)
  {
    hide Run, Next, Increasing, SubIn, RoomIn, PubIn, PendingOk, Got;
    var w := Run(steps);
    RunKeeps(steps);
    assert SubIn(w, sid);
    OpenExactly(w, sid);
    if !GotInOrder(w, sid) {
      more := [];
      assert steps + more == steps;
    } else if p, q :| p in w.pubs && q in w.pubs && sid in w.pubs[p].targets && sid in w.pubs[q].targets && p != q {
      DifferentPositions(w, p, q, sid);
      if w.pubs[p].posted.index < w.pubs[q].posted.index {
        more := TwoSendersReorder(steps, p, q, sid);
      } else {
        more := TwoSendersReorder(steps, q, p, sid);
      }
    } else {
      var p :| p in w.pubs && sid in w.pubs[p].targets &&
        exists g :: g in Got(w.subs[sid], w.hub.channels[sid]) && g.index >= w.pubs[p].posted.index;
      var g :| g in Got(w.subs[sid], w.hub.channels[sid]) && g.index >= w.pubs[p].posted.index;
      more := LateSenderReorders(steps, p, g, sid);
    }
  }

  // ---------------------------------------------------------------- loss

  ghost predicate IsLost(w: World, sid: string, i: nat)
  {
    sid in w.subs && i in w.subs[sid].fate && w.subs[sid].fate[i] == Lost
  }

  /** The event is lost, or its publisher has still to send it to this subscriber and to one that
      has left. */
  ghost predicate AtRisk(w: World, sid: string, i: nat)
    requires sid in w.subs && i in w.subs[sid].fate
  {
    var f := w.subs[sid].fate[i];
    f == Lost ||
    (f.Pending? && f.pid in w.pubs && exists x :: x in w.pubs[f.pid].targets && x in w.subs && w.subs[x].left.Some?)
  }

  ghost predicate Safe(w: World, sid: string, i: nat)
  {
    sid in w.subs && i in w.subs[sid].fate && !AtRisk(w, sid, i)
  }

  lemma PanicStaysSafe(w: World, pid: nat, x: string, sid: string, i: nat)
    requires Safe(w, sid, i) && PendingOk(sid, w.subs[sid], w.pubs)
    requires pid in w.pubs && PubIn(w, pid) && x in w.pubs[pid].targets && x in w.hub.channels && x in w.subs
    requires !w.hub.channels[x].open && w.subs[x].left.Some?
    ensures Safe(DoDeliver(w, pid, x), sid, i)
  {
    hide PubIn;
    ClosedChannel(w.hub.channels[x], w.pubs[pid].posted);
    hide Offered;
    if sid in w.pubs[pid].targets {
      TargetKnown(w, pid, sid);
    }
    hide PendingOk, AtRisk;
    var w' := DoDeliver(w, pid, x);
    var f := w.subs[sid].fate[i];
    assert w'.subs[sid].fate[i] == f by {
      StillPending(w, sid, i, pid, x);
    }
    StillPending(w, sid, i, pid, x);
    RiskOnlyShrinks(w, w', sid, i);
  }

  /** The publisher that panics is not the one of this event. */
  lemma StillPending(w: World, sid: string, i: nat, pid: nat, x: string)
    requires Safe(w, sid, i) && pid in w.pubs && x in w.pubs[pid].targets && x in w.subs && w.subs[x].left.Some?
    ensures w.subs[sid].fate[i] != Pending(pid)
  {}

  lemma RiskOnlyShrinks(w: World, w': World, sid: string, i: nat)
    requires Safe(w, sid, i)
    requires sid in w'.subs && i in w'.subs[sid].fate
    requires w'.subs[sid].fate[i] == w.subs[sid].fate[i] || w'.subs[sid].fate[i] == Delivered || w'.subs[sid].fate[i].Dropped?
    requires forall q <- w'.pubs :: q in w.pubs && w'.pubs[q].targets <= w.pubs[q].targets
    requires forall y <- w'.subs :: y in w.subs && w'.subs[y].left == w.subs[y].left
    ensures Safe(w', sid, i)
  {}

  lemma SendStaysSafe(w: World, pid: nat, x: string, sid: string, i: nat)
    requires Safe(w, sid, i)
    requires pid in w.pubs && x in w.pubs[pid].targets && x in w.hub.channels && x in w.subs
    requires w.hub.channels[x].open
    ensures Safe(DoDeliver(w, pid, x), sid, i)
  {
    hide AtRisk;
    RiskOnlyShrinks(w, DoDeliver(w, pid, x), sid, i);
  }

  lemma DeliverStaysSafe(w: World, pid: nat, x: string, sid: string, i: nat)
    requires Safe(w, sid, i) && PendingOk(sid, w.subs[sid], w.pubs)
    requires pid in w.pubs && PubIn(w, pid) && x in w.pubs[pid].targets && x in w.hub.channels && x in w.subs && SubIn(w, x)
    ensures Safe(DoDeliver(w, pid, x), sid, i)
  {
    hide SubIn, PubIn, PendingOk, AtRisk, DoDeliver;
    OpenExactly(w, x);
    if w.hub.channels[x].open {
      SendStaysSafe(w, pid, x, sid, i);
    } else {
      PanicStaysSafe(w, pid, x, sid, i);
    }
  }

  lemma StepStaysSafe(w: World, step: Step, sid: string, i: nat)
    requires Inv(w) && Safe(w, sid, i) && (step.Deliver? || step.Receive?)
    ensures Safe(Next(w, step), sid, i)
  {
    hide SubIn, PubIn, RoomIn, PendingOk, DoDeliver;
    if step.Deliver? && step.pid in w.pubs && step.sid in w.pubs[step.pid].targets && step.sid in w.hub.channels && step.sid in w.subs {
      DeliverStaysSafe(w, step.pid, step.sid, sid, i);
    }
  }

  lemma {:induction false} StaysSafe(steps: seq<Step>, more: seq<Step>, sid: string, i: nat)
    requires Safe(Run(steps), sid, i) && OnlySends(more)
    ensures Safe(Run(steps + more), sid, i)
    decreases |more|
  {
    hide Run, Next, Safe, Inv;
    if more == [] {
      assert steps + more == steps;
    } else {
      var n := |more| - 1;
      StaysSafe(steps, more[..n], sid, i);
      RunOn(steps, more);
      RunKeeps(steps + more[..n]);
      StepStaysSafe(Run(steps + more[..n]), more[n], sid, i);
    }
  }

  ghost predicate CanBeLost(steps: seq<Step>, sid: string, i: nat)
  {
    exists more :: OnlySends(more) && IsLost(Run(steps + more), sid, i)
  }

  /** At any moment of any run: an event can still be lost for a subscriber that was in the room
      when it was published exactly if it is lost already, or its publisher has still to send it to
      this subscriber and to one that has left. */
  lemma LossExactly(steps: seq<Step>, sid: string, i: nat)
    requires sid in Run(steps).subs && i in Run(steps).subs[sid].fate
    ensures CanBeLost(steps, sid, i) <==> AtRisk(Run(steps), sid, i)
  {
    hide Run, Next, SubIn, RoomIn, PubIn;
    var w := Run(steps);
    RunKeeps(steps);
    assert PendingOk(sid, w.subs[sid], w.pubs);
    hide Inv, PendingOk;
    var f := w.subs[sid].fate[i];
    if f == Lost {
      assert steps + [] == steps;
      assert OnlySends([]) && IsLost(Run(steps + []), sid, i);
    } else if AtRisk(w, sid, i) {
      var x :| x in w.pubs[f.pid].targets && x in w.subs && w.subs[x].left.Some?;
      PanicExactly(steps, f.pid, x);
      PendingHere(w, sid, i);
      assert OnlySends([Deliver(f.pid, x)]) && IsLost(Run(steps + [Deliver(f.pid, x)]), sid, i);
    } else {
      forall more | OnlySends(more) ensures !IsLost(Run(steps + more), sid, i) {
        StaysSafe(steps, more, sid, i);
      }
    }
  }

  lemma PendingHere(w: World, sid: string, i: nat)
    requires sid in w.subs && i in w.subs[sid].fate && w.subs[sid].fate[i].Pending? && PendingOk(sid, w.subs[sid], w.pubs)
    ensures var pid := w.subs[sid].fate[i].pid;
            pid in w.pubs && w.pubs[pid].posted.index == i && sid in w.pubs[pid].targets
  {}

  // ---------------------------------------------------------------- two runs

  /** Two publishers, the second of which sends first. */
  lemma ReorderingRun(e: ChatEvent, f: ChatEvent)
    ensures var w := Run([Subscribe("room", "s"), Publish("room", 0, e), Publish("room", 1, f), Deliver(1, "s"), Deliver(0, "s")]);
            && "s" in w.subs && "s" in w.hub.channels
            && w.hub.channels["s"].queue == [Posted(1, f.(room := "room")), Posted(0, e.(room := "room"))]
            && !InLogOrder(w, "s")
  {
    var steps := [Subscribe("room", "s"), Publish("room", 0, e), Publish("room", 1, f)];
    OverlappingRun(e, f);
    hide Run, Next;
    OverlapReorders(steps, 0, 1, "s");
    assert steps + [Deliver(1, "s")] + [Deliver(0, "s")] ==
      [Subscribe("room", "s"), Publish("room", 0, e), Publish("room", 1, f), Deliver(1, "s"), Deliver(0, "s")];
    assert [] + [Posted(1, f.(room := "room")), Posted(0, e.(room := "room"))] == [Posted(1, f.(room := "room")), Posted(0, e.(room := "room"))];
    NotInLogOrder(steps + [Deliver(1, "s")] + [Deliver(0, "s")], "s");
  }

  /** After one subscription and one publisher's locked section. */
  lemma PublishedRun(e: ChatEvent)
    ensures var p := Posted(0, e.(room := "room"));
            Run([Subscribe("room", "s"), Publish("room", 0, e)]) ==
            World(Hub(map["room" := Room([p], {"s"})], map["s" := Channel([], true)]),
                  map["room" := [e.(room := "room")]],
                  map["s" := Sub("room", 0, None, [], [], map[0 := Pending(0)])],
                  map[0 := Pub("room", p, {"s"})], 0)
  {
    var one := [Subscribe("room", "s")];
    var nobody: set<string> := {};
    RunOne([], Subscribe("room", "s"));
    assert [] + [Subscribe("room", "s")] == one;
    assert nobody + {"s"} == {"s"};
    var w := World(Hub(map["room" := Room([], {"s"})], map["s" := Channel([], true)]), map[],
                   map["s" := Sub("room", 0, None, [], [], map[])], map[], 0);
    assert Run(one) == Next(START, Subscribe("room", "s")) == w;
    hide Run;
    RunOne(one, Publish("room", 0, e));
    assert one + [Publish("room", 0, e)] == [Subscribe("room", "s"), Publish("room", 0, e)];
    var ev := e.(room := "room");
    var none: seq<Posted>, log: seq<ChatEvent> := [], [];
    assert none + [Posted(0, ev)] == [Posted(0, ev)] && log + [ev] == [ev];
    var fate: map<nat, Fate> := map[];
    assert fate[0 := Pending(0)] == map[0 := Pending(0)];
    assert MarkAll(w.subs, {"s"}, 0, Pending(0)) == map["s" := Sub("room", 0, None, [], [], map[0 := Pending(0)])];
  }

  lemma OverlappingRun(e: ChatEvent, f: ChatEvent)
    ensures var w := Run([Subscribe("room", "s"), Publish("room", 0, e), Publish("room", 1, f)]);
            && w.hub.channels == map["s" := Channel([], true)]
            && w.pubs == map[0 := Pub("room", Posted(0, e.(room := "room")), {"s"}),
                             1 := Pub("room", Posted(1, f.(room := "room")), {"s"})]
  {
    hide Run;
    var two := [Subscribe("room", "s"), Publish("room", 0, e)];
    PublishedRun(e);
    RunOne(two, Publish("room", 1, f));
    assert two + [Publish("room", 1, f)] == [Subscribe("room", "s"), Publish("room", 0, e), Publish("room", 1, f)];
  }

  /** A subscriber leaves between a publisher's locked section and its send. */
  lemma PanickingRun(e: ChatEvent)
    ensures Run([Subscribe("room", "s"), Publish("room", 0, e), Unsubscribe("s"), Deliver(0, "s")]).panics == 1
  {
    hide Run;
    var two, three := [Subscribe("room", "s"), Publish("room", 0, e)], [Subscribe("room", "s"), Publish("room", 0, e), Unsubscribe("s")];
    PublishedRun(e);
    RunOne(two, Unsubscribe("s"));
    RunOne(three, Deliver(0, "s"));
    assert two + [Unsubscribe("s")] == three;
    assert three + [Deliver(0, "s")] == [Subscribe("room", "s"), Publish("room", 0, e), Unsubscribe("s"), Deliver(0, "s")];
  }
}
