/** Whole runs of the chat hub: any number of subscribers and publishers, in any interleaving of
    their locked sections and sends. */
module ChatDelivery {
  import opened Options
  import opened ChatHub

  // ---------------------------------------------------------------- runs

  /** What became of an event for a subscriber that was in the room when it was published. */
  datatype Fate =
    | Pending(pid: nat)                   // its publisher is still sending
    | Delivered                           // it is, or was, in the subscriber's queue
    | Dropped(queue: seq<Posted>)         // it met this queue
    | Lost                                // its publisher panicked before getting to it

  /** A subscription and its past.  `joined` and `left` are positions in the room's log. */
  datatype Sub = Sub(room: string, joined: nat, left: Option<nat>, snapshot: seq<Posted>,
                     received: seq<Posted>, fate: map<nat, Fate>)

  /** A publisher between its lock phase and the end of its sending loop. */
  datatype Pub = Pub(room: string, posted: Posted, targets: set<string>)

  datatype World = World(hub: Hub, logs: map<string, seq<ChatEvent>>, subs: map<string, Sub>,
                         pubs: map<nat, Pub>, panics: nat)

  const START := World(Hub(map[], map[]), map[], map[], map[], 0)

  function Log(w: World, room: string): seq<ChatEvent> { if room in w.logs then w.logs[room] else [] }

  datatype Step =
    | Subscribe(name: string, sid: string)
    | Publish(name: string, pid: nat, event: ChatEvent)
    | Deliver(pid: nat, sid: string)
    | Receive(sid: string)
    | Unsubscribe(sid: string)

  function DoSubscribe(w: World, room: string, sid: string): World
  {
    w.(hub := Subscribed(w.hub, room, sid),
       subs := w.subs[sid := Sub(room, |Log(w, room)|, None, RoomOf(w.hub, room).history, [], map[])])
  }

  function Mark(s: Sub, i: nat, f: Fate): Sub { s.(fate := s.fate[i := f]) }

  function MarkAll(subs: map<string, Sub>, who: set<string>, i: nat, f: Fate): map<string, Sub>
  {
    map sid | sid in subs :: if sid in who then Mark(subs[sid], i, f) else subs[sid]
  }

  function DoPublish(w: World, room: string, pid: nat, event: ChatEvent): World
  {
    var log := Log(w, room);
    var e := event.(room := room);
    var p := Posted(|log|, e);
    var targets := RoomOf(w.hub, room).subscribers;
    World(Recorded(w.hub, room, p), w.logs[room := log + [e]],
          MarkAll(w.subs, targets, |log|, Pending(pid)),
          if targets == {} then w.pubs else w.pubs[pid := Pub(room, p, targets)],
          w.panics)
  }

  /** The publisher gets to one of the channels on its list.  A panic ends its loop. */
  function DoDeliver(w: World, pid: nat, sid: string): World
    requires pid in w.pubs && sid in w.pubs[pid].targets && sid in w.hub.channels && sid in w.subs
  {
    var p := w.pubs[pid];
    var (c, r) := Offered(w.hub.channels[sid], p.posted);
    if r == Closed then
      World(w.hub, w.logs, MarkAll(w.subs, p.targets, p.posted.index, Lost), w.pubs - {pid}, w.panics + 1)
    else
      var left := p.targets - {sid};
      var f := if r == Sent then Delivered else Dropped(c.queue);
      World(w.hub.(channels := w.hub.channels[sid := c]), w.logs,
            w.subs[sid := Mark(w.subs[sid], p.posted.index, f)],
            if left == {} then w.pubs - {pid} else w.pubs[pid := p.(targets := left)],
            w.panics)
  }

  function DoReceive(w: World, sid: string): World
    requires sid in w.hub.channels && sid in w.subs && w.hub.channels[sid].queue != []
  {
    var c, s := w.hub.channels[sid], w.subs[sid];
    w.(hub := w.hub.(channels := w.hub.channels[sid := c.(queue := c.queue[1..])]),
       subs := w.subs[sid := s.(received := s.received + [c.queue[0]])])
  }

  function DoUnsubscribe(w: World, sid: string): World
    requires sid in w.subs
  {
    var s := w.subs[sid];
    if s.left.Some? then w else
    w.(hub := Unsubscribed(w.hub, s.room, sid), subs := w.subs[sid := s.(left := Some(|Log(w, s.room)|))])
  }

  /** One step of any goroutine; a step that is not enabled changes nothing.  Subscriber and
      publisher identities are not reused. */
  function Next(w: World, step: Step): World
  {
    match step
    case Subscribe(name, sid) => if sid in w.subs then w else DoSubscribe(w, RoomName(name), sid)
    case Publish(name, pid, event) => if pid in w.pubs then w else DoPublish(w, RoomName(name), pid, event)
    case Deliver(pid, sid) =>
      if pid in w.pubs && sid in w.pubs[pid].targets && sid in w.hub.channels && sid in w.subs then DoDeliver(w, pid, sid) else w
    case Receive(sid) =>
      if sid in w.hub.channels && sid in w.subs && w.hub.channels[sid].queue != [] then DoReceive(w, sid) else w
    case Unsubscribe(sid) => if sid in w.subs then DoUnsubscribe(w, sid) else w
  }

  function Run(steps: seq<Step>): World
  {
    if steps == [] then START else Next(Run(steps[..|steps| - 1]), steps[|steps| - 1])
  }

  // ---------------------------------------------------------------- what every step keeps

  /** The last 120 events of a log, with their positions. */
  function Recent(log: seq<ChatEvent>): (h: seq<Posted>)
    ensures |h| <= |log| && |h| <= HISTORY_LIMIT
  {
    var from := if |log| > HISTORY_LIMIT then |log| - HISTORY_LIMIT else 0;
    seq(|log| - from, k requires 0 <= k < |log| - from => Posted(from + k, log[from + k]))
  }

  lemma RecentAppend(log: seq<ChatEvent>, e: ChatEvent)
    ensures LastOf(Recent(log) + [Posted(|log|, e)]) == Recent(log + [e])
  {}

  function End(s: Sub, log: seq<ChatEvent>): nat { if s.left.Some? then s.left.value else |log| }

  function Got(s: Sub, c: Channel): seq<Posted> { s.received + c.queue }

  predicate Distinct(got: seq<Posted>)
  {
    forall j, k :: 0 <= j < k < |got| ==> got[j].index != got[k].index
  }

  ghost predicate Holds(got: seq<Posted>, i: nat)
  {
    exists j :: 0 <= j < |got| && got[j].index == i
  }

  /** Queue and past agree: an event marked delivered was put in the queue, once. */
  ghost predicate QueueOk(s: Sub, c: Channel, log: seq<ChatEvent>)
  {
    && |c.queue| <= QUEUE_LIMIT
    && Distinct(Got(s, c))
    && (forall j :: 0 <= j < |Got(s, c)| ==>
          var p := Got(s, c)[j];
          p.index < |log| && p.event == log[p.index] && p.index in s.fate && s.fate[p.index] == Delivered)
    && (forall i :: i in s.fate && s.fate[i] == Delivered ==> Holds(Got(s, c), i))
  }

  /** Every event of the time in the room has a fate. */
  ghost predicate SubOk(s: Sub, c: Channel, log: seq<ChatEvent>, member: bool)
  {
    && s.joined <= End(s, log) <= |log|
    && (member <==> s.left.None?) && (c.open <==> s.left.None?)
    && s.snapshot == Recent(log[..s.joined])
    && (forall i: nat :: i in s.fate <==> s.joined <= i < End(s, log))
    && (forall i :: i in s.fate && s.fate[i].Dropped? ==> |s.fate[i].queue| == QUEUE_LIMIT)
    && QueueOk(s, c, log)
  }

  ghost predicate PendingOk(sid: string, s: Sub, pubs: map<nat, Pub>)
  {
    forall i :: i in s.fate && s.fate[i].Pending? ==>
      var pid := s.fate[i].pid;
      pid in pubs && pubs[pid].room == s.room && pubs[pid].posted.index == i && sid in pubs[pid].targets
  }

  ghost predicate PubOk(pid: nat, p: Pub, log: seq<ChatEvent>, subs: map<string, Sub>)
  {
    && p.posted.index < |log| && p.posted.event == log[p.posted.index]
    && p.targets != {}
    && forall sid <- p.targets ::
         sid in subs && subs[sid].room == p.room &&
         p.posted.index in subs[sid].fate && subs[sid].fate[p.posted.index] == Pending(pid)
  }

  ghost predicate RoomOk(room: string, r: Room, log: seq<ChatEvent>, subs: map<string, Sub>)
  {
    && r.history == Recent(log)
    && (forall i :: 0 <= i < |log| ==> log[i].room == room)
    && (forall sid <- r.subscribers :: sid in subs && subs[sid].room == room)
  }

  ghost predicate SubIn(w: World, sid: string)
    requires sid in w.subs
  {
    var s := w.subs[sid];
    && sid in w.hub.channels && s.room in w.hub.rooms
    && SubOk(s, w.hub.channels[sid], Log(w, s.room), sid in w.hub.rooms[s.room].subscribers)
  }

  ghost predicate RoomIn(w: World, room: string) { RoomOk(room, RoomOf(w.hub, room), Log(w, room), w.subs) }

  ghost predicate PubIn(w: World, pid: nat)
    requires pid in w.pubs
  {
    PubOk(pid, w.pubs[pid], Log(w, w.pubs[pid].room), w.subs)
  }

  predicate NothingLost(w: World)
  {
    forall sid <- w.subs :: forall i <- w.subs[sid].fate :: w.subs[sid].fate[i] != Lost
  }

  ghost predicate SomeoneLeft(w: World) { exists sid :: sid in w.subs && w.subs[sid].left.Some? }

  ghost predicate Inv(w: World)
  {
    && (forall sid <- w.subs :: SubIn(w, sid))
    && (forall sid <- w.subs :: PendingOk(sid, w.subs[sid], w.pubs))
    && (forall pid <- w.pubs :: PubIn(w, pid))
    && (forall room :: RoomIn(w, room))
    && (w.panics == 0 ==> NothingLost(w))
    && (w.panics > 0 ==> SomeoneLeft(w))
  }

  // ---------------------------------------------------------------- what a step leaves alone

  lemma SubUntouched(w: World, w': World, x: string)
    requires x in w.subs && SubIn(w, x)
    requires x in w'.subs && w'.subs[x] == w.subs[x]
    requires x in w'.hub.channels && w'.hub.channels[x] == w.hub.channels[x]
    requires var room := w.subs[x].room;
             && room in w'.hub.rooms && Log(w', room) == Log(w, room)
             && (x in w'.hub.rooms[room].subscribers <==> x in w.hub.rooms[room].subscribers)
    ensures SubIn(w', x)
  {
    hide SubOk;
  }

  /** No fate changes: subscribing, receiving and leaving. */
  ghost predicate SameFates(w: World, w': World)
  {
    && w'.pubs == w.pubs && w'.logs == w.logs && w'.panics == w.panics
    && (forall x <- w.subs :: x in w'.subs && w'.subs[x].fate == w.subs[x].fate && w'.subs[x].room == w.subs[x].room &&
          (w.subs[x].left.Some? ==> w'.subs[x].left.Some?))
    && (forall x <- w'.subs :: x in w.subs || w'.subs[x].fate == map[])
  }

  lemma SameFatesKeep(w: World, w': World)
    requires Inv(w) && SameFates(w, w')
    ensures forall x <- w'.subs :: PendingOk(x, w'.subs[x], w'.pubs)
    ensures forall pid <- w'.pubs :: PubIn(w', pid)
    ensures w'.panics == 0 ==> NothingLost(w')
    ensures w'.panics > 0 ==> SomeoneLeft(w')
  {
    hide SubIn, RoomIn;
    forall x | x in w'.subs ensures PendingOk(x, w'.subs[x], w'.pubs) {
      if x in w.subs {
        assert PendingOk(x, w.subs[x], w.pubs);
      }
    }
    forall pid | pid in w'.pubs ensures PubIn(w', pid) {
      assert PubIn(w, pid);
    }
    if w'.panics > 0 {
      var x :| x in w.subs && w.subs[x].left.Some?;
      assert x in w'.subs && w'.subs[x].left.Some?;
    }
  }

  lemma SameRoomsKeep(w: World, w': World)
    requires forall room :: RoomIn(w, room)
    requires w'.hub.rooms == w.hub.rooms && w'.logs == w.logs
    requires forall x <- w.subs :: x in w'.subs && w'.subs[x].room == w.subs[x].room
    ensures forall room :: RoomIn(w', room)
  {
    forall room ensures RoomIn(w', room) {
      assert RoomIn(w, room);
    }
  }

  // ---------------------------------------------------------------- subscribe

  lemma NewSub(log: seq<ChatEvent>, room: string)
    ensures SubOk(Sub(room, |log|, None, Recent(log), [], map[]), Channel([], true), log, true)
  {
    assert log[..|log|] == log;
  }

  lemma SubscribeKeeps(w: World, room: string, sid: string)
    requires Inv(w) && sid !in w.subs
    ensures Inv(DoSubscribe(w, room, sid))
  {
    var w' := DoSubscribe(w, room, sid);
    SubscribeRooms(w, room, sid);
    SubscribeSubs(w, room, sid);
    hide SubIn, RoomIn, PubIn, PendingOk, DoSubscribe;
    assert SameFates(w, w') by { SubscribeFates(w, room, sid); }
    SameFatesKeep(w, w');
  }

  lemma SubscribeFates(w: World, room: string, sid: string)
    requires sid !in w.subs
    ensures SameFates(w, DoSubscribe(w, room, sid))
  {
    hide RoomOf, Subscribed;
  }

  lemma SubscribeRooms(w: World, room: string, sid: string)
    requires Inv(w) && sid !in w.subs
    ensures forall r :: RoomIn(DoSubscribe(w, room, sid), r)
  {
    hide SubIn, PubIn, PendingOk, Recent;
    var w' := DoSubscribe(w, room, sid);
    forall r ensures RoomIn(w', r) {
      assert RoomIn(w, r);
    }
  }

  lemma SubscribeSubs(w: World, room: string, sid: string)
    requires Inv(w) && sid !in w.subs
    ensures forall x <- DoSubscribe(w, room, sid).subs :: SubIn(DoSubscribe(w, room, sid), x)
  {
    hide PubIn, PendingOk, SubOk, Recent;
    var w' := DoSubscribe(w, room, sid);
    assert RoomIn(w, room);
    NewSub(Log(w, room), room);
    forall x | x in w'.subs ensures SubIn(w', x) {
      if x != sid {
        assert SubIn(w, x);
      }
    }
  }

  // ---------------------------------------------------------------- publish

  /** The log grows by one event: everyone in the room gets a fate for it. */
  lemma PublishedSub(s: Sub, c: Channel, log: seq<ChatEvent>, member: bool, e: ChatEvent, pid: nat)
    requires SubOk(s, c, log, member)
    ensures SubOk(if member then Mark(s, |log|, Pending(pid)) else s, c, log + [e], member)
    ensures |log| !in s.fate
  {
    hide Recent;
    var s' := if member then Mark(s, |log|, Pending(pid)) else s;
    assert (log + [e])[..s.joined] == log[..s.joined];
    assert Got(s', c) == Got(s, c);
    PublishedQueue(s, s', c, log, e);
  }

  lemma PublishedQueue(s: Sub, s': Sub, c: Channel, log: seq<ChatEvent>, e: ChatEvent)
    requires QueueOk(s, c, log) && |log| !in s.fate
    requires s'.received == s.received && (s'.fate == s.fate || exists pid :: s'.fate == s.fate[|log| := Pending(pid)])
    ensures QueueOk(s', c, log + [e])
  {
    assert Got(s', c) == Got(s, c);
    forall i | i in s'.fate && s'.fate[i] == Delivered ensures Holds(Got(s', c), i) {
      assert Holds(Got(s, c), i);
    }
  }

  ghost predicate MembersKnown(w: World, room: string, targets: set<string>)
  {
    && (forall x <- targets :: x in w.subs && w.subs[x].room == room)
    && (forall x <- w.subs :: w.subs[x].room == room && room in w.hub.rooms ==>
          (x in targets <==> x in w.hub.rooms[room].subscribers))
  }

  lemma MembersAreKnown(w: World, room: string)
    requires Inv(w)
    ensures MembersKnown(w, room, RoomOf(w.hub, room).subscribers)
  {
    hide SubIn, PubIn, PendingOk;
    assert RoomIn(w, room);
  }

  lemma PublishSub(w: World, room: string, pid: nat, event: ChatEvent, x: string)
    requires Inv(w) && x in w.subs
    ensures SubIn(DoPublish(w, room, pid, event), x)
    ensures w.subs[x].room == room ==> |Log(w, room)| !in w.subs[x].fate
  {
    hide SubOk, PendingOk, PubIn, RoomIn, LastOf;
    MembersAreKnown(w, room);
    var w' := DoPublish(w, room, pid, event);
    assert SubIn(w, x);
    var s, c := w.subs[x], w.hub.channels[x];
    if s.room == room {
      PublishedSub(s, c, Log(w, room), x in w.hub.rooms[room].subscribers, event.(room := room), pid);
    }
  }

  lemma PublishPending(w: World, room: string, pid: nat, event: ChatEvent, x: string)
    requires Inv(w) && x in w.subs && pid !in w.pubs
    ensures PendingOk(x, DoPublish(w, room, pid, event).subs[x], DoPublish(w, room, pid, event).pubs)
  {
    hide SubIn, PubIn, RoomIn, Recorded;
    MembersAreKnown(w, room);
    assert PendingOk(x, w.subs[x], w.pubs);
  }

  lemma PublishPub(w: World, room: string, pid: nat, event: ChatEvent, q: nat)
    requires Inv(w) && pid !in w.pubs && q in DoPublish(w, room, pid, event).pubs
    ensures PubIn(DoPublish(w, room, pid, event), q)
  {
    hide SubIn, PendingOk, RoomIn, Recorded;
    var w' := DoPublish(w, room, pid, event);
    MembersAreKnown(w, room);
    if q != pid {
      assert PubIn(w, q);
      var p := w.pubs[q];
      assert w'.pubs[q] == p;
      forall x | x in p.targets
        ensures p.posted.index in w'.subs[x].fate && w'.subs[x].fate[p.posted.index] == Pending(q)
      {
        assert p.room == room ==> p.posted.index < |Log(w, room)|;
      }
    }
  }

  lemma PublishRooms(w: World, room: string, pid: nat, event: ChatEvent)
    requires Inv(w)
    ensures forall r :: RoomIn(DoPublish(w, room, pid, event), r)
  {
    hide SubIn, PendingOk, PubIn, Recent, LastOf;
    var w' := DoPublish(w, room, pid, event);
    RecentAppend(Log(w, room), event.(room := room));
    forall r ensures RoomIn(w', r) {
      assert RoomIn(w, r);
    }
  }

  lemma PublishKeeps(w: World, room: string, pid: nat, event: ChatEvent)
    requires Inv(w) && pid !in w.pubs
    ensures Inv(DoPublish(w, room, pid, event))
  {
    hide SubIn, PubIn, RoomIn, PendingOk, Recorded;
    var w' := DoPublish(w, room, pid, event);
    forall x | x in w'.subs ensures SubIn(w', x) && PendingOk(x, w'.subs[x], w'.pubs) {
      PublishSub(w, room, pid, event, x);
      PublishPending(w, room, pid, event, x);
    }
    forall q | q in w'.pubs ensures PubIn(w', q) {
      PublishPub(w, room, pid, event, q);
    }
    PublishRooms(w, room, pid, event);
    if w.panics > 0 {
      var x :| x in w.subs && w.subs[x].left.Some?;
      assert x in w'.subs && w'.subs[x].left.Some?;
    }
  }

  // ---------------------------------------------------------------- deliver

  /** An accepted send: the event enters the queue, where it was not before. */
  lemma SentSub(s: Sub, c: Channel, log: seq<ChatEvent>, member: bool, p: Posted)
    requires SubOk(s, c, log, member)
    requires c.open && |c.queue| < QUEUE_LIMIT
    requires p.index < |log| && p.event == log[p.index]
    requires p.index in s.fate && s.fate[p.index].Pending?
    ensures SubOk(Mark(s, p.index, Delivered), c.(queue := c.queue + [p]), log, member)
  {
    hide Recent;
    SentQueue(s, c, log, p);
  }

  lemma SentQueue(s: Sub, c: Channel, log: seq<ChatEvent>, p: Posted)
    requires QueueOk(s, c, log) && |c.queue| < QUEUE_LIMIT
    requires p.index < |log| && p.event == log[p.index]
    requires p.index in s.fate && s.fate[p.index].Pending?
    ensures QueueOk(Mark(s, p.index, Delivered), c.(queue := c.queue + [p]), log)
  {
    var s', c' := Mark(s, p.index, Delivered), c.(queue := c.queue + [p]);
    var got := Got(s, c);
    assert Got(s', c') == got + [p];
    forall j | 0 <= j < |got| ensures got[j].index != p.index {
      assert s.fate[got[j].index] == Delivered;
    }
    forall i | i in s'.fate && s'.fate[i] == Delivered ensures Holds(got + [p], i) {
      HoldsMore(got, p, i);
      if i != p.index {
        assert Holds(got, i);
      }
    }
  }

  lemma HoldsMore(got: seq<Posted>, p: Posted, i: nat)
    ensures Holds(got, i) || i == p.index ==> Holds(got + [p], i)
  {
    if i == p.index {
      assert (got + [p])[|got|].index == i;
    } else if Holds(got, i) {
      var j :| 0 <= j < |got| && got[j].index == i;
      assert (got + [p])[j].index == i;
    }
  }

  /** Any other fate of a pending event leaves queue and past alone. */
  lemma NotSentSub(s: Sub, c: Channel, log: seq<ChatEvent>, member: bool, i: nat, f: Fate)
    requires SubOk(s, c, log, member)
    requires i in s.fate && s.fate[i].Pending?
    requires f == Lost || (f.Dropped? && |f.queue| == QUEUE_LIMIT)
    ensures SubOk(Mark(s, i, f), c, log, member)
  {
    hide Recent;
    var s' := Mark(s, i, f);
    assert Got(s', c) == Got(s, c);
    forall k | k in s'.fate && s'.fate[k] == Delivered ensures Holds(Got(s', c), k) {
      assert Holds(Got(s, c), k);
    }
  }

  lemma OpenQueue(s: Sub, c: Channel, log: seq<ChatEvent>, member: bool)
    requires SubOk(s, c, log, member)
    ensures |c.queue| <= QUEUE_LIMIT && (c.open <==> s.left.None?)
  {}

  lemma DeliverSub(w: World, pid: nat, sid: string)
    requires Inv(w) && pid in w.pubs && sid in w.pubs[pid].targets && sid in w.hub.channels && sid in w.subs
    requires w.hub.channels[sid].open
    ensures SubIn(DoDeliver(w, pid, sid), sid)
  {
    hide SubOk, PendingOk, RoomIn;
    var p, s, c := w.pubs[pid].posted, w.subs[sid], w.hub.channels[sid];
    var log, member := Log(w, s.room), sid in w.hub.rooms[s.room].subscribers;
    assert PubIn(w, pid) && SubIn(w, sid);
    OpenQueue(s, c, log, member);
    if |c.queue| < QUEUE_LIMIT {
      SentSub(s, c, log, member, p);
    } else {
      NotSentSub(s, c, log, member, p.index, Dropped(c.queue));
    }
  }

  lemma DeliverPending(w: World, pid: nat, sid: string, x: string)
    requires Inv(w) && pid in w.pubs && sid in w.pubs[pid].targets && sid in w.hub.channels && sid in w.subs
    requires w.hub.channels[sid].open && x in w.subs
    ensures PendingOk(x, DoDeliver(w, pid, sid).subs[x], DoDeliver(w, pid, sid).pubs)
  {
    hide SubIn, RoomIn, PubIn;
    assert PendingOk(x, w.subs[x], w.pubs) && PubIn(w, pid);
    TargetKnown(w, pid, sid);
    var w', p := DoDeliver(w, pid, sid), w.pubs[pid];
    var left := p.targets - {sid};
    forall i | i in w'.subs[x].fate && w'.subs[x].fate[i].Pending?
      ensures var q := w'.subs[x].fate[i].pid;
              q in w'.pubs && w'.pubs[q].room == w'.subs[x].room && w'.pubs[q].posted.index == i && x in w'.pubs[q].targets
    {
      assert w'.subs[x].fate[i] == w.subs[x].fate[i];
      if w.subs[x].fate[i].pid == pid {
        assert i == p.posted.index && x != sid && x in left;
      }
    }
  }

  lemma TargetKnown(w: World, pid: nat, sid: string)
    requires pid in w.pubs && sid in w.pubs[pid].targets && PubIn(w, pid)
    ensures sid in w.subs && w.subs[sid].room == w.pubs[pid].room
    ensures w.pubs[pid].posted.index in w.subs[sid].fate && w.subs[sid].fate[w.pubs[pid].posted.index] == Pending(pid)
  {}

  lemma PubShrinks(q: nat, p: Pub, log: seq<ChatEvent>, subs: map<string, Sub>, p': Pub, subs': map<string, Sub>)
    requires PubOk(q, p, log, subs)
    requires p'.room == p.room && p'.posted == p.posted && p'.targets <= p.targets && p'.targets != {}
    requires forall x <- p'.targets :: x in subs && p.posted.index in subs[x].fate && subs[x].fate[p.posted.index] == Pending(q) ==>
               x in subs' && subs'[x].room == subs[x].room &&
               p.posted.index in subs'[x].fate && subs'[x].fate[p.posted.index] == Pending(q)
    ensures PubOk(q, p', log, subs')
  {}

  lemma HasTargets(w: World, q: nat)
    requires q in w.pubs && PubIn(w, q)
    ensures w.pubs[q].targets != {}
  {}

  lemma DeliverPub(w: World, pid: nat, sid: string, q: nat)
    requires pid in w.pubs && sid in w.pubs[pid].targets && sid in w.hub.channels && sid in w.subs
    requires w.hub.channels[sid].open && q in w.pubs && (q == pid ==> w.pubs[pid].targets != {sid})
    requires PubIn(w, pid) && PubIn(w, q)
    ensures q in DoDeliver(w, pid, sid).pubs && PubIn(DoDeliver(w, pid, sid), q)
  {
    hide SubIn, RoomIn, PendingOk, PubOk;
    var w' := DoDeliver(w, pid, sid);
    TargetKnown(w, pid, sid);
    HasTargets(w, q);
    var p := w'.pubs[q];
    PubShrinks(q, w.pubs[q], Log(w, p.room), w.subs, p, w'.subs);
  }

  lemma DeliverKeeps(w: World, pid: nat, sid: string)
    requires Inv(w) && pid in w.pubs && sid in w.pubs[pid].targets && sid in w.hub.channels && sid in w.subs
    requires w.hub.channels[sid].open
    ensures Inv(DoDeliver(w, pid, sid))
  {
    hide SubIn, PubIn, RoomIn, PendingOk;
    var w' := DoDeliver(w, pid, sid);
    forall x | x in w'.subs ensures SubIn(w', x) && PendingOk(x, w'.subs[x], w'.pubs) {
      DeliverPending(w, pid, sid, x);
      if x == sid {
        DeliverSub(w, pid, sid);
      } else {
        Located(w, x);
        SubUntouched(w, w', x);
      }
    }
    forall q | q in w'.pubs ensures PubIn(w', q) {
      DeliverPub(w, pid, sid, q);
    }
    SameRoomsKeep(w, w');
    if w.panics > 0 {
      var x :| x in w.subs && w.subs[x].left.Some?;
      assert x in w'.subs && w'.subs[x].left.Some?;
    }
  }

  lemma Located(w: World, x: string)
    requires x in w.subs && SubIn(w, x)
    ensures x in w.hub.channels && w.subs[x].room in w.hub.rooms
  {}

  // ---------------------------------------------------------------- panic

  lemma PanicSub(w: World, pid: nat, sid: string, x: string)
    requires Inv(w) && pid in w.pubs && sid in w.pubs[pid].targets && sid in w.hub.channels && sid in w.subs
    requires !w.hub.channels[sid].open && x in w.subs
    ensures SubIn(DoDeliver(w, pid, sid), x)
    ensures PendingOk(x, DoDeliver(w, pid, sid).subs[x], DoDeliver(w, pid, sid).pubs)
  {
    hide SubOk, RoomIn, PubIn;
    var p, s := w.pubs[pid], w.subs[x];
    assert SubIn(w, x) && PendingOk(x, s, w.pubs) && PubIn(w, pid);
    if x in p.targets {
      TargetKnown(w, pid, x);
      NotSentSub(s, w.hub.channels[x], Log(w, s.room), x in w.hub.rooms[s.room].subscribers, p.posted.index, Lost);
    }
  }

  lemma PanicKeeps(w: World, pid: nat, sid: string)
    requires Inv(w) && pid in w.pubs && sid in w.pubs[pid].targets && sid in w.hub.channels && sid in w.subs
    requires !w.hub.channels[sid].open
    ensures Inv(DoDeliver(w, pid, sid))
  {
    hide SubIn, PubIn, RoomIn, PendingOk, Offered;
    var w' := DoDeliver(w, pid, sid);
    assert Offered(w.hub.channels[sid], w.pubs[pid].posted).1 == Closed by { ClosedChannel(w.hub.channels[sid], w.pubs[pid].posted); }
    assert w.subs[sid].left.Some? by { ClosedMeansLeft(w, sid); }
    forall x | x in w'.subs ensures SubIn(w', x) && PendingOk(x, w'.subs[x], w'.pubs) {
      PanicSub(w, pid, sid, x);
    }
    forall q | q in w'.pubs ensures PubIn(w', q) {
      PanicPub(w, pid, sid, q);
    }
    SameRoomsKeep(w, w');
    assert sid in w'.subs && w'.subs[sid].left.Some?;
  }

  lemma ClosedChannel(c: Channel, p: Posted)
    requires !c.open
    ensures Offered(c, p) == (c, Closed)
  {}

  lemma ClosedMeansLeft(w: World, sid: string)
    requires sid in w.subs && SubIn(w, sid) && !w.hub.channels[sid].open
    ensures w.subs[sid].left.Some?
  {
    var s := w.subs[sid];
    OpenQueue(s, w.hub.channels[sid], Log(w, s.room), sid in w.hub.rooms[s.room].subscribers);
  }

  lemma PanicPub(w: World, pid: nat, sid: string, q: nat)
    requires pid in w.pubs && sid in w.pubs[pid].targets && sid in w.hub.channels && sid in w.subs
    requires !w.hub.channels[sid].open && q in w.pubs && q != pid
    requires PubIn(w, pid) && PubIn(w, q)
    ensures q in DoDeliver(w, pid, sid).pubs && PubIn(DoDeliver(w, pid, sid), q)
  {
    hide SubIn, RoomIn, PendingOk, PubOk;
    var w' := DoDeliver(w, pid, sid);
    HasTargets(w, q);
    var p := w.pubs[q];
    forall x | x in w.pubs[pid].targets
      ensures x in w.subs && p.posted.index in w.subs[x].fate && w.subs[x].fate[p.posted.index] == Pending(q) ==> p.posted.index != w.pubs[pid].posted.index
    {
      TargetKnown(w, pid, x);
    }
    PubShrinks(q, p, Log(w, p.room), w.subs, p, w'.subs);
  }

  // ---------------------------------------------------------------- receive and leave

  lemma ReceivedSub(s: Sub, c: Channel, log: seq<ChatEvent>, member: bool)
    requires SubOk(s, c, log, member) && c.queue != []
    ensures SubOk(s.(received := s.received + [c.queue[0]]), c.(queue := c.queue[1..]), log, member)
  {
    hide Recent;
    assert Got(s.(received := s.received + [c.queue[0]]), c.(queue := c.queue[1..])) == Got(s, c);
  }

  lemma ReceiverSub(w: World, sid: string)
    requires sid in w.subs && SubIn(w, sid) && w.hub.channels[sid].queue != []
    ensures SubIn(DoReceive(w, sid), sid)
  {
    hide SubOk;
    var s := w.subs[sid];
    ReceivedSub(s, w.hub.channels[sid], Log(w, s.room), sid in w.hub.rooms[s.room].subscribers);
  }

  lemma ReceiveKeeps(w: World, sid: string)
    requires Inv(w) && sid in w.hub.channels && sid in w.subs && w.hub.channels[sid].queue != []
    ensures Inv(DoReceive(w, sid))
  {
    hide SubIn, PubIn, RoomIn, PendingOk;
    var w' := DoReceive(w, sid);
    forall x | x in w'.subs ensures SubIn(w', x) {
      assert SubIn(w, x);
      if x == sid {
        ReceiverSub(w, sid);
      } else {
        Located(w, x);
        SubUntouched(w, w', x);
      }
    }
    assert SameFates(w, w') by { ReceiveFates(w, sid); }
    SameFatesKeep(w, w');
    SameRoomsKeep(w, w');
  }

  lemma ReceiveFates(w: World, sid: string)
    requires sid in w.hub.channels && sid in w.subs && w.hub.channels[sid].queue != []
    ensures SameFates(w, DoReceive(w, sid))
  {}

  lemma LeftSub(s: Sub, c: Channel, log: seq<ChatEvent>)
    requires SubOk(s, c, log, true)
    ensures SubOk(s.(left := Some(|log|)), c.(open := false), log, false)
  {
    hide Recent;
    assert Got(s.(left := Some(|log|)), c.(open := false)) == Got(s, c);
  }

  lemma LeaveSub(w: World, sid: string)
    requires Inv(w) && sid in w.subs && w.subs[sid].left.None?
    ensures SubIn(DoUnsubscribe(w, sid), sid)
    ensures w.subs[sid].room in w.hub.rooms && sid in w.hub.channels && sid in w.hub.rooms[w.subs[sid].room].subscribers
  {
    hide RoomIn, PubIn, PendingOk;
    var s := w.subs[sid];
    assert SubIn(w, sid);
    LeftSub(s, w.hub.channels[sid], Log(w, s.room));
  }

  lemma RoomShrinks(room: string, r: Room, log: seq<ChatEvent>, subs: map<string, Sub>, sid: string, s': Sub)
    requires RoomOk(room, r, log, subs) && sid in subs && s'.room == subs[sid].room
    ensures RoomOk(room, r, log, subs[sid := s'])
    ensures RoomOk(room, r.(subscribers := r.subscribers - {sid}), log, subs[sid := s'])
  {
    hide Recent;
  }

  lemma LeaveRooms(w: World, sid: string)
    requires Inv(w) && sid in w.subs && w.subs[sid].left.None?
    ensures forall room :: RoomIn(DoUnsubscribe(w, sid), room)
  {
    LeaveSub(w, sid);
    hide SubIn, PubIn, PendingOk, RoomOk;
    var w' := DoUnsubscribe(w, sid);
    forall room ensures RoomIn(w', room) {
      assert RoomIn(w, room);
      RoomShrinks(room, RoomOf(w.hub, room), Log(w, room), w.subs, sid, w'.subs[sid]);
    }
  }

  lemma LeaveFates(w: World, sid: string)
    requires sid in w.subs
    ensures SameFates(w, DoUnsubscribe(w, sid))
  {
    hide Unsubscribed;
  }

  lemma LeaveOthers(w: World, sid: string, x: string)
    requires sid in w.subs && SubIn(w, sid) && x in w.subs && x != sid && SubIn(w, x)
    ensures SubIn(DoUnsubscribe(w, sid), x)
  {
    hide SubOk;
    SubUntouched(w, DoUnsubscribe(w, sid), x);
  }

  lemma UnsubscribeKeeps(w: World, sid: string)
    requires Inv(w) && sid in w.subs
    ensures Inv(DoUnsubscribe(w, sid))
  {
    hide SubIn, PubIn, RoomIn, PendingOk, Unsubscribed;
    if w.subs[sid].left.None? {
      var w' := DoUnsubscribe(w, sid);
      forall x | x in w'.subs ensures SubIn(w', x) {
        if x == sid {
          LeaveSub(w, sid);
        } else {
          LeaveOthers(w, sid, x);
        }
      }
      LeaveRooms(w, sid);
      LeaveFates(w, sid);
      SameFatesKeep(w, w');
    }
  }

  // ---------------------------------------------------------------- every run

  lemma StartKeeps()
    ensures Inv(START)
  {
    forall room ensures RoomIn(START, room) {
      assert Recent([]) == [];
    }
  }

  lemma NextKeeps(w: World, step: Step)
    requires Inv(w)
    ensures Inv(Next(w, step))
  {
    hide Inv, DoSubscribe, DoPublish, DoDeliver, DoReceive, DoUnsubscribe;
    match step
    case Subscribe(name, sid) =>
      if sid !in w.subs {
        SubscribeKeeps(w, RoomName(name), sid);
      }
    case Publish(name, pid, event) =>
      if pid !in w.pubs {
        PublishKeeps(w, RoomName(name), pid, event);
      }
    case Deliver(pid, sid) =>
      if pid in w.pubs && sid in w.pubs[pid].targets && sid in w.hub.channels && sid in w.subs {
        if w.hub.channels[sid].open {
          DeliverKeeps(w, pid, sid);
        } else {
          PanicKeeps(w, pid, sid);
        }
      }
    case Receive(sid) =>
      if sid in w.hub.channels && sid in w.subs && w.hub.channels[sid].queue != [] {
        ReceiveKeeps(w, sid);
      }
    case Unsubscribe(sid) =>
      if sid in w.subs {
        UnsubscribeKeeps(w, sid);
      }
  }

  lemma {:induction false} RunKeeps(steps: seq<Step>)
    ensures Inv(Run(steps))
    decreases |steps|
  {
    hide Inv, Next;
    if steps == [] {
      StartKeeps();
    } else {
      RunKeeps(steps[..|steps| - 1]);
      NextKeeps(Run(steps[..|steps| - 1]), steps[|steps| - 1]);
    }
  }

  // ---------------------------------------------------------------- what a subscriber gets

  function Indices(got: seq<Posted>): set<nat> { set p <- got :: p.index }

  ghost predicate IsPending(w: World, sid: string, room: string, i: nat)
  {
    exists pid :: pid in w.pubs && w.pubs[pid].room == room && w.pubs[pid].posted.index == i && sid in w.pubs[pid].targets
  }

  /** In every run: the snapshot is the tail of what was published before the subscription; the
      channel carries only events published to the room while the subscriber was in it, each at
      most once, so none that the snapshot already had and none of another room; and every one of
      those events has exactly one of four fates: it was put in the queue, it met a full queue, its
      publisher has not got to this subscriber yet, or its publisher panicked. */
  lemma ExactlyOneRoute(steps: seq<Step>, sid: string)
    requires sid in Run(steps).subs
    ensures var w := Run(steps);
            sid in w.hub.channels &&
            var s := w.subs[sid];
            var log, got := Log(w, s.room), Got(s, w.hub.channels[sid]);
            && s.joined <= |log| && s.snapshot == Recent(log[..s.joined])
            && Distinct(got)
            && (forall p <- got :: s.joined <= p.index < End(s, log) <= |log| && p.event == log[p.index] && p.event.room == s.room)
            && (forall i: nat :: i in s.fate <==> s.joined <= i < End(s, log))
            && (forall i <- s.fate :: s.fate[i] == Delivered <==> i in Indices(got))
            && (forall i <- s.fate :: s.fate[i].Dropped? ==> |s.fate[i].queue| == 32)
            && (forall i <- s.fate :: s.fate[i].Pending? ==> IsPending(w, sid, s.room, i))
            && (w.pubs == map[] && w.panics == 0 ==> forall i <- s.fate :: s.fate[i] == Delivered || s.fate[i].Dropped?)
  {
    hide Next, SubOk, RoomIn;
    RunKeeps(steps);
    var w := Run(steps);
    var s := w.subs[sid];
    assert SubIn(w, sid) && PendingOk(sid, s, w.pubs) && RoomIn(w, s.room);
    RoomEvents(w, s.room);
    QueueView(s, w.hub.channels[sid], Log(w, s.room), sid in w.hub.rooms[s.room].subscribers);
  }

  lemma RoomEvents(w: World, room: string)
    requires RoomIn(w, room)
    ensures forall i :: 0 <= i < |Log(w, room)| ==> Log(w, room)[i].room == room
  {}

  lemma QueueView(s: Sub, c: Channel, log: seq<ChatEvent>, member: bool)
    requires SubOk(s, c, log, member)
    ensures s.joined <= |log| && s.snapshot == Recent(log[..s.joined]) && Distinct(Got(s, c))
    ensures forall p <- Got(s, c) :: s.joined <= p.index < End(s, log) <= |log| && p.event == log[p.index]
    ensures forall i: nat :: i in s.fate <==> s.joined <= i < End(s, log)
    ensures forall i <- s.fate :: s.fate[i] == Delivered <==> i in Indices(Got(s, c))
    ensures forall i <- s.fate :: s.fate[i].Dropped? ==> |s.fate[i].queue| == QUEUE_LIMIT
  {
    hide Recent;
    var got := Got(s, c);
    forall p | p in got ensures s.joined <= p.index < End(s, log) <= |log| && p.event == log[p.index] {
      var j :| 0 <= j < |got| && got[j] == p;
    }
    forall i | i in s.fate ensures s.fate[i] == Delivered <==> i in Indices(got) {
      if s.fate[i] == Delivered {
        assert Holds(got, i);
        var j :| 0 <= j < |got| && got[j].index == i;
        assert got[j] in got;
      }
      if i in Indices(got) {
        var p :| p in got && p.index == i;
        var j :| 0 <= j < |got| && got[j] == p;
      }
    }
  }

  /** The history of a room is exactly its last 120 events in publishing order, after every run. */
  lemma HistoryIsRecent(steps: seq<Step>, room: string)
    ensures var w := Run(steps);
            var log, history := Log(w, room), RoomOf(w.hub, room).history;
            && history == Recent(log)
            && |history| == (if |log| < 120 then |log| else 120)
            && (forall k :: 0 <= k < |history| ==>
                  history[k].index == |log| - |history| + k && history[k].event == log[history[k].index])
            && forall i :: 0 <= i < |Log(w, room)| ==> Log(w, room)[i].room == room
  {
    hide Run, SubIn, PubIn, PendingOk;
    RunKeeps(steps);
    assert RoomIn(Run(steps), room);
  }

  /** Events are lost to a panic only if some subscriber has left. */
  lemma LossNeedsLeaving(steps: seq<Step>)
    requires !SomeoneLeft(Run(steps))
    ensures Run(steps).panics == 0 && NothingLost(Run(steps))
  {
    hide Run, SubIn, PubIn, RoomIn, PendingOk;
    RunKeeps(steps);
  }

  // ---------------------------------------------------------------- publishing without overlap

  /** No publisher enters a room while another is still sending in it. */
  predicate NoOverlap(steps: seq<Step>)
  {
    forall n :: 0 <= n < |steps| && steps[n].Publish? ==> RoomIdle(Run(steps[..n]), RoomName(steps[n].name))
  }

  predicate RoomIdle(w: World, room: string) { forall pid <- w.pubs :: w.pubs[pid].room != room }

  predicate Increasing(got: seq<Posted>)
  {
    forall j, k :: 0 <= j < k < |got| ==> got[j].index < got[k].index
  }

  ghost predicate InOrder(w: World)
  {
    && (forall sid <- w.subs :: sid in w.hub.channels && Increasing(Got(w.subs[sid], w.hub.channels[sid])))
    && (forall pid <- w.pubs :: w.pubs[pid].posted.index == |Log(w, w.pubs[pid].room)| - 1)
  }

  lemma NewestLast(s: Sub, c: Channel, log: seq<ChatEvent>, member: bool, p: Posted)
    requires SubOk(s, c, log, member) && Increasing(Got(s, c))
    requires p.index == |log| - 1 && p.index in s.fate && s.fate[p.index].Pending?
    ensures Increasing(s.received + (c.queue + [p]))
  {
    hide Recent;
    var got := Got(s, c);
    assert s.received + (c.queue + [p]) == got + [p];
    forall j | 0 <= j < |got| ensures got[j].index < p.index {
      assert s.fate[got[j].index] == Delivered;
    }
  }

  lemma DeliveredInOrder(w: World, pid: nat, sid: string)
    requires pid in w.pubs && sid in w.pubs[pid].targets && sid in w.hub.channels && sid in w.subs
    requires PubIn(w, pid) && SubIn(w, sid) && InOrder(w)
    ensures Increasing(Got(DoDeliver(w, pid, sid).subs[sid], DoDeliver(w, pid, sid).hub.channels[sid]))
  {
    hide SubOk;
    TargetKnown(w, pid, sid);
    var s, c := w.subs[sid], w.hub.channels[sid];
    assert Increasing(Got(s, c));
    NewestLast(s, c, Log(w, s.room), sid in w.hub.rooms[s.room].subscribers, w.pubs[pid].posted);
  }

  lemma DeliverInOrder(w: World, pid: nat, sid: string)
    requires pid in w.pubs && sid in w.pubs[pid].targets && sid in w.hub.channels && sid in w.subs
    requires PubIn(w, pid) && SubIn(w, sid) && InOrder(w)
    ensures InOrder(DoDeliver(w, pid, sid))
  {
    DeliveredInOrder(w, pid, sid);
    hide SubIn, PubIn;
    var w' := DoDeliver(w, pid, sid);
    forall x | x in w'.subs
      ensures x in w'.hub.channels && Increasing(Got(w'.subs[x], w'.hub.channels[x]))
    {
      assert Increasing(Got(w.subs[x], w.hub.channels[x]));
    }
  }

  lemma SubscribeInOrder(w: World, room: string, sid: string)
    requires InOrder(w) && sid !in w.subs
    ensures InOrder(DoSubscribe(w, room, sid))
  {
    hide RoomOf;
    var w' := DoSubscribe(w, room, sid);
    forall x | x in w'.subs
      ensures x in w'.hub.channels && Increasing(Got(w'.subs[x], w'.hub.channels[x]))
    {
      assert x != sid ==> Increasing(Got(w.subs[x], w.hub.channels[x]));
    }
  }

  lemma PublishInOrder(w: World, room: string, pid: nat, event: ChatEvent)
    requires InOrder(w) && pid !in w.pubs && RoomIdle(w, room)
    ensures InOrder(DoPublish(w, room, pid, event))
  {
    hide RoomOf, LastOf, Increasing;
    var w' := DoPublish(w, room, pid, event);
    forall x | x in w'.subs
      ensures x in w'.hub.channels && Increasing(Got(w'.subs[x], w'.hub.channels[x]))
    {
      assert Increasing(Got(w.subs[x], w.hub.channels[x]));
    }
  }

  lemma ReceiveInOrder(w: World, sid: string)
    requires InOrder(w) && sid in w.hub.channels && sid in w.subs && w.hub.channels[sid].queue != []
    ensures InOrder(DoReceive(w, sid))
  {
    hide Increasing;
    var w' := DoReceive(w, sid);
    assert Got(w'.subs[sid], w'.hub.channels[sid]) == Got(w.subs[sid], w.hub.channels[sid]);
    forall x | x in w'.subs
      ensures x in w'.hub.channels && Increasing(Got(w'.subs[x], w'.hub.channels[x]))
    {
      assert Increasing(Got(w.subs[x], w.hub.channels[x]));
    }
  }

  lemma LeaveInOrder(w: World, sid: string)
    requires InOrder(w) && sid in w.subs
    ensures InOrder(DoUnsubscribe(w, sid))
  {
    hide Increasing;
    var w' := DoUnsubscribe(w, sid);
    forall x | x in w'.subs
      ensures x in w'.hub.channels && Increasing(Got(w'.subs[x], w'.hub.channels[x]))
    {
      assert Increasing(Got(w.subs[x], w.hub.channels[x]));
    }
  }

  lemma NextInOrder(w: World, step: Step)
    requires Inv(w) && InOrder(w)
    requires step.Publish? ==> RoomIdle(w, RoomName(step.name))
    ensures InOrder(Next(w, step))
  {
    hide InOrder, SubIn, PubIn, RoomIn, PendingOk, DoSubscribe, DoPublish, DoDeliver, DoReceive, DoUnsubscribe;
    match step
    case Subscribe(name, sid) =>
      if sid !in w.subs {
        SubscribeInOrder(w, RoomName(name), sid);
      }
    case Publish(name, pid, event) =>
      if pid !in w.pubs {
        PublishInOrder(w, RoomName(name), pid, event);
      }
    case Deliver(pid, sid) =>
      if pid in w.pubs && sid in w.pubs[pid].targets && sid in w.hub.channels && sid in w.subs {
        DeliverInOrder(w, pid, sid);
      }
    case Receive(sid) =>
      if sid in w.hub.channels && sid in w.subs && w.hub.channels[sid].queue != [] {
        ReceiveInOrder(w, sid);
      }
    case Unsubscribe(sid) =>
      if sid in w.subs {
        LeaveInOrder(w, sid);
      }
  }

  lemma NoOverlapBefore(steps: seq<Step>)
    requires NoOverlap(steps) && steps != []
    ensures var n := |steps| - 1;
            NoOverlap(steps[..n]) && (steps[n].Publish? ==> RoomIdle(Run(steps[..n]), RoomName(steps[n].name)))
  {
    hide Run, RoomIdle;
    var before := steps[..|steps| - 1];
    assert forall m :: 0 <= m < |before| ==> before[..m] == steps[..m];
  }

  lemma {:induction false} RunInOrder(steps: seq<Step>)
    requires NoOverlap(steps)
    ensures InOrder(Run(steps))
    decreases |steps|
  {
    hide Inv, InOrder, Next, NoOverlap;
    if steps == [] {
      StartInOrder();
    } else {
      var n := |steps| - 1;
      NoOverlapBefore(steps);
      RunInOrder(steps[..n]);
      RunKeeps(steps[..n]);
      NextInOrder(Run(steps[..n]), steps[n]);
    }
  }

  lemma StartInOrder()
    ensures InOrder(START)
  {}

  /** When publishers do not overlap in a room, what a subscriber has seen - its snapshot, then
      what it received, then what is queued - is a subsequence of the room's log: in publishing
      order and without repetitions. */
  lemma SubsequenceOfLog(steps: seq<Step>, sid: string)
    requires NoOverlap(steps) && sid in Run(steps).subs
    ensures var w := Run(steps);
            sid in w.hub.channels &&
            var s := w.subs[sid];
            var seen := s.snapshot + Got(s, w.hub.channels[sid]);
            Increasing(seen) && forall p <- seen :: p.index < |Log(w, s.room)| && p.event == Log(w, s.room)[p.index]
  {
    hide Run, Recent;
    RunInOrder(steps);
    ExactlyOneRoute(steps, sid);
    var w := Run(steps);
    var s := w.subs[sid];
    RecentFacts(Log(w, s.room), s.joined);
    Concatenated(s.snapshot, Got(s, w.hub.channels[sid]), s.joined);
  }

  lemma RecentFacts(log: seq<ChatEvent>, n: nat)
    requires n <= |log|
    ensures Increasing(Recent(log[..n]))
    ensures forall p <- Recent(log[..n]) :: p.index < n && p.event == log[p.index]
  {}

  lemma Concatenated(a: seq<Posted>, b: seq<Posted>, n: nat)
    requires Increasing(a) && Increasing(b)
    requires (forall p <- a :: p.index < n) && (forall p <- b :: n <= p.index)
    ensures Increasing(a + b)
  {
    assert forall j :: 0 <= j < |a| ==> a[j] in a;
    assert forall j :: 0 <= j < |b| ==> b[j] in b;
  }

  /** When publishers do overlap, the order of their sends decides: whoever sends first is first in
      the queue, even if it published last. */
  lemma OverlapReorders(steps: seq<Step>, first: nat, second: nat, sid: string)
    requires var w := Run(steps);
             && first in w.pubs && second in w.pubs && sid in w.pubs[first].targets && sid in w.pubs[second].targets
             && w.pubs[first].posted.index < w.pubs[second].posted.index
             && sid in w.hub.channels && w.hub.channels[sid].open && |w.hub.channels[sid].queue| + 2 <= QUEUE_LIMIT
    ensures var w := Run(steps);
            var w' := Run(steps + [Deliver(second, sid)] + [Deliver(first, sid)]);
            sid in w'.hub.channels && sid in w'.subs &&
            w'.hub.channels[sid].queue == w.hub.channels[sid].queue + [w.pubs[second].posted, w.pubs[first].posted] &&
            !Increasing(Got(w'.subs[sid], w'.hub.channels[sid]))
  {
    hide Run, Next, DoDeliver, Increasing;
    var w := Run(steps);
    var one, two := steps + [Deliver(second, sid)], steps + [Deliver(second, sid)] + [Deliver(first, sid)];
    Targeted(steps, first, sid);
    RunOne(steps, Deliver(second, sid));
    SendQueues(w, second, sid);
    var w1 := Run(one);
    RunOne(one, Deliver(first, sid));
    SendQueues(w1, first, sid);
    var w2 := Run(two);
    var p, q := w.pubs[first].posted, w.pubs[second].posted;
    assert w2.hub.channels[sid].queue == w.hub.channels[sid].queue + [q, p];
    Inverted(w2.subs[sid].received + w.hub.channels[sid].queue, q, p);
    assert Got(w2.subs[sid], w2.hub.channels[sid]) == w2.subs[sid].received + w.hub.channels[sid].queue + [q, p];
  }

  lemma Inverted(got: seq<Posted>, q: Posted, p: Posted)
    requires p.index < q.index
    ensures !Increasing(got + [q, p])
  {
    var all := got + [q, p];
    assert all[|got|] == q && all[|got| + 1] == p;
  }

  lemma Targeted(steps: seq<Step>, pid: nat, sid: string)
    requires pid in Run(steps).pubs && sid in Run(steps).pubs[pid].targets
    ensures sid in Run(steps).subs
  {
    RunKeeps(steps);
    var w := Run(steps);
    assert PubIn(w, pid);
    TargetKnown(w, pid, sid);
  }

  lemma RunOne(steps: seq<Step>, step: Step)
    ensures Run(steps + [step]) == Next(Run(steps), step)
  {
    hide Next;
    assert (steps + [step])[..|steps|] == steps;
  }

  lemma SendQueues(w: World, pid: nat, sid: string)
    requires pid in w.pubs && sid in w.pubs[pid].targets && sid in w.hub.channels && sid in w.subs
    requires w.hub.channels[sid].open && |w.hub.channels[sid].queue| < QUEUE_LIMIT
    ensures var w' := Next(w, Deliver(pid, sid));
            && sid in w'.subs && w'.subs[sid].received == w.subs[sid].received
            && sid in w'.hub.channels
            && w'.hub.channels[sid] == w.hub.channels[sid].(queue := w.hub.channels[sid].queue + [w.pubs[pid].posted])
            && forall q <- w.pubs :: q != pid ==> q in w'.pubs && w'.pubs[q] == w.pubs[q]
  {}

  /** A send panics exactly when its subscriber has left since the publisher copied the list, and
      then nobody left on that list gets the event. */
  lemma PanicExactly(steps: seq<Step>, pid: nat, sid: string)
    requires var w := Run(steps); pid in w.pubs && sid in w.pubs[pid].targets
    ensures var w, w' := Run(steps), Run(steps + [Deliver(pid, sid)]);
            && sid in w.subs
            && (w'.panics == w.panics + 1 <==> w.subs[sid].left.Some?)
            && (w.subs[sid].left.Some? ==>
                  pid !in w'.pubs &&
                  forall x <- w.pubs[pid].targets ::
                    x in w'.subs && w.pubs[pid].posted.index in w'.subs[x].fate &&
                    w'.subs[x].fate[w.pubs[pid].posted.index] == Lost)
  {
    hide SubIn, RoomIn, PendingOk, PubOk;
    RunKeeps(steps);
    var w := Run(steps);
    assert PubIn(w, pid);
    TargetKnown(w, pid, sid);
    OpenExactly(w, sid);
    RunOne(steps, Deliver(pid, sid));
    forall x | x in w.pubs[pid].targets ensures x in w.subs {
      TargetKnown(w, pid, x);
    }
  }

  lemma OpenExactly(w: World, sid: string)
    requires sid in w.subs && SubIn(w, sid)
    ensures sid in w.hub.channels && (w.hub.channels[sid].open <==> w.subs[sid].left.None?)
  {}
}
