/** The chat hub of examples/streaming-demo/main.go: rooms with a sliding history, a snapshot of
    it for every new subscriber, and bounded queues that drop what does not fit.  Publishing takes
    the hub's lock once, to record the event and copy the list of subscribers, and sends after
    releasing it. */
module ChatHub {
  import opened Options

  const HISTORY_LIMIT: nat := 120
  const QUEUE_LIMIT: nat := 32

  datatype ChatEvent = ChatEvent(id: string, kind: string, room: string, sender: string,
                                 clientId: string, text: string, sentAt: int)

  /** An event with its position in its room's publishing order.  No branch looks at the position;
      it is how the theorems tell one event from another with the same text. */
  datatype Posted = Posted(index: nat, event: ChatEvent)

  datatype Channel = Channel(queue: seq<Posted>, open: bool)

  datatype Room = Room(history: seq<Posted>, subscribers: set<string>)

  datatype Hub = Hub(rooms: map<string, Room>, channels: map<string, Channel>)

  const EMPTY_ROOM := Room([], {})

  /** normalizeRoomName, after trimming and lower-casing. */
  function RoomName(cleaned: string): string { if cleaned == "" then "lounge" else cleaned }

  function RoomOf(h: Hub, room: string): Room { if room in h.rooms then h.rooms[room] else EMPTY_ROOM }

  function LastOf(history: seq<Posted>): seq<Posted>
  {
    if |history| > HISTORY_LIMIT then history[|history| - HISTORY_LIMIT..] else history
  }

  function Subscribed(h: Hub, room: string, sid: string): Hub
  {
    var r := RoomOf(h, room);
    Hub(h.rooms[room := r.(subscribers := r.subscribers + {sid})], h.channels[sid := Channel([], true)])
  }

  function Recorded(h: Hub, room: string, p: Posted): Hub
  {
    var r := RoomOf(h, room);
    h.(rooms := h.rooms[room := r.(history := LastOf(r.history + [p]))])
  }

  datatype Offer = Sent | Full | Closed

  /** A non-blocking send; on a closed channel it panics. */
  function Offered(c: Channel, p: Posted): (Channel, Offer)
  {
    if !c.open then (c, Closed)
    else if |c.queue| < QUEUE_LIMIT then (c.(queue := c.queue + [p]), Sent)
    else (c, Full)
  }

  function Unsubscribed(h: Hub, room: string, sid: string): Hub
  {
    if room in h.rooms && sid in h.rooms[room].subscribers && sid in h.channels then
      var r := h.rooms[room];
      Hub(h.rooms[room := r.(subscribers := r.subscribers - {sid})], h.channels[sid := h.channels[sid].(open := false)])
    else h
  }

  // ---------------------------------------------------------------- the code

  class ChatHub {
    var rooms: map<string, Room>
    var channels: map<string, Channel>

    ghost function State(): Hub reads this { Hub(rooms, channels) }

    constructor ()
      ensures State() == Hub(map[], map[])
    {
      rooms, channels := map[], map[];
    }

    method EnsureRoomLocked(room: string) returns (r: Room)
      modifies this`rooms
      ensures r == RoomOf(old(State()), room)
      ensures r == if room in old(rooms) then old(rooms)[room] else Room([], {})
      ensures rooms == old(rooms)[room := r]
    {
      if room in rooms {
        r := rooms[room];
        assert rooms == rooms[room := r];
        return;
      }
      r := Room([], {});
      rooms := rooms[room := r];
    }

    method Subscribe(name: string, sid: string) returns (history: seq<Posted>)
      modifies this
      ensures State() == Subscribed(old(State()), RoomName(name), sid)
      ensures history == RoomOf(old(State()), RoomName(name)).history
      ensures var room := if name == "" then "lounge" else name;
              && history == (if room in old(rooms) then old(rooms)[room].history else [])
              && room in rooms && rooms[room].history == history
              && rooms[room].subscribers == (if room in old(rooms) then old(rooms)[room].subscribers else {}) + {sid}
              && rooms.Keys == old(rooms).Keys + {room}
              && (forall other <- old(rooms) :: other != room ==> rooms[other] == old(rooms)[other])
              && channels == old(channels)[sid := Channel([], true)]
    {
      var room := RoomName(name);
      var r := EnsureRoomLocked(room);
      channels := channels[sid := Channel([], true)];
      rooms := rooms[room := r.(subscribers := r.subscribers + {sid})];
      history := r.history;
      assert rooms == old(rooms)[room := rooms[room]];
    }

    /** The locked part of publish; the copied subscriber list is returned. */
    method PublishLocked(name: string, p: Posted) returns (targets: set<string>)
      modifies this`rooms
      ensures State() == Recorded(old(State()), RoomName(name), p.(event := p.event.(room := RoomName(name))))
      ensures targets == RoomOf(old(State()), RoomName(name)).subscribers
      ensures var room := if name == "" then "lounge" else name;
              var before := if room in old(rooms) then old(rooms)[room] else Room([], {});
              var after := before.history + [Posted(p.index, p.event.(room := room))];
              && room in rooms && rooms[room].subscribers == before.subscribers == targets
              && rooms[room].history == (if |after| > 120 then after[|after| - 120..] else after)
              && rooms.Keys == old(rooms).Keys + {room}
              && (forall other <- old(rooms) :: other != room ==> rooms[other] == old(rooms)[other])
    {
      var room := RoomName(name);
      var posted := p.(event := p.event.(room := room));
      var r := EnsureRoomLocked(room);
      var history := r.history + [posted];
      if |history| > HISTORY_LIMIT {
        history := history[|history| - HISTORY_LIMIT..];
      }
      rooms := rooms[room := r.(history := history)];
      targets := r.subscribers;
      assert rooms == old(rooms)[room := rooms[room]];
    }

    /** One round of the sending loop. */
    method Send(sid: string, p: Posted) returns (r: Offer)
      requires sid in channels
      modifies this`channels
      ensures r == Offered(old(channels[sid]), p).1
      ensures channels == old(channels)[sid := Offered(old(channels[sid]), p).0]
      ensures r == Sent <==> old(channels[sid]).open && |old(channels[sid]).queue| < 32
      ensures r == Full <==> old(channels[sid]).open && |old(channels[sid]).queue| >= 32
      ensures r == Sent ==> channels[sid] == Channel(old(channels[sid]).queue + [p], true)
      ensures r != Sent ==> channels == old(channels)
    {
      var c := channels[sid];
      if !c.open {
        assert channels == channels[sid := c];
        return Closed;
      }
      if |c.queue| < QUEUE_LIMIT {
        channels := channels[sid := c.(queue := c.queue + [p])];
        return Sent;
      }
      assert channels == channels[sid := c];
      return Full;
    }

    /** publish with nobody interfering between its lock phase and the end of its loop: every
        subscriber's channel is offered the event once, in any order; a closed channel would end
        the loop. */
    method Publish(name: string, p: Posted) returns (panicked: bool)
      requires RoomOf(State(), RoomName(name)).subscribers <= channels.Keys
      modifies this
      ensures rooms == Recorded(old(State()), RoomName(name), p.(event := p.event.(room := RoomName(name)))).rooms
      ensures panicked <==> exists sid :: sid in RoomOf(old(State()), RoomName(name)).subscribers && !old(channels)[sid].open
      ensures channels.Keys == old(channels).Keys
      ensures forall sid <- channels ::
                var c := old(channels)[sid];
                var offered := Offered(c, p.(event := p.event.(room := RoomName(name)))).0;
                if sid !in RoomOf(old(State()), RoomName(name)).subscribers then channels[sid] == c
                else if panicked then channels[sid] == c || channels[sid] == offered
                else channels[sid] == offered
    {
      var posted := p.(event := p.event.(room := RoomName(name)));
      var targets := PublishLocked(name, p);
      ghost var all := targets;
      while targets != {}
        invariant targets <= all <= channels.Keys && channels.Keys == old(channels).Keys
        invariant rooms == Recorded(old(State()), RoomName(name), posted).rooms
        invariant forall sid <- all - targets :: old(channels)[sid].open
        invariant forall sid <- channels ::
                    channels[sid] == if sid in all - targets then Offered(old(channels)[sid], posted).0 else old(channels)[sid]
        decreases targets
      {
        var sid :| sid in targets;
        var r := Send(sid, posted);
        if r == Closed {
          return true;
        }
        targets := targets - {sid};
      }
      panicked := false;
    }

    method Unsubscribe(room: string, sid: string)
      modifies this
      ensures State() == Unsubscribed(old(State()), room, sid)
      ensures rooms.Keys == old(rooms).Keys && channels.Keys == old(channels).Keys
      ensures forall other <- rooms :: rooms[other] == if other != room || sid !in channels then old(rooms)[other]
                else old(rooms)[room].(subscribers := old(rooms)[room].subscribers - {sid})
      ensures forall other <- channels :: channels[other] ==
                if other == sid && room in old(rooms) && sid in old(rooms)[room].subscribers
                then old(channels)[sid].(open := false) else old(channels)[other]
    {
      if room in rooms {
        var r := rooms[room];
        if sid in r.subscribers && sid in channels {
          rooms := rooms[room := r.(subscribers := r.subscribers - {sid})];
          channels := channels[sid := channels[sid].(open := false)];
        }
      }
    }
  }
}
