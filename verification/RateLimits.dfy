/** middleware/ratelimit.go: a table of token buckets, one per client key, pruned in the
    background.  Time is in seconds and, like the rate and the tokens, a real number.  A bucket is
    what the token-bucket library documents: it starts full, refills linearly and holds at most
    the burst. */
module RateLimits {
  datatype Config = Config(rate: real, burst: int, cleanupInterval: real, idleTimeout: real)

  function SetDefaults(c: Config): Config
  {
    var burst := if c.burst != 0 then c.burst else if c.rate.Floor < 1 then 1 else c.rate.Floor;
    Config(c.rate, burst,
           if c.cleanupInterval == 0.0 then 300.0 else c.cleanupInterval,
           if c.idleTimeout == 0.0 then 600.0 else c.idleTimeout)
  }

  datatype Bucket = Bucket(tokens: real, last: real)

  datatype Entry = Entry(limiter: Bucket, lastSeen: real)

  type Table = map<string, Entry>

  function Min(a: real, b: real): real { if a <= b then a else b }

  /** Tokens that arrive in a span of time. */
  function Gain(cfg: Config, span: real): real { cfg.rate * span }

  function Refilled(cfg: Config, b: Bucket, now: real): real { b.tokens + Gain(cfg, now - b.last) }

  /** Tokens in the bucket at a later time. */
  function Available(cfg: Config, b: Bucket, now: real): real { Min(cfg.burst as real, Refilled(cfg, b, now)) }

  /** Take one token, or leave the bucket alone. */
  function Take(cfg: Config, b: Bucket, now: real): (Bucket, bool)
  {
    var have := Available(cfg, b, now);
    if have >= 1.0 then (Bucket(have - 1.0, now), true) else (b, false)
  }

  function LimiterFor(cfg: Config, t: Table, key: string, now: real): Bucket
  {
    if key in t then t[key].limiter else Bucket(cfg.burst as real, now)
  }

  /** One request: its limiter is looked up or created full, and asked for a token. */
  function Admit(cfg: Config, t: Table, key: string, now: real): (Table, bool)
  {
    var (b, ok) := Take(cfg, LimiterFor(cfg, t, key, now), now);
    (t[key := Entry(b, now)], ok)
  }

  /** When a cleanup pass ends, and what the clock showed at each entry it came to before that. */
  datatype Clock = Clock(now: real, readings: map<string, real>)

  function At(clock: Clock, k: string): real { if k in clock.readings then clock.readings[k] else clock.now }

  predicate Timely(clock: Clock) { forall k <- clock.readings :: clock.readings[k] <= clock.now }

  /** One pass of the background cleanup. */
  function Pruned(cfg: Config, t: Table, clock: Clock): Table
  {
    map k | k in t && !(At(clock, k) - t[k].lastSeen > cfg.idleTimeout) :: t[k]
  }

  /** A cleanup pass ends at `clock.now`. */
  datatype Event = Request(key: string, now: real) | Cleanup(clock: Clock)

  function Time(e: Event): real { if e.Request? then e.now else e.clock.now }

  function Step(cfg: Config, evicting: bool, t: Table, e: Event): (Table, bool)
  {
    match e
    case Request(key, now) => Admit(cfg, t, key, now)
    case Cleanup(clock) => (if evicting then Pruned(cfg, t, clock) else t, false)
  }

  /** The table after these events, and for each event whether it admitted a request; with
      `evicting` off, cleanup does nothing. */
  function Exec(cfg: Config, evicting: bool, events: seq<Event>): (r: (Table, seq<bool>))
    ensures |r.1| == |events|
  {
    if events == [] then (map[], []) else
    var n := |events| - 1;
    var (t, vs) := Exec(cfg, evicting, events[..n]);
    var (t', v) := Step(cfg, evicting, t, events[n]);
    (t', vs + [v])
  }

  predicate Monotone(events: seq<Event>)
  {
    && (forall i, j :: 0 <= i < j < |events| ==> Time(events[i]) <= Time(events[j]))
    && (forall i :: 0 <= i < |events| && events[i].Cleanup? ==> Timely(events[i].clock))
  }

  predicate Sensible(cfg: Config) { cfg.rate >= 0.0 }

  /** An idle bucket is full by the time it may be evicted. */
  predicate RefillsWhileIdle(cfg: Config) { cfg.idleTimeout * cfg.rate >= cfg.burst as real }

  // ---------------------------------------------------------------- arithmetic

  lemma GainFacts(cfg: Config, a: real, b: real)
    requires Sensible(cfg) && a <= b
    ensures Gain(cfg, b) == Gain(cfg, a) + Gain(cfg, b - a)
    ensures Gain(cfg, b - a) >= 0.0
    ensures Gain(cfg, 0.0) == 0.0
  {}

  lemma RefillLater(cfg: Config, b: Bucket, now: real, later: real)
    requires Sensible(cfg) && now <= later
    ensures Refilled(cfg, b, later) == Refilled(cfg, b, now) + Gain(cfg, later - now)
    ensures Refilled(cfg, b, later) >= Refilled(cfg, b, now)
  {
    GainFacts(cfg, now - b.last, later - b.last);
    assert (later - b.last) - (now - b.last) == later - now;
  }

  // ---------------------------------------------------------------- eviction is unobservable

  predicate Full(cfg: Config, t: Table, k: string, now: real)
  {
    k in t ==> Refilled(cfg, t[k].limiter, now) >= cfg.burst as real
  }

  /** The same bucket, or two buckets nobody can tell from a full one. */
  predicate Alike(cfg: Config, a: Table, b: Table, k: string, now: real)
  {
    || (k in a && k in b && a[k].limiter == b[k].limiter)
    || (Full(cfg, a, k, now) && Full(cfg, b, k, now))
  }

  ghost predicate AllAlike(cfg: Config, a: Table, b: Table, now: real)
  {
    forall k :: Alike(cfg, a, b, k, now)
  }

  /** Buckets hold tokens that were really there, and are no younger than their entry. */
  predicate SoundEntry(cfg: Config, e: Entry, now: real)
  {
    && (0.0 <= e.limiter.tokens <= cfg.burst as real || e.limiter.tokens == cfg.burst as real)
    && e.limiter.last <= e.lastSeen <= now
  }

  predicate SoundTable(cfg: Config, t: Table, now: real)
  {
    forall k <- t :: SoundEntry(cfg, t[k], now)
  }

  lemma AlikeLater(cfg: Config, a: Table, b: Table, now: real, later: real)
    requires Sensible(cfg) && now <= later && AllAlike(cfg, a, b, now)
    ensures AllAlike(cfg, a, b, later)
  {
    forall k ensures Alike(cfg, a, b, k, later) {
      assert Alike(cfg, a, b, k, now);
      if k in a {
        RefillLater(cfg, a[k].limiter, now, later);
      }
      if k in b {
        RefillLater(cfg, b[k].limiter, now, later);
      }
    }
  }

  lemma AdmitAlike(cfg: Config, a: Table, b: Table, key: string, now: real)
    requires AllAlike(cfg, a, b, now)
    ensures Admit(cfg, a, key, now).1 == Admit(cfg, b, key, now).1
    ensures AllAlike(cfg, Admit(cfg, a, key, now).0, Admit(cfg, b, key, now).0, now)
  {
    assert Alike(cfg, a, b, key, now);
    var x, y := LimiterFor(cfg, a, key, now), LimiterFor(cfg, b, key, now);
    assert Available(cfg, x, now) == Available(cfg, y, now);
    var a', b' := Admit(cfg, a, key, now).0, Admit(cfg, b, key, now).0;
    forall k ensures Alike(cfg, a', b', k, now) {
      assert Alike(cfg, a, b, k, now);
    }
  }

  lemma PruneKeepsAlike(cfg: Config, a: Table, b: Table, clock: Clock)
    requires Sensible(cfg) && RefillsWhileIdle(cfg)
    requires Timely(clock) && AllAlike(cfg, a, b, clock.now) && SoundTable(cfg, a, clock.now)
    ensures AllAlike(cfg, Pruned(cfg, a, clock), b, clock.now)
  {
    forall k ensures Alike(cfg, Pruned(cfg, a, clock), b, k, clock.now) {
      assert Alike(cfg, a, b, k, clock.now);
      if k in a && At(clock, k) - a[k].lastSeen > cfg.idleTimeout {
        IdleIsFull(cfg, a[k], clock.now);
      }
    }
  }

  lemma IdleIsFull(cfg: Config, e: Entry, now: real)
    requires Sensible(cfg) && RefillsWhileIdle(cfg) && SoundEntry(cfg, e, now)
    requires now - e.lastSeen > cfg.idleTimeout
    ensures Refilled(cfg, e.limiter, now) >= cfg.burst as real
  {
    var idle := now - e.limiter.last;
    GainFacts(cfg, cfg.idleTimeout, idle);
    GainFacts(cfg, 0.0, idle);
    assert idle - 0.0 == idle;
  }

  lemma SoundStep(cfg: Config, evicting: bool, t: Table, e: Event, before: real)
    requires Sensible(cfg) && SoundTable(cfg, t, before) && before <= Time(e)
    ensures SoundTable(cfg, Step(cfg, evicting, t, e).0, Time(e))
  {
    if e.Request? && e.key in t {
      var b := t[e.key].limiter;
      assert SoundEntry(cfg, t[e.key], before);
      RefillLater(cfg, b, b.last, Time(e));
    }
  }

  lemma {:induction false} TablesStayAlike(cfg: Config, events: seq<Event>)
    requires Sensible(cfg) && RefillsWhileIdle(cfg) && Monotone(events) && events != []
    ensures var (a, va) := Exec(cfg, true, events);
            var (b, vb) := Exec(cfg, false, events);
            va == vb && AllAlike(cfg, a, b, Time(events[|events| - 1])) && SoundTable(cfg, a, Time(events[|events| - 1]))
    decreases |events|
  {
    var n := |events| - 1;
    var e, before := events[n], events[..n];
    var (a, va) := Exec(cfg, true, before);
    var (b, vb) := Exec(cfg, false, before);
    var was := if n == 0 then Time(e) else Time(events[n - 1]);
    if n > 0 {
      TablesStayAlike(cfg, before);
    } else {
      assert a == map[] && b == map[];
    }
    assert AllAlike(cfg, a, b, was) && SoundTable(cfg, a, was) && va == vb;
    AlikeLater(cfg, a, b, was, Time(e));
    SoundStep(cfg, true, a, e, was);
    match e
    case Request(key, now) =>
      AdmitAlike(cfg, a, b, key, now);
    case Cleanup(clock) =>
      SoundTableLater(cfg, a, was, clock.now);
      PruneKeepsAlike(cfg, a, b, clock);
  }

  lemma SoundTableLater(cfg: Config, t: Table, now: real, later: real)
    requires SoundTable(cfg, t, now) && now <= later
    ensures SoundTable(cfg, t, later)
  {
    forall k | k in t ensures SoundEntry(cfg, t[k], later) {
      assert SoundEntry(cfg, t[k], now);
    }
  }

  // ---------------------------------------------------------------- the admission bound

  /** Requests of this key admitted in the window [from, to]. */
  function Admitted(events: seq<Event>, verdicts: seq<bool>, key: string, from: real, to: real): nat
    requires |events| == |verdicts|
  {
    if events == [] then 0 else
    var n := |events| - 1;
    Admitted(events[..n], verdicts[..n], key, from, to) +
    (if events[n].Request? && events[n].key == key && from <= Time(events[n]) <= to && verdicts[n] then 1 else 0)
  }

  function Held(cfg: Config, t: Table, key: string, now: real): real
  {
    if key in t then Available(cfg, t[key].limiter, now) else cfg.burst as real
  }

  lemma HeldLater(cfg: Config, t: Table, key: string, now: real, later: real)
    requires Sensible(cfg) && now <= later
    ensures Held(cfg, t, key, later) <= Held(cfg, t, key, now) + Gain(cfg, later - now)
  {
    GainFacts(cfg, now, later);
    if key in t {
      RefillLater(cfg, t[key].limiter, now, later);
    }
  }

  /** What was admitted since `from` and what is still in the bucket are paid for by the burst and
      the refill since `from`. */
  lemma {:induction false} Balance(cfg: Config, events: seq<Event>, key: string, from: real)
    requires Sensible(cfg) && Monotone(events) && events != [] && from <= Time(events[|events| - 1])
    ensures var (t, vs) := Exec(cfg, false, events);
            var now := Time(events[|events| - 1]);
            Admitted(events, vs, key, from, now) as real + Held(cfg, t, key, now)
            <= cfg.burst as real + Gain(cfg, now - from)
    decreases |events|
  {
    hide Gain, Held, Step;
    var n := |events| - 1;
    var e, before, now := events[n], events[..n], Time(events[n]);
    var (t, vs) := Exec(cfg, false, before);
    var v := Step(cfg, false, t, e).1;
    assert (vs + [v])[..n] == vs;
    var spent := Admitted(before, vs, key, from, now) as real;
    GainFacts(cfg, from, now);
    if n > 0 && from <= Time(events[n - 1]) {
      var was := Time(events[n - 1]);
      Balance(cfg, before, key, from);
      SameWindow(before, vs, key, from, was, now);
      HeldLater(cfg, t, key, was, now);
      GainFacts(cfg, was - from, now - from);
      assert (now - from) - (was - from) == now - was;
    } else {
      NothingYet(before, vs, key, from, now);
      HeldAtMost(cfg, t, key, now);
    }
    assert spent + Held(cfg, t, key, now) <= cfg.burst as real + Gain(cfg, now - from);
    HeldAfter(cfg, t, e, key);
  }

  lemma HeldAtMost(cfg: Config, t: Table, key: string, now: real)
    ensures Held(cfg, t, key, now) <= cfg.burst as real
  {}

  lemma HeldAfter(cfg: Config, t: Table, e: Event, key: string)
    ensures var (t', v) := Step(cfg, false, t, e);
            Held(cfg, t', key, Time(e)) ==
            Held(cfg, t, key, Time(e)) - (if e.Request? && e.key == key && v then 1.0 else 0.0)
  {
    assert Gain(cfg, Time(e) - Time(e)) == 0.0;
  }

  lemma {:induction false} SameWindow(events: seq<Event>, vs: seq<bool>, key: string, from: real, to: real, to': real)
    requires |events| == |vs| && to <= to' && forall e <- events :: Time(e) <= to
    ensures Admitted(events, vs, key, from, to) == Admitted(events, vs, key, from, to')
    decreases |events|
  {
    if events != [] {
      var n := |events| - 1;
      SameWindow(events[..n], vs[..n], key, from, to, to');
      assert events[n] in events;
    }
  }

  lemma {:induction false} NothingYet(events: seq<Event>, vs: seq<bool>, key: string, from: real, to: real)
    requires |events| == |vs| && forall e <- events :: Time(e) < from
    ensures Admitted(events, vs, key, from, to) == 0
    decreases |events|
  {
    if events != [] {
      var n := |events| - 1;
      NothingYet(events[..n], vs[..n], key, from, to);
      assert events[n] in events;
    }
  }

  lemma {:induction false} NoneAdmitted(cfg: Config, evicting: bool, events: seq<Event>, key: string, from: real, to: real)
    requires cfg.burst < 1
    ensures Admitted(events, Exec(cfg, evicting, events).1, key, from, to) == 0
    decreases |events|
  {
    if events != [] {
      var n := |events| - 1;
      NoneAdmitted(cfg, evicting, events[..n], key, from, to);
      assert Exec(cfg, evicting, events).1[..n] == Exec(cfg, evicting, events[..n]).1;
    }
  }

  lemma {:induction false} BoundNeverEvicting(cfg: Config, events: seq<Event>, key: string, from: real, width: real)
    requires Sensible(cfg) && Monotone(events) && width >= 0.0 && cfg.burst >= 1
    ensures Admitted(events, Exec(cfg, false, events).1, key, from, from + width) as real
            <= cfg.burst as real + Gain(cfg, width)
    decreases |events|
  {
    hide Gain, Held, Step;
    var vs := Exec(cfg, false, events).1;
    GainFacts(cfg, 0.0, width);
    if events != [] {
      var n := |events| - 1;
      var now := Time(events[n]);
      assert Exec(cfg, false, events[..n]).1 == vs[..n];
      if now > from + width || now < from {
        BoundNeverEvicting(cfg, events[..n], key, from, width);
      } else {
        Balance(cfg, events, key, from);
        SameWindow(events, vs, key, from, now, from + width);
        GainFacts(cfg, now - from, width);
        HeldNotNegative(cfg, events, key);
      }
    }
  }

  lemma {:induction false} SoundNeverEvicting(cfg: Config, events: seq<Event>)
    requires Sensible(cfg) && Monotone(events) && events != []
    ensures SoundTable(cfg, Exec(cfg, false, events).0, Time(events[|events| - 1]))
    decreases |events|
  {
    var n := |events| - 1;
    if n > 0 {
      SoundNeverEvicting(cfg, events[..n]);
      SoundStep(cfg, false, Exec(cfg, false, events[..n]).0, events[n], Time(events[n - 1]));
    } else {
      SoundStep(cfg, false, map[], events[0], Time(events[0]));
      assert events[..0] == [];
    }
  }

  lemma HeldNotNegative(cfg: Config, events: seq<Event>, key: string)
    requires Sensible(cfg) && Monotone(events) && events != [] && cfg.burst >= 0
    ensures Held(cfg, Exec(cfg, false, events).0, key, Time(events[|events| - 1])) >= 0.0
  {
    var t, now := Exec(cfg, false, events).0, Time(events[|events| - 1]);
    SoundNeverEvicting(cfg, events);
    if key in t {
      assert SoundEntry(cfg, t[key], now);
      RefillLater(cfg, t[key].limiter, t[key].limiter.last, now);
    }
  }

  function BurstSize(cfg: Config): real { if cfg.burst < 1 then 0.0 else cfg.burst as real }

  predicate WithinBound(cfg: Config, events: seq<Event>, verdicts: seq<bool>, key: string, from: real, width: real)
    requires |events| == |verdicts|
  {
    Admitted(events, verdicts, key, from, from + width) as real <= BurstSize(cfg) + Gain(cfg, width)
  }

  ghost predicate Bounded(cfg: Config, evicting: bool, events: seq<Event>)
  {
    forall key, from, width: real :: width >= 0.0 ==>
      WithinBound(cfg, events, Exec(cfg, evicting, events).1, key, from, width)
  }

  lemma NeverEvictingBounded(cfg: Config, events: seq<Event>)
    requires Sensible(cfg) && Monotone(events)
    ensures Bounded(cfg, false, events)
  {
    forall key, from, width: real | width >= 0.0
      ensures WithinBound(cfg, events, Exec(cfg, false, events).1, key, from, width)
    {
      if cfg.burst < 1 {
        NoneAdmitted(cfg, false, events, key, from, from + width);
        GainFacts(cfg, 0.0, width);
      } else {
        BoundNeverEvicting(cfg, events, key, from, width);
      }
    }
  }

  ghost predicate Unobservable(cfg: Config, events: seq<Event>)
  {
    Exec(cfg, true, events).1 == Exec(cfg, false, events).1
  }

  // ---------------------------------------------------------------- the other direction

  /** Spend the burst, let the entry be evicted, spend the burst again. */
  function Burst(key: string, n: nat, now: real): (es: seq<Event>)
    ensures |es| == n && forall i :: 0 <= i < n ==> es[i] == Request(key, now)
  {
    seq(n, i => Request(key, now))
  }

  lemma {:induction false} BurstAdmitted(cfg: Config, before: seq<Event>, key: string, n: nat, now: real)
    requires Sensible(cfg) && n <= cfg.burst
    requires key !in Exec(cfg, true, before).0
    ensures var (t, vs) := Exec(cfg, true, before + Burst(key, n, now));
            && vs == Exec(cfg, true, before).1 + seq(n, i => true)
            && (n > 0 ==> key in t && t[key] == Entry(Bucket((cfg.burst - n) as real, now), now))
            && t.Keys <= Exec(cfg, true, before).0.Keys + {key}
    decreases n
  {
    hide Exec, Admit;
    var es := before + Burst(key, n, now);
    if n == 0 {
      assert es == before;
    } else {
      BurstAdmitted(cfg, before, key, n - 1, now);
      var fewer := before + Burst(key, n - 1, now);
      var t := Exec(cfg, true, fewer).0;
      assert es == fewer + [Request(key, now)];
      assert n == 1 ==> fewer == before;
      ExecOne(cfg, true, fewer, Request(key, now));
      OneAdmitted(cfg, t, key, (cfg.burst - n + 1) as real, now);
      assert seq(n, i => true) == seq(n - 1, i => true) + [true];
    }
  }

  lemma ExecOne(cfg: Config, evicting: bool, events: seq<Event>, e: Event)
    ensures var (t, vs) := Exec(cfg, evicting, events);
            var (t', v) := Step(cfg, evicting, t, e);
            Exec(cfg, evicting, events + [e]) == (t', vs + [v])
  {
    assert (events + [e])[..|events|] == events;
  }

  lemma OneAdmitted(cfg: Config, t: Table, key: string, tokens: real, now: real)
    requires 1.0 <= tokens <= cfg.burst as real
    requires if key in t then t[key] == Entry(Bucket(tokens, now), now) else tokens == cfg.burst as real
    ensures Admit(cfg, t, key, now) == (t[key := Entry(Bucket(tokens - 1.0, now), now)], true)
  {
    assert Gain(cfg, now - now) == 0.0;
  }

  lemma {:induction false} AllCounted(events: seq<Event>, vs: seq<bool>, key: string, from: real, to: real)
    requires |events| == |vs|
    requires forall i :: 0 <= i < |events| ==> events[i].Request? ==> events[i].key == key && from <= Time(events[i]) <= to && vs[i]
    ensures Admitted(events, vs, key, from, to) == Requests(events)
    decreases |events|
  {
    if events != [] {
      AllCounted(events[..|events| - 1], vs[..|events| - 1], key, from, to);
    }
  }

  function Requests(events: seq<Event>): nat
  {
    if events == [] then 0 else Requests(events[..|events| - 1]) + (if events[|events| - 1].Request? then 1 else 0)
  }

  lemma {:induction false} RequestsAppend(a: seq<Event>, b: seq<Event>)
    ensures Requests(a + b) == Requests(a) + Requests(b)
    decreases |b|
  {
    if b == [] {
      assert a + b == a;
    } else {
      RequestsAppend(a, b[..|b| - 1]);
      assert (a + b)[..|a + b| - 1] == a + b[..|b| - 1];
    }
  }

  lemma {:induction false} RequestsInBurst(key: string, n: nat, now: real)
    ensures Requests(Burst(key, n, now)) == n
  {
    if n > 0 {
      RequestsInBurst(key, n - 1, now);
      assert Burst(key, n, now)[..n - 1] == Burst(key, n - 1, now);
    }
  }

  /** The pause after which the entry is stale but its bucket not full again. */
  function Pause(cfg: Config): (d: real)
    requires Sensible(cfg) && !RefillsWhileIdle(cfg)
  {
    if cfg.idleTimeout < 0.0 then 0.0
    else if cfg.rate == 0.0 then cfg.idleTimeout + 1.0
    else (cfg.idleTimeout + cfg.burst as real / cfg.rate) / 2.0
  }

  lemma PauseFacts(cfg: Config)
    requires Sensible(cfg) && !RefillsWhileIdle(cfg) && cfg.burst >= 1
    ensures Pause(cfg) >= 0.0 && Pause(cfg) > cfg.idleTimeout && Gain(cfg, Pause(cfg)) < cfg.burst as real
  {
    if cfg.idleTimeout >= 0.0 && cfg.rate > 0.0 {
      var full := cfg.burst as real / cfg.rate;
      assert full * cfg.rate == cfg.burst as real;
      assert (full - cfg.idleTimeout) * cfg.rate > 0.0;
      PositiveFactor(full - cfg.idleTimeout, cfg.rate);
      var d := Pause(cfg);
      assert full - d > 0.0;
      assert (full - d) * cfg.rate > 0.0;
      assert (full - d) * cfg.rate == full * cfg.rate - Gain(cfg, d);
    }
  }

  lemma PositiveFactor(a: real, b: real)
    requires a * b > 0.0 && b > 0.0
    ensures a > 0.0
  {}

  function DoubleBurst(cfg: Config, key: string): seq<Event>
    requires Sensible(cfg) && !RefillsWhileIdle(cfg) && cfg.burst >= 1
  {
    Burst(key, cfg.burst, 0.0) + [Cleanup(Clock(Pause(cfg), map[]))] + Burst(key, cfg.burst, Pause(cfg))
  }

  lemma DoubleBurstVerdicts(cfg: Config, key: string)
    requires Sensible(cfg) && !RefillsWhileIdle(cfg) && cfg.burst >= 1
    ensures Exec(cfg, true, DoubleBurst(cfg, key)).1 == (seq(cfg.burst, i => true) + [false]) + seq(cfg.burst, i => true)
  {
    var b, d := cfg.burst, Pause(cfg);
    var first := Burst(key, b, 0.0);
    var middle := first + [Cleanup(Clock(d, map[]))];
    assert Exec(cfg, true, []) == (map[], []);
    hide Exec, Pause;
    PauseFacts(cfg);
    BurstAdmitted(cfg, [], key, b, 0.0);
    assert [] + first == first && [] + seq(b, i => true) == seq(b, i => true);
    EvictedAfter(cfg, first, key, d);
    BurstAdmitted(cfg, middle, key, b, d);
  }

  lemma DoubleBurstRequests(cfg: Config, key: string)
    requires Sensible(cfg) && !RefillsWhileIdle(cfg) && cfg.burst >= 1
    ensures Requests(DoubleBurst(cfg, key)) == 2 * cfg.burst
  {
    hide Pause;
    var b, d := cfg.burst, Pause(cfg);
    var first, pass := Burst(key, b, 0.0), [Cleanup(Clock(d, map[]))];
    RequestsAppend(first + pass, Burst(key, b, d));
    RequestsAppend(first, pass);
    RequestsInBurst(key, b, 0.0);
    RequestsInBurst(key, b, d);
    assert pass[..0] == [];
  }

  /** With eviction, twice the burst is admitted within the pause. */
  lemma DoubleBurstAdmitted(cfg: Config, key: string)
    requires Sensible(cfg) && !RefillsWhileIdle(cfg) && cfg.burst >= 1
    ensures var es := DoubleBurst(cfg, key);
            Monotone(es) && Admitted(es, Exec(cfg, true, es).1, key, 0.0, Pause(cfg)) == 2 * cfg.burst
  {
    hide Exec, Pause, Requests, Admitted;
    PauseFacts(cfg);
    DoubleBurstVerdicts(cfg, key);
    DoubleBurstRequests(cfg, key);
    var es := DoubleBurst(cfg, key);
    AllCounted(es, Exec(cfg, true, es).1, key, 0.0, Pause(cfg));
  }

  lemma EvictedAfter(cfg: Config, before: seq<Event>, key: string, now: real)
    requires var t := Exec(cfg, true, before).0; key in t && now - t[key].lastSeen > cfg.idleTimeout
    ensures key !in Exec(cfg, true, before + [Cleanup(Clock(now, map[]))]).0
    ensures Exec(cfg, true, before + [Cleanup(Clock(now, map[]))]).1 == Exec(cfg, true, before).1 + [false]
  {
    assert (before + [Cleanup(Clock(now, map[]))])[..|before|] == before;
  }

  lemma DoubleBurstTells(cfg: Config, key: string)
    requires Sensible(cfg) && !RefillsWhileIdle(cfg) && cfg.burst >= 1
    ensures var es := DoubleBurst(cfg, key);
            Monotone(es) && !Bounded(cfg, true, es) && !Unobservable(cfg, es)
  {
    hide Gain, Pause, DoubleBurst;
    var es, d := DoubleBurst(cfg, key), Pause(cfg);
    PauseFacts(cfg);
    DoubleBurstAdmitted(cfg, key);
    assert 0.0 + d == d;
    assert !WithinBound(cfg, es, Exec(cfg, true, es).1, key, 0.0, d);
    NeverEvictingBounded(cfg, es);
    assert WithinBound(cfg, es, Exec(cfg, false, es).1, key, 0.0, d);
  }

  /** For every run of requests and cleanup passes on a clock that does not go back, pruning
      changes no verdict: exactly for the configurations in which an idle bucket refills within
      the idle timeout (or that admit nothing at all). */
  lemma EvictionUnobservableExactly(cfg: Config)
    requires Sensible(cfg)
    ensures (forall events :: Monotone(events) ==> Unobservable(cfg, events)) <==> RefillsWhileIdle(cfg) || cfg.burst < 1
  {
    if RefillsWhileIdle(cfg) {
      forall events | Monotone(events) ensures Unobservable(cfg, events) {
        if events != [] {
          TablesStayAlike(cfg, events);
        }
      }
    } else if cfg.burst < 1 {
      forall events | Monotone(events) ensures Unobservable(cfg, events) {
        AllDenied(cfg, true, events);
        AllDenied(cfg, false, events);
      }
    } else {
      DoubleBurstTells(cfg, "client");
    }
  }

  lemma {:induction false} AllDenied(cfg: Config, evicting: bool, events: seq<Event>)
    requires cfg.burst < 1
    ensures forall i :: 0 <= i < |events| ==> !Exec(cfg, evicting, events).1[i]
    decreases |events|
  {
    if events != [] {
      AllDenied(cfg, evicting, events[..|events| - 1]);
    }
  }

  /** Under the same condition, and no other, no client is ever admitted more than the burst plus
      the refill of the window, in any window of any run, whatever the other clients do. */
  lemma AdmissionBoundExactly(cfg: Config)
    requires Sensible(cfg)
    ensures (forall events :: Monotone(events) ==> Bounded(cfg, true, events)) <==> RefillsWhileIdle(cfg) || cfg.burst < 1
  {
    EvictionUnobservableExactly(cfg);
    if RefillsWhileIdle(cfg) || cfg.burst < 1 {
      forall events | Monotone(events) ensures Bounded(cfg, true, events) {
        NeverEvictingBounded(cfg, events);
        assert Unobservable(cfg, events);
      }
    } else {
      DoubleBurstTells(cfg, "client");
    }
  }

  /** With burst and idle timeout left to their defaults the condition holds for every rate of at
      least one request in ten minutes, and for no smaller one. */
  lemma DefaultsRefill(c: Config)
    requires Sensible(c) && c.burst == 0 && c.idleTimeout == 0.0
    ensures RefillsWhileIdle(SetDefaults(c)) <==> c.rate >= 1.0 / 600.0
    ensures SetDefaults(c).burst >= 1
  {
    var rate := c.rate;
    assert rate.Floor as real <= rate < rate.Floor as real + 1.0;
    assert SetDefaults(c).idleTimeout == 600.0;
    if rate < 1.0 {
      assert SetDefaults(c).burst == 1;
    }
  }

  // ---------------------------------------------------------------- verdicts by counting

  /** Before the request at position i, every window that ends with it has room for one more. */
  ghost predicate Affordable(cfg: Config, events: seq<Event>, verdicts: seq<bool>, i: nat)
    requires |events| == |verdicts| && i < |events| && events[i].Request?
  {
    forall from: real :: from <= events[i].now ==> RoomSince(cfg, events, verdicts, i, from)
  }

  predicate RoomSince(cfg: Config, events: seq<Event>, verdicts: seq<bool>, i: nat, from: real)
    requires |events| == |verdicts| && i < |events| && events[i].Request?
  {
    var now := events[i].now;
    Admitted(events[..i], verdicts[..i], events[i].key, from, now) as real + 1.0
    <= cfg.burst as real + cfg.rate * (now - from)
  }

  lemma HeldLaterExactly(cfg: Config, t: Table, key: string, now: real, later: real)
    requires Sensible(cfg) && now <= later
    ensures Held(cfg, t, key, later) == Min(cfg.burst as real, Held(cfg, t, key, now) + Gain(cfg, later - now))
  {
    GainFacts(cfg, now, later);
    GainFacts(cfg, 0.0, later - now);
    if key in t {
      RefillLater(cfg, t[key].limiter, now, later);
    }
  }

  /** The last instant at which the bucket was full: what it holds now is the burst plus the refill
      since, less what was admitted since. */
  lemma {:induction false} LastFull(cfg: Config, events: seq<Event>, key: string, now: real) returns (from: real)
    requires Sensible(cfg) && Monotone(events) && (events != [] ==> Time(events[|events| - 1]) <= now)
    ensures from <= now
    ensures var (t, vs) := Exec(cfg, false, events);
            Held(cfg, t, key, now) == cfg.burst as real + Gain(cfg, now - from) - Admitted(events, vs, key, from, now) as real
    decreases |events|
  {
    hide Gain, Held, Exec, Admitted, Monotone;
    if events == [] {
      from := now;
      FullAtFirst(cfg, key, now);
    } else {
      var n := |events| - 1;
      var e, before, was := events[n], events[..n], Time(events[n]);
      MonotonePrefix(events);
      from := LastFull(cfg, before, key, was);
      LastFullEvent(cfg, before, e, key, from);
      assert before + [e] == events;
      var (t, vs) := Exec(cfg, false, events);
      from := LastFullLater(cfg, t, events, vs, key, from, was, now);
    }
  }

  lemma LastFullEvent(cfg: Config, before: seq<Event>, e: Event, key: string, from: real)
    requires from <= Time(e)
    requires var (t, vs) := Exec(cfg, false, before);
             Held(cfg, t, key, Time(e)) == cfg.burst as real + Gain(cfg, Time(e) - from) - Admitted(before, vs, key, from, Time(e)) as real
    ensures var (t, vs) := Exec(cfg, false, before + [e]);
            Held(cfg, t, key, Time(e)) == cfg.burst as real + Gain(cfg, Time(e) - from) - Admitted(before + [e], vs, key, from, Time(e)) as real
  {
    hide Gain, Held, Step, Exec;
    var (t, vs) := Exec(cfg, false, before);
    var v := Step(cfg, false, t, e).1;
    ExecOne(cfg, false, before, e);
    HeldAfter(cfg, t, e, key);
    assert (before + [e])[..|before|] == before && (vs + [v])[..|before|] == vs;
  }

  lemma LastFullLater(cfg: Config, t: Table, events: seq<Event>, vs: seq<bool>, key: string, from: real, was: real, now: real)
    returns (from': real)
    requires Sensible(cfg) && |events| == |vs| && from <= was <= now && forall e <- events :: Time(e) <= was
    requires Held(cfg, t, key, was) == cfg.burst as real + Gain(cfg, was - from) - Admitted(events, vs, key, from, was) as real
    ensures from' <= now
    ensures Held(cfg, t, key, now) == cfg.burst as real + Gain(cfg, now - from') - Admitted(events, vs, key, from', now) as real
  {
    hide Gain, Held;
    HeldLaterExactly(cfg, t, key, was, now);
    GainFacts(cfg, was, now);
    if was < now && Held(cfg, t, key, was) + Gain(cfg, now - was) > cfg.burst as real {
      from' := now;
      NothingYet(events, vs, key, now, now);
      assert now - now == 0.0;
    } else {
      from' := from;
      GainFacts(cfg, was - from, now - from);
      assert (now - from) - (was - from) == now - was;
      HeldAtMost(cfg, t, key, was);
      SameWindow(events, vs, key, from, was, now);
      if was == now {
        assert now - was == 0.0;
      }
    }
  }

  lemma FullAtFirst(cfg: Config, key: string, now: real)
    ensures var (t, vs) := Exec(cfg, false, []);
            Held(cfg, t, key, now) == cfg.burst as real + Gain(cfg, now - now) - Admitted([], vs, key, now, now) as real
  {}

  lemma MonotonePrefix(events: seq<Event>)
    requires Monotone(events) && events != []
    ensures var n := |events| - 1;
            && Monotone(events[..n])
            && (n > 0 ==> Time(events[..n][n - 1]) <= Time(events[n]))
            && forall e <- events :: Time(e) <= Time(events[n])
  {
    var n := |events| - 1;
    assert forall i :: 0 <= i < n ==> events[..n][i] == events[i];
  }

  lemma VerdictByHeld(cfg: Config, t: Table, key: string, now: real)
    ensures Admit(cfg, t, key, now).1 <==> Held(cfg, t, key, now) >= 1.0
  {
    assert Gain(cfg, now - now) == 0.0;
  }

  lemma VerdictAt(cfg: Config, evicting: bool, events: seq<Event>, i: nat)
    requires i < |events|
    ensures Exec(cfg, evicting, events).1[..i] == Exec(cfg, evicting, events[..i]).1
    ensures Exec(cfg, evicting, events).1[i] == Step(cfg, evicting, Exec(cfg, evicting, events[..i]).0, events[i]).1
    decreases |events|
  {
    hide Step;
    var n := |events| - 1;
    if i < n {
      VerdictAt(cfg, evicting, events[..n], i);
      assert events[..n][..i] == events[..i];
    }
  }

  lemma CountedOnce(events: seq<Event>, vs: seq<bool>, i: nat, from: real)
    requires |events| == |vs| && i < |events| && events[i].Request? && vs[i] && from <= events[i].now
    ensures var key, now := events[i].key, events[i].now;
            Admitted(events[..i + 1], vs[..i + 1], key, from, now) == Admitted(events[..i], vs[..i], key, from, now) + 1
  {
    assert events[..i + 1][..i] == events[..i] && vs[..i + 1][..i] == vs[..i];
  }

  lemma PrefixVerdicts(cfg: Config, events: seq<Event>, i: nat)
    requires i <= |events|
    ensures Exec(cfg, false, events).1[..i] == Exec(cfg, false, events[..i]).1
  {
    if i < |events| {
      VerdictAt(cfg, false, events, i);
    } else {
      assert events[..i] == events;
    }
  }

  lemma AdmittedHasRoom(cfg: Config, events: seq<Event>, i: nat, from: real)
    requires Sensible(cfg) && Monotone(events) && i < |events| && events[i].Request?
    requires Exec(cfg, false, events).1[i] && cfg.burst >= 1 && from <= events[i].now
    ensures RoomSince(cfg, events, Exec(cfg, false, events).1, i, from)
  {
    hide Exec, Admitted;
    var vs, now := Exec(cfg, false, events).1, events[i].now;
    PrefixVerdicts(cfg, events, i + 1);
    CountedOnce(events, vs, i, from);
    NeverEvictingBounded(cfg, events[..i + 1]);
    assert WithinBound(cfg, events[..i + 1], vs[..i + 1], events[i].key, from, now - from);
    assert from + (now - from) == now;
  }

  lemma DeniedHasNoRoom(cfg: Config, events: seq<Event>, i: nat) returns (from: real)
    requires Sensible(cfg) && Monotone(events) && i < |events| && events[i].Request?
    requires Held(cfg, Exec(cfg, false, events[..i]).0, events[i].key, events[i].now) < 1.0
    ensures from <= events[i].now && !RoomSince(cfg, events, Exec(cfg, false, events).1, i, from)
  {
    hide Held, Exec, Admitted;
    PrefixVerdicts(cfg, events, i);
    from := LastFull(cfg, events[..i], events[i].key, events[i].now);
  }

  /** Without pruning: a request is admitted exactly if no window that ends with it is used up. */
  lemma NeverEvictingVerdict(cfg: Config, events: seq<Event>, i: nat)
    requires Sensible(cfg) && Monotone(events) && i < |events| && events[i].Request?
    ensures Exec(cfg, false, events).1[i] <==> Affordable(cfg, events, Exec(cfg, false, events).1, i)
  {
    hide Held, Step, Admit, Exec, RoomSince;
    var t := Exec(cfg, false, events[..i]).0;
    VerdictAt(cfg, false, events, i);
    StepIsAdmit(cfg, false, t, events[i]);
    VerdictByHeld(cfg, t, events[i].key, events[i].now);
    if Exec(cfg, false, events).1[i] {
      BurstPositive(cfg, t, events[i].key, events[i].now);
      forall from: real | from <= events[i].now ensures RoomSince(cfg, events, Exec(cfg, false, events).1, i, from) {
        AdmittedHasRoom(cfg, events, i, from);
      }
    } else {
      var from := DeniedHasNoRoom(cfg, events, i);
    }
  }

  lemma BurstPositive(cfg: Config, t: Table, key: string, now: real)
    requires Held(cfg, t, key, now) >= 1.0
    ensures cfg.burst >= 1
  {
    HeldAtMost(cfg, t, key, now);
  }

  lemma StepIsAdmit(cfg: Config, evicting: bool, t: Table, e: Event)
    requires e.Request?
    ensures Step(cfg, evicting, t, e) == Admit(cfg, t, e.key, e.now)
  {}

  /** Every verdict of every run, by counting alone: a request is admitted exactly if, for every
      window that ends with it, one more than was admitted of its key is at most the burst plus the
      refill of the window.  With pruning this holds where pruning cannot be observed. */
  lemma VerdictExactly(cfg: Config, evicting: bool, events: seq<Event>, i: nat)
    requires Sensible(cfg) && Monotone(events) && i < |events| && events[i].Request?
    requires evicting ==> RefillsWhileIdle(cfg) || cfg.burst < 1
    ensures Exec(cfg, evicting, events).1[i] <==> Affordable(cfg, events, Exec(cfg, evicting, events).1, i)
  {
    NeverEvictingVerdict(cfg, events, i);
    if evicting {
      EvictionUnobservableExactly(cfg);
      assert Unobservable(cfg, events);
    }
  }

  /** Ten requests a second and a burst of ten, emptied at 0: at half a second there are tokens. */
  lemma PartialRefillExample()
    ensures var cfg := Config(10.0, 10, 300.0, 600.0);
            Admit(cfg, map["a" := Entry(Bucket(0.0, 0.0), 0.0)], "a", 0.5)
            == (map["a" := Entry(Bucket(4.0, 0.5), 0.5)], true)
  {
    var cfg := Config(10.0, 10, 300.0, 600.0);
    var t := map["a" := Entry(Bucket(0.0, 0.0), 0.0)];
    assert Gain(cfg, 0.5 - 0.0) == 5.0;
    assert Available(cfg, Bucket(0.0, 0.0), 0.5) == 5.0;
    assert t["a" := Entry(Bucket(4.0, 0.5), 0.5)] == map["a" := Entry(Bucket(4.0, 0.5), 0.5)];
  }

  /** Settings that are given are kept; only what is left at zero gets a default, a burst of at
      least one. */
  lemma DefaultsExactly(c: Config)
    ensures var d := SetDefaults(c);
            && d.rate == c.rate
            && (c.burst != 0 ==> d.burst == c.burst)
            && (c.burst == 0 ==> d.burst >= 1 && (c.rate >= 1.0 ==> d.burst as real <= c.rate < d.burst as real + 1.0) &&
                                 (c.rate < 1.0 ==> d.burst == 1))
            && (c.cleanupInterval != 0.0 ==> d.cleanupInterval == c.cleanupInterval)
            && (c.cleanupInterval == 0.0 ==> d.cleanupInterval == 300.0)
            && (c.idleTimeout != 0.0 ==> d.idleTimeout == c.idleTimeout)
            && (c.idleTimeout == 0.0 ==> d.idleTimeout == 600.0)
  {
    assert c.rate.Floor as real <= c.rate < c.rate.Floor as real + 1.0;
  }

  // ---------------------------------------------------------------- the code

  class RateLimiter {
    const cfg: Config
    var entries: map<string, Entry>

    constructor (c: Config)
      ensures cfg == SetDefaults(c) && entries == map[]
    {
      cfg, entries := SetDefaults(c), map[];
    }

    /** getLimiter followed by Allow, as one step. */
    method Allow(key: string, now: real) returns (ok: bool)
      modifies this
      ensures (entries, ok) == Admit(cfg, old(entries), key, now)
      ensures key in entries && entries[key].lastSeen == now && entries.Keys == old(entries).Keys + {key}
      ensures forall k <- old(entries) :: k != key ==> entries[k] == old(entries)[k]
    {
      var limiter := if key in entries then entries[key].limiter else Bucket(cfg.burst as real, now);
      entries := entries[key := Entry(limiter, now)];
      var have := Available(cfg, limiter, now);
      ok := have >= 1.0;
      if ok {
        entries := entries[key := Entry(Bucket(have - 1.0, now), now)];
        assert entries == old(entries)[key := entries[key]];
      }
    }

    /** One tick of the cleanup goroutine: every entry is visited, in any order, and deleted if it
        is stale by the clock's reading then. */
    method CleanupTick(clock: Clock)
      modifies this
      ensures entries == Pruned(cfg, old(entries), clock)
      ensures forall k :: k in entries <==> k in old(entries) && At(clock, k) - old(entries)[k].lastSeen <= cfg.idleTimeout
      ensures forall k <- entries :: entries[k] == old(entries)[k]
    {
      var todo := entries.Keys;
      while todo != {}
        invariant todo <= entries.Keys
        invariant entries.Keys <= old(entries).Keys
        invariant forall k <- entries :: entries[k] == old(entries)[k]
        invariant forall k <- old(entries) :: k !in todo ==>
                    (k in entries <==> !(At(clock, k) - old(entries)[k].lastSeen > cfg.idleTimeout))
        invariant forall k <- todo :: k in entries
        decreases todo
      {
        var k :| k in todo;
        todo := todo - {k};
        if At(clock, k) - entries[k].lastSeen > cfg.idleTimeout {
          entries := entries - {k};
        }
      }
    }
  }
}
