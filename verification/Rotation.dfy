/** Certificate rotation of pki/pki.go, reduced to the times a certificate stores: load-or-create
    at startup, then a periodic watcher.  Time is in nanoseconds. */
module Rotation {
  import opened Options

  const SECOND: int := 1_000_000_000
  const MINUTE: int := 60 * SECOND
  const DAY: int := 24 * 60 * MINUTE

  datatype Cert = Cert(notBefore: int, notAfter: int)

  /** A certificate stores its times with some granularity: whole seconds in the encoding that is
      written to disk, or the clock's own if nothing is rounded. */
  predicate Granularity(g: int) { g == 1 || g == SECOND }

  /** Rounded down to the granularity. */
  function Stored(g: int, t: int): int
    requires Granularity(g)
  {
    t - t % g
  }

  lemma StoredFacts(g: int, t: int)
    requires Granularity(g)
    ensures t - (g - 1) <= Stored(g, t) <= t
    ensures Stored(g, t + 13 * DAY) == Stored(g, t) + 13 * DAY
  {}

  /** Valid from a minute ago, for 13 days. */
  function Generate(g: int, now: int): Cert
    requires Granularity(g)
  {
    var notBefore := now - MINUTE;
    Cert(Stored(g, notBefore), Stored(g, notBefore + 13 * DAY))
  }

  lemma GenerateFacts(g: int, now: int)
    requires Granularity(g)
    ensures var c := Generate(g, now);
            && c.notAfter - c.notBefore == 13 * DAY
            && c.notBefore <= now
            && now + 13 * DAY - MINUTE - (g - 1) <= c.notAfter <= now + 13 * DAY - MINUTE
  {
    StoredFacts(g, now - MINUTE);
  }

  /** What is kept at startup: a stored certificate that loads and has more than a day left, or a
      new one. */
  function LoadOrCreate(g: int, disk: Option<Cert>, loads: bool, now: int): Cert
    requires Granularity(g)
  {
    if disk.Some? && loads && disk.value.notAfter - now > DAY then disk.value else Generate(g, now)
  }

  /** A stored certificate is kept exactly if it loads and has more than 24 hours left; what is kept
      otherwise is new, backdated by a minute and valid for 13 days. */
  lemma LoadOrCreateExactly(g: int, disk: Option<Cert>, loads: bool, now: int)
    requires Granularity(g)
    ensures var c := LoadOrCreate(g, disk, loads, now);
            if disk.Some? && loads && disk.value.notAfter > now + 86_400_000_000_000 then c == disk.value
            else c.notAfter - c.notBefore == 1_123_200_000_000_000 &&
                 now - 60_000_000_000 - (g - 1) <= c.notBefore <= now - 60_000_000_000
  {
    StoredFacts(g, now - MINUTE);
  }

  /** A tick of the watcher: when it came, and whether loading and generating would succeed. */
  datatype Tick = Tick(now: int, loads: bool, generates: bool)

  predicate Due(c: Cert, now: int) { c.notAfter - now < DAY }

  predicate Rotates(c: Cert, t: Tick) { t.loads && Due(c, t.now) && t.generates }

  function AfterTick(g: int, c: Cert, t: Tick): Cert
    requires Granularity(g)
  {
    if Rotates(c, t) then Generate(g, t.now) else c
  }

  /** A tick replaces the certificate exactly if it loads, has less than 24 hours left and a new one
      can be generated; the new one is backdated by a minute and valid for 13 days. */
  lemma TickExactly(g: int, c: Cert, t: Tick)
    requires Granularity(g)
    ensures var c' := AfterTick(g, c, t);
            if t.loads && t.generates && c.notAfter < t.now + 86_400_000_000_000
            then c'.notAfter - c'.notBefore == 1_123_200_000_000_000 &&
                 t.now - 60_000_000_000 - (g - 1) <= c'.notBefore <= t.now - 60_000_000_000
            else c' == c
  {
    StoredFacts(g, t.now - MINUTE);
  }

  /** The stored certificate after these ticks. */
  function Run(g: int, start: Cert, ticks: seq<Tick>): Cert
    requires Granularity(g)
  {
    if ticks == [] then start else AfterTick(g, Run(g, start, ticks[..|ticks| - 1]), ticks[|ticks| - 1])
  }

  /** The tick did its work: it loaded the certificate, and generated one if one was due. */
  predicate Succeeds(c: Cert, t: Tick) { t.loads && (Due(c, t.now) ==> t.generates) }

  predicate Clocked(t0: int, ticks: seq<Tick>, t: int)
  {
    && (forall i :: 0 <= i < |ticks| ==> t0 <= ticks[i].now <= t)
    && (forall i, j :: 0 <= i < j < |ticks| ==> ticks[i].now <= ticks[j].now)
    && t0 <= t
  }

  /** When the certificate was last seen to have a day left, or replaced. */
  function LastCheck(g: int, start: Cert, t0: int, ticks: seq<Tick>): int
    requires Granularity(g)
  {
    if ticks == [] then t0 else
    var n := |ticks| - 1;
    if Succeeds(Run(g, start, ticks[..n]), ticks[n]) then ticks[n].now else LastCheck(g, start, t0, ticks[..n])
  }

  predicate FromGenerate(g: int, c: Cert, t0: int, at: int)
    requires Granularity(g)
  {
    at <= t0 && c == Generate(g, at)
  }

  predicate InWindow(c: Cert, t: int) { c.notBefore <= t <= c.notAfter }

  lemma {:induction false} Checked(g: int, start: Cert, t0: int, ticks: seq<Tick>, t: int)
    requires Granularity(g) && Clocked(t0, ticks, t)
    requires start.notBefore <= t0 && start.notAfter - t0 >= DAY
    ensures var c, s := Run(g, start, ticks), LastCheck(g, start, t0, ticks);
            t0 <= s <= t && c.notBefore <= s && c.notAfter - s >= DAY
    decreases |ticks|
  {
    hide Generate;
    if ticks != [] {
      var n := |ticks| - 1;
      Checked(g, start, t0, ticks[..n], ticks[n].now);
      GenerateFacts(g, ticks[n].now);
    }
  }

  /** Whatever was on disk at startup (nothing, a certificate that does not load, or one generated
      earlier), and whichever ticks fail: at every instant the stored certificate is in its window,
      and what is left of it is a day less the time since the last successful check. */
  lemma Alive(g: int, disk: Option<Cert>, made: int, loads: bool, t0: int, ticks: seq<Tick>, t: int)
    requires Granularity(g) && Clocked(t0, ticks, t)
    requires disk.Some? ==> FromGenerate(g, disk.value, t0, made)
    ensures var start := LoadOrCreate(g, disk, loads, t0);
            var c := Run(g, start, ticks);
            && c.notBefore <= t
            && c.notAfter - t >= DAY - (t - LastCheck(g, start, t0, ticks))
            && c.notAfter - c.notBefore == 13 * DAY
  {
    hide Generate;
    GenerateFacts(g, t0);
    GenerateFacts(g, made);
    var start := LoadOrCreate(g, disk, loads, t0);
    Checked(g, start, t0, ticks, t);
    WindowLength(g, start, ticks);
  }

  lemma {:induction false} WindowLength(g: int, start: Cert, ticks: seq<Tick>)
    requires Granularity(g) && start.notAfter - start.notBefore == 13 * DAY
    ensures Run(g, start, ticks).notAfter - Run(g, start, ticks).notBefore == 13 * DAY
    decreases |ticks|
  {
    hide Generate;
    if ticks != [] {
      WindowLength(g, start, ticks[..|ticks| - 1]);
      GenerateFacts(g, ticks[|ticks| - 1].now);
    }
  }

  // ---------------------------------------------------------------- which intervals are safe

  /** Every tick succeeds, and startup, ticks and t are at most `interval` apart. */
  predicate Paced(interval: int, t0: int, ticks: seq<Tick>, t: int)
  {
    && Clocked(t0, ticks, t)
    && (forall i :: 0 <= i < |ticks| ==> ticks[i].loads && ticks[i].generates)
    && (forall i :: 0 <= i < |ticks| ==> ticks[i].now - (if i == 0 then t0 else ticks[i - 1].now) <= interval)
    && t - (if ticks == [] then t0 else ticks[|ticks| - 1].now) <= interval
  }

  /** A run that is paced is in its window at its last instant. */
  predicate SafeRun(g: int, disk: Option<Cert>, made: int, loads: bool, interval: int, t0: int, ticks: seq<Tick>, t: int)
    requires Granularity(g)
  {
    (disk.Some? ==> FromGenerate(g, disk.value, t0, made)) && Paced(interval, t0, ticks, t) ==>
    InWindow(Run(g, LoadOrCreate(g, disk, loads, t0), ticks), t)
  }

  ghost predicate AlwaysInWindow(g: int, interval: int)
    requires Granularity(g)
  {
    forall disk, made, loads, t0, ticks, t :: SafeRun(g, disk, made, loads, interval, t0, ticks, t)
  }

  /** With a successful tick at least every `interval`, at least a day less the interval is left
      at every instant. */
  lemma Remaining(g: int, disk: Option<Cert>, made: int, loads: bool, interval: int, t0: int, ticks: seq<Tick>, t: int)
    requires Granularity(g) && Paced(interval, t0, ticks, t)
    requires disk.Some? ==> FromGenerate(g, disk.value, t0, made)
    ensures var c := Run(g, LoadOrCreate(g, disk, loads, t0), ticks);
            c.notBefore <= t && c.notAfter - t >= DAY - interval
  {
    Alive(g, disk, made, loads, t0, ticks, t);
    if ticks != [] {
      var n := |ticks| - 1;
      assert Succeeds(Run(g, LoadOrCreate(g, disk, loads, t0), ticks[..n]), ticks[n]);
    }
  }

  /** No expiry, ever, exactly for watcher intervals of up to a day: a tick that finds a day left
      to the nanosecond does not rotate. */
  lemma IntervalExactly(g: int, interval: int)
    requires Granularity(g) && interval >= 1
    ensures AlwaysInWindow(g, interval) <==> interval <= 86_400_000_000_000
  {
    if interval <= DAY {
      forall disk: Option<Cert>, made, loads, t0, ticks, t
        ensures SafeRun(g, disk, made, loads, interval, t0, ticks, t)
      {
        if (disk.Some? ==> FromGenerate(g, disk.value, t0, made)) && Paced(interval, t0, ticks, t) {
          Remaining(g, disk, made, loads, interval, t0, ticks, t);
        }
      }
    } else {
      var t0, ticks, t := ExpiresBetweenTicks(g, interval);
      assert !SafeRun(g, Some(Generate(g, 0)), 0, true, interval, t0, ticks, t);
    }
  }

  /** The ticks of a ticker: one at the end of every interval since startup. */
  predicate Regular(interval: int, t0: int, ticks: seq<Tick>)
  {
    forall i :: 0 <= i < |ticks| ==> ticks[i].now == t0 + (i + 1) * interval
  }

  /** A longer interval: a certificate with just over a day left at startup expires before the first
      tick, or one with a day left at the first tick before the second. */
  lemma ExpiresBetweenTicks(g: int, interval: int) returns (t0: int, ticks: seq<Tick>, t: int)
    requires Granularity(g) && interval > DAY
    ensures var disk := Generate(g, 0);
            && FromGenerate(g, disk, t0, 0)
            && Regular(interval, t0, ticks) && Paced(interval, t0, ticks, t)
            && t > Run(g, LoadOrCreate(g, Some(disk), true, t0), ticks).notAfter
  {
    var disk := Generate(g, 0);
    GenerateFacts(g, 0);
    var edge := disk.notAfter - DAY;
    if interval > DAY + 1 {
      t0, ticks, t := edge - 1, [], edge - 1 + interval;
    } else {
      var tick := Tick(edge, true, true);
      t0, ticks, t := edge - interval, [tick], edge + interval;
      assert ticks[..0] == [];
      assert Run(g, disk, ticks) == AfterTick(g, Run(g, disk, []), tick) == disk;
    }
  }

  // ---------------------------------------------------------------- no thrashing

  /** Lower bound on the time between two rotations. */
  function Gap(g: int): int { 12 * DAY - MINUTE - (g - 1) }

  lemma GapPositive(g: int)
    requires Granularity(g)
    ensures Gap(g) > 0
  {}

  function Rotations(g: int, start: Cert, ticks: seq<Tick>): nat
    requires Granularity(g)
  {
    if ticks == [] then 0 else
    var n := |ticks| - 1;
    Rotations(g, start, ticks[..n]) + (if Rotates(Run(g, start, ticks[..n]), ticks[n]) then 1 else 0)
  }

  /** When the watcher last rotated. */
  function LastRotation(g: int, start: Cert, ticks: seq<Tick>): Option<int>
    requires Granularity(g)
  {
    if ticks == [] then None else
    var n := |ticks| - 1;
    if Rotates(Run(g, start, ticks[..n]), ticks[n]) then Some(ticks[n].now) else LastRotation(g, start, ticks[..n])
  }

  lemma {:induction false} RotatedCert(g: int, start: Cert, ticks: seq<Tick>)
    requires Granularity(g)
    ensures LastRotation(g, start, ticks).Some? <==> Rotations(g, start, ticks) > 0
    ensures LastRotation(g, start, ticks).Some? ==>
              Run(g, start, ticks) == Generate(g, LastRotation(g, start, ticks).value)
    decreases |ticks|
  {
    if ticks != [] {
      RotatedCert(g, start, ticks[..|ticks| - 1]);
    }
  }

  /** Two successive rotations are more than 12 days less a minute apart (and less the fraction of
      a second that rounding costs). */
  lemma RotationsApart(g: int, start: Cert, ticks: seq<Tick>, t: Tick)
    requires Granularity(g) && LastRotation(g, start, ticks).Some?
    requires Rotates(Run(g, start, ticks), t)
    ensures t.now - LastRotation(g, start, ticks).value > Gap(g)
  {
    hide Generate;
    RotatedCert(g, start, ticks);
    GenerateFacts(g, LastRotation(g, start, ticks).value);
  }

  /** So a run from t0 to t holds at most one rotation more than fit into it at that distance. */
  lemma {:induction false} RotationRate(g: int, start: Cert, t0: int, ticks: seq<Tick>, t: int)
    requires Granularity(g) && Clocked(t0, ticks, t)
    ensures var k := Rotations(g, start, ticks);
            k > 0 ==> LastRotation(g, start, ticks).Some? && (k - 1) * (Gap(g) + 1) <= LastRotation(g, start, ticks).value - t0
    ensures Rotations(g, start, ticks) > 0 ==> (Rotations(g, start, ticks) - 1) * (Gap(g) + 1) <= t - t0
    decreases |ticks|
  {
    hide Generate, Run, Gap;
    if ticks != [] {
      var n := |ticks| - 1;
      var before := ticks[..n];
      GapPositive(g);
      RotationRate(g, start, t0, before, ticks[n].now);
      RotatedCert(g, start, before);
      RotatedCert(g, start, ticks);
      var k := Rotations(g, start, before);
      if Rotates(Run(g, start, before), ticks[n]) && k > 0 {
        RotationsApart(g, start, before, ticks[n]);
        assert k * (Gap(g) + 1) == (k - 1) * (Gap(g) + 1) + (Gap(g) + 1);
      }
    }
  }

  // ---------------------------------------------------------------- the code

  class Manager {
    const g: int
    var disk: Option<Cert>

    constructor (g: int, disk: Option<Cert>)
      requires Granularity(g)
      ensures this.g == g && this.disk == disk
    {
      this.g, this.disk := g, disk;
    }

    method GenerateIdentity(now: int) returns (c: Cert)
      requires Granularity(g)
      modifies this
      ensures c == Generate(g, now) && disk == Some(c)
      ensures c.notAfter - c.notBefore == 1_123_200_000_000_000
      ensures now - 60_000_000_000 - (g - 1) <= c.notBefore <= now - 60_000_000_000
    {
      var notBefore := now - MINUTE;
      var notAfter := notBefore + 13 * DAY;
      StoredFacts(g, notBefore);
      c := Cert(Stored(g, notBefore), Stored(g, notAfter));
      disk := Some(c);
    }

    /** `generates` is whether generating would succeed; if it is needed and fails, startup does. */
    method LoadOrCreateIdentity(now: int, loads: bool, generates: bool) returns (c: Option<Cert>)
      requires Granularity(g)
      modifies this
      ensures var kept := old(disk).Some? && loads && old(disk).value.notAfter - now > DAY;
              c == if kept || generates then Some(LoadOrCreate(g, old(disk), loads, now)) else None
      ensures disk == if c.Some? then c else old(disk)
      ensures old(disk).Some? && loads && old(disk).value.notAfter > now + 86_400_000_000_000 ==> c == old(disk)
    {
      if disk.Some? {
        if loads && disk.value.notAfter - now > DAY {
          return disk;
        }
      }
      if !generates {
        return None;
      }
      var made := GenerateIdentity(now);
      c := Some(made);
    }

    /** The body of the watcher's loop. */
    method OnTick(t: Tick)
      requires Granularity(g) && disk.Some?
      modifies this
      ensures disk == Some(AfterTick(g, old(disk).value, t))
      ensures !(t.loads && t.generates && old(disk).value.notAfter < t.now + 86_400_000_000_000) ==> disk == old(disk)
    {
      if t.loads {
        if disk.value.notAfter - t.now < DAY {
          if t.generates {
            var _ := GenerateIdentity(t.now);
          }
        }
      }
    }

    /** The watcher, for as many ticks as it gets. */
    method Watch(ticks: seq<Tick>)
      requires Granularity(g) && disk.Some?
      modifies this
      ensures disk == Some(Run(g, old(disk).value, ticks))
    {
      assert ticks[..|ticks|] == ticks;
      for i := 0 to |ticks|
        invariant disk.Some? && disk.value == Run(g, old(disk).value, ticks[..i])
      {
        assert ticks[..i + 1][..i] == ticks[..i];
        OnTick(ticks[i]);
      }
    }
  }
}
