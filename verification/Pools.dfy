/** The connection pool of sdk/rust/src/transport.rs.  Acquiring holds the pool's lock from the
    scan for closed connections to the end of connecting; connections may die at any time. */
module Pools {
  import opened Options

  /** Connections are numbered in the order they were opened. */
  datatype World = World(conns: seq<nat>, opens: nat, dead: set<nat>, connecting: bool, closed: bool)

  const FRESH := World([], 0, {}, false, false)

  datatype Step =
    | Acquire                 // takes the lock; finishes at once if a connection is live
    | Connect(ok: bool)       // the pending acquire's connection attempt ends
    | Die(conn: nat)
    | Close

  function Live(conns: seq<nat>, dead: set<nat>): seq<nat>
  {
    if conns == [] then [] else
    (if conns[0] in dead then [] else [conns[0]]) + Live(conns[1..], dead)
  }

  function Range(n: nat): (s: set<nat>)
    ensures forall c :: c in s <==> 0 <= c < n
  {
    if n == 0 then {} else Range(n - 1) + {n - 1}
  }

  function Next(max: nat, w: World, step: Step): World
  {
    match step
    case Acquire =>
      if w.connecting then w else
      var live := Live(w.conns, w.dead);
      w.(conns := live, connecting := live == [])
    case Connect(ok) =>
      if !w.connecting then w
      else if !ok || w.closed then w.(connecting := false)
      else w.(connecting := false, opens := w.opens + 1,
              conns := if |w.conns| < max then w.conns + [w.opens] else w.conns)
    case Die(c) => if c < w.opens then w.(dead := w.dead + {c}) else w
    case Close => if w.connecting then w else World([], w.opens, Range(w.opens), false, true)
  }

  /** The connection a step hands to a caller. */
  function Handed(max: nat, w: World, step: Step): Option<nat>
  {
    match step
    case Acquire =>
      var live := Live(w.conns, w.dead);
      if w.connecting || live == [] then None else Some(live[0])
    case Connect(ok) => if w.connecting && ok && !w.closed then Some(w.opens) else None
    case _ => None
  }

  function Run(max: nat, steps: seq<Step>): World
  {
    if steps == [] then FRESH else Next(max, Run(max, steps[..|steps| - 1]), steps[|steps| - 1])
  }

  lemma {:induction false} LiveFacts(conns: seq<nat>, dead: set<nat>)
    ensures |Live(conns, dead)| <= |conns|
    ensures forall c :: c in Live(conns, dead) <==> c in conns && c !in dead
  {
    if conns != [] {
      LiveFacts(conns[1..], dead);
      assert conns == [conns[0]] + conns[1..];
    }
  }

  ghost predicate Inv(max: nat, w: World)
  {
    && |w.conns| <= 1 && |w.conns| <= max
    && (forall c <- w.conns :: c < w.opens)
    && w.dead <= Range(w.opens)
    && (w.connecting ==> w.conns == [])
    && (max >= 1 ==> forall c :: 0 <= c < w.opens ==> c in w.dead || c in w.conns)
  }

  lemma NextKeeps(max: nat, w: World, step: Step)
    requires Inv(max, w)
    ensures Inv(max, Next(max, w, step))
  {
    LiveFacts(w.conns, w.dead);
  }

  lemma {:induction false} RunKeeps(max: nat, steps: seq<Step>)
    ensures Inv(max, Run(max, steps))
    decreases |steps|
  {
    if steps != [] {
      RunKeeps(max, steps[..|steps| - 1]);
      NextKeeps(max, Run(max, steps[..|steps| - 1]), steps[|steps| - 1]);
    }
  }

  predicate EarliestLive(conns: seq<nat>, dead: set<nat>, i: nat)
    requires i < |conns|
  {
    conns[i] !in dead && forall j :: 0 <= j < i ==> conns[j] in dead
  }

  lemma {:induction false} FirstLive(conns: seq<nat>, dead: set<nat>, i: nat)
    requires i < |conns| && EarliestLive(conns, dead, i)
    ensures Live(conns, dead) != [] && Live(conns, dead)[0] == conns[i]
  {
    if i > 0 {
      FirstLive(conns[1..], dead, i - 1);
    }
  }

  lemma ScanSees(conns: seq<nat>, dead: set<nat>)
    ensures forall i :: 0 <= i < |conns| && EarliestLive(conns, dead, i) ==>
              Live(conns, dead) != [] && Live(conns, dead)[0] == conns[i]
    ensures (forall c <- conns :: c in dead) ==> Live(conns, dead) == []
  {
    hide Live;
    forall i | 0 <= i < |conns| && EarliestLive(conns, dead, i)
      ensures Live(conns, dead) != [] && Live(conns, dead)[0] == conns[i]
    {
      FirstLive(conns, dead, i);
    }
    LiveFacts(conns, dead);
    assert Live(conns, dead) != [] ==> Live(conns, dead)[0] in Live(conns, dead);
  }

  /** Over every interleaving of acquires, connection deaths and closes: the pool holds at most one
      connection and at most max; whoever acquires gets a connection that was live when it was
      looked at, or one opened for it. */
  lemma PoolInvariant(max: nat, steps: seq<Step>, step: Step)
    ensures var w := Run(max, steps);
            && |w.conns| <= 1 && |w.conns| <= max
            && (Handed(max, w, step).Some? ==>
                  var c := Handed(max, w, step).value;
                  && c !in w.dead
                  && (step.Acquire? ==> c in w.conns && c < w.opens)
                  && (step.Connect? ==> c == w.opens && Next(max, w, step).opens == w.opens + 1))
            && (step.Acquire? && !w.connecting ==>
                  var w' := Next(max, w, step);
                  && w'.opens == w.opens
                  && (Handed(max, w, step).Some? <==> exists c <- w.conns :: c !in w.dead)
                  && (w'.connecting <==> Handed(max, w, step).None?))
            && (step.Connect? && w.connecting ==>
                  (Handed(max, w, step).Some? <==> step.ok && !w.closed) && !Next(max, w, step).connecting)
  {
    hide Run;
    RunKeeps(max, steps);
    var w := Run(max, steps);
    LiveFacts(w.conns, w.dead);
    if step.Acquire? && Live(w.conns, w.dead) != [] {
      assert Live(w.conns, w.dead)[0] in Live(w.conns, w.dead);
    }
  }

  lemma {:induction false} RangeSize(n: nat)
    ensures |Range(n)| == n
  {
    if n > 0 {
      RangeSize(n - 1);
      assert n - 1 !in Range(n - 1);
    }
  }

  lemma SubsetSize(a: set<nat>, b: set<nat>)
    requires a <= b
    ensures |a| <= |b|
  {
    assert b == a + (b - a);
  }

  lemma OpensBound(max: nat, steps: seq<Step>)
    requires max >= 1
    ensures Run(max, steps).opens <= 1 + |Run(max, steps).dead|
  {
    hide Run;
    RunKeeps(max, steps);
    var w := Run(max, steps);
    RangeSize(w.opens);
    hide Range;
    var spare: set<nat> := if w.conns == [] then {} else {w.conns[0]};
    assert Range(w.opens) <= w.dead + spare;
    SubsetSize(Range(w.opens), w.dead + spare);
  }

  /** Four steps with nothing dying and nothing kept. */
  lemma ZeroMaximumReopens()
    ensures Run(0, [Acquire, Connect(true), Acquire, Connect(true)]) == World([], 2, {}, false, false)
  {
    var steps := [Acquire, Connect(true), Acquire, Connect(true)];
    assert steps[..3] == [Acquire, Connect(true), Acquire];
    assert steps[..3][..2] == [Acquire, Connect(true)];
    assert steps[..3][..2][..1] == [Acquire];
    assert steps[..3][..2][..1][..0] == [];
    assert Live([], {}) == [];
    assert Run(0, steps[..3][..2][..1]) == World([], 0, {}, true, false);
    assert Run(0, steps[..3][..2]) == World([], 1, {}, false, false);
    assert Run(0, steps[..3]) == World([], 1, {}, true, false);
  }

  /** Once closed, nothing is pooled, nothing is opened and nobody is handed a connection, whatever
      follows. */
  lemma {:induction false} ClosedForGood(max: nat, steps: seq<Step>, more: seq<Step>, step: Step)
    requires Run(max, steps).closed && Run(max, steps).conns == []
    ensures var w := Run(max, steps + more);
            w.closed && w.conns == [] && w.opens == Run(max, steps).opens && Handed(max, w, step).None?
    decreases |more|
  {
    hide Run;
    if more == [] {
      assert steps + more == steps;
    } else {
      var n := |more| - 1;
      ClosedForGood(max, steps, more[..n], step);
      RunOne(max, steps + more[..n], more[n]);
      assert steps + more == (steps + more[..n]) + [more[n]];
    }
  }

  lemma RunOne(max: nat, steps: seq<Step>, step: Step)
    ensures Run(max, steps + [step]) == Next(max, Run(max, steps), step)
  {
    assert (steps + [step])[..|steps|] == steps;
  }

  /** Closing closes: unless an acquire holds the lock, the pool is empty, every connection it ever
      opened is dead, and it stays closed. */
  lemma CloseEnds(max: nat, steps: seq<Step>, more: seq<Step>, step: Step)
    requires !Run(max, steps).connecting
    ensures var w, w' := Run(max, steps), Run(max, steps + [Close]);
            && w'.closed && w'.conns == [] && w'.opens == w.opens
            && (forall c: nat :: c < w.opens ==> c in w'.dead)
            && Handed(max, Run(max, steps + [Close] + more), step).None?
  {
    RunOne(max, steps, Close);
    hide Run;
    ClosedForGood(max, steps + [Close], more, step);
  }

  ghost predicate OpensBounded(max: nat)
  {
    forall steps :: Run(max, steps).opens <= 1 + |Run(max, steps).dead|
  }

  /** Connections are opened only to replace dead ones, one at a time, exactly if the pool may hold
      one at all: with a maximum of zero every acquire opens another. */
  lemma OpensBoundedExactly(max: nat)
    ensures OpensBounded(max) <==> max >= 1
  {
    hide Run;
    if max >= 1 {
      forall steps ensures Run(max, steps).opens <= 1 + |Run(max, steps).dead| {
        OpensBound(max, steps);
      }
    } else {
      ZeroMaximumReopens();
    }
  }

  // ---------------------------------------------------------------- the code

  class Pool {
    const max: nat
    var conns: seq<nat>
    var opens: nat
    var dead: set<nat>     // what close_reason reports
    var closed: bool       // the endpoint

    ghost function State(connecting: bool): World reads this { World(conns, opens, dead, connecting, closed) }

    constructor (max: nat)
      ensures this.max == max && State(false) == FRESH
    {
      this.max := max;
      conns, opens, dead, closed := [], 0, {}, false;
    }

    /** retain: keep the connections that have no close reason. */
    method Evict()
      modifies this`conns
      ensures conns == Live(old(conns), dead)
    {
      var kept: seq<nat> := [];
      assert conns[0..] == conns;
      for i := 0 to |conns|
        invariant conns == old(conns)
        invariant kept + Live(conns[i..], dead) == Live(conns, dead)
      {
        assert conns[i..][1..] == conns[i + 1..];
        if conns[i] !in dead {
          kept := kept + [conns[i]];
        }
      }
      conns := kept;
    }

    /** get_connection.  `connects` is the result of the connection attempt, should one be needed,
        and `dying` are the connections that die during it. */
    method GetConnection(connects: bool, dying: set<nat>) returns (c: Option<nat>)
      modifies this
      ensures var w := old(State(false));
              var w1 := Next(max, w, Acquire);
              var w2 := w1.(dead := w1.dead + Range(w1.opens) * dying);
              if w1.connecting
              then State(false) == Next(max, w2, Connect(connects)) && c == Handed(max, w2, Connect(connects))
              else State(false) == w1 && c == Handed(max, w, Acquire)
      ensures forall i :: 0 <= i < |old(conns)| && EarliestLive(old(conns), old(dead), i) ==>
                c == Some(old(conns)[i]) && opens == old(opens)
      ensures (forall k <- old(conns) :: k in old(dead)) ==>
                var opening := connects && !old(closed);
                && c == (if opening then Some(old(opens)) else None)
                && opens == (if opening then old(opens) + 1 else old(opens))
                && conns == (if opening && max > 0 then [old(opens)] else [])
    {
      hide Live, EarliestLive;
      ScanSees(conns, dead);
      Evict();
      if |conns| > 0 {
        return Some(conns[0]);
      }
      dead := dead + Range(opens) * dying;
      if !connects || closed {
        return None;
      }
      var conn := opens;
      opens := opens + 1;
      if |conns| < max {
        conns := conns + [conn];
      }
      c := Some(conn);
    }

    /** Closing the endpoint closes every connection opened through it. */
    method Close()
      modifies this
      ensures State(false) == Next(max, old(State(false)), Step.Close)
      ensures conns == [] && closed && opens == old(opens) && forall c: nat :: c < opens ==> c in dead
    {
      conns := [];
      dead := Range(opens);
      closed := true;
    }
  }
}
