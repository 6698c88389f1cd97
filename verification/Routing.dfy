/** framework/router.go: patterns, matching, dispatch and middleware. */
module Routing {
  import opened Paths
  import opened Options

  datatype Segment = Static(text: string) | Param(name: string) | Wildcard(name: string)

  type Params = map<string, string>

  function ParseSegment(p: string): Segment
  {
    if p != "" && p[0] == ':' then Param(p[1..])
    else if p != "" && p[0] == '*' then Wildcard(if p[1..] == "" then "wildcard" else p[1..])
    else Static(p)
  }

  function ParsePattern(pattern: string): seq<Segment>
  {
    var parts := SplitPath(pattern);
    seq(|parts|, i requires 0 <= i < |parts| => ParseSegment(parts[i]))
  }

  /** parsePattern: the segments are classified one after the other. */
  method ParsePatternParts(pattern: string) returns (segs: seq<Segment>)
    ensures segs == ParsePattern(pattern)
  {
    var parts := SplitPath(pattern);
    segs := [];
    for n := 0 to |parts|
      invariant |segs| == n
      invariant forall i :: 0 <= i < n ==> segs[i] == ParseSegment(parts[i])
    {
      var p := parts[n];
      if p != "" && p[0] == ':' {
        segs := segs + [Param(p[1..])];
      } else if p != "" && p[0] == '*' {
        var name := p[1..];
        if name == "" {
          name := "wildcard";
        }
        segs := segs + [Wildcard(name)];
      } else {
        segs := segs + [Static(p)];
      }
    }
  }

  /** The two indices of the matching loop advance together, so what is left of both lists is the
      state: a parameter overwrites an earlier one of the same name. */
  function Bindings(segs: seq<Segment>, actual: seq<string>, params: Params): Option<Params>
  {
    if segs == [] && actual == [] then Some(params)
    else if segs == [] || actual == [] then None
    else
      match segs[0]
      case Static(text) => if text != actual[0] then None else Bindings(segs[1..], actual[1..], params)
      case Param(name) => Bindings(segs[1..], actual[1..], params[name := actual[0]])
      case Wildcard(name) => Some(params[name := Join(actual)])
  }

  /** matchSegments. */
  method MatchSegments(segs: seq<Segment>, actual: seq<string>) returns (r: Option<Params>)
    ensures r == Bindings(segs, actual, map[])
  {
    var params: Params := map[];
    var ri, ai := 0, 0;
    assert segs[0..] == segs && actual[0..] == actual;
    while ri < |segs| && ai < |actual|
      invariant ri == ai && ri <= |segs| && ai <= |actual|
      invariant Bindings(segs[ri..], actual[ai..], params) == Bindings(segs, actual, map[])
    {
      var rs := segs[ri];
      assert segs[ri..][1..] == segs[ri + 1..] && actual[ai..][1..] == actual[ai + 1..];
      match rs {
        case Static(text) =>
          if text != actual[ai] {
            return None;
          }
        case Param(name) =>
          params := params[name := actual[ai]];
        case Wildcard(name) =>
          params := params[name := Join(actual[ai..])];
          return Some(params);
      }
      ri, ai := ri + 1, ai + 1;
    }
    if ri == |segs| && ai == |actual| {
      return Some(params);
    }
    return None;
  }

  // ---------------------------------------------------------------- pattern text

  /** How a segment is written in a pattern. */
  function Print(seg: Segment): string
  {
    match seg
    case Static(text) => text
    case Param(name) => ":" + name
    case Wildcard(name) => "*" + name
  }

  function Prints(segs: seq<Segment>): (ps: seq<string>)
    ensures |ps| == |segs| && forall i :: 0 <= i < |segs| ==> ps[i] == Print(segs[i])
  {
    seq(|segs|, i requires 0 <= i < |segs| => Print(segs[i]))
  }

  /** Segments that a pattern can spell: no slash in them, no text that looks like a parameter or
      a wildcard, no wildcard without a name, and nothing empty at the ends. */
  predicate Spellable(segs: seq<Segment>)
  {
    && AllSlashFree(Prints(segs))
    && (forall i :: 0 <= i < |segs| && segs[i].Static? && segs[i].text != "" ==>
          segs[i].text[0] != ':' && segs[i].text[0] != '*')
    && (forall i :: 0 <= i < |segs| && segs[i].Wildcard? ==> segs[i].name != "")
    && (segs != [] ==> Print(segs[0]) != "" && Print(segs[|segs| - 1]) != "")
  }

  lemma {:induction false} JoinEnds(parts: seq<string>)
    requires parts != [] && AllSlashFree(parts) && parts[0] != "" && parts[|parts| - 1] != ""
    ensures Join(parts) != "" && NoOuterSlash(Join(parts))
  {
    JoinFirst(parts);
    JoinLast(parts);
    assert SlashFree(parts[0]) && SlashFree(parts[|parts| - 1]);
  }

  lemma JoinFirst(parts: seq<string>)
    requires parts != [] && parts[0] != ""
    ensures Join(parts) != "" && Join(parts)[0] == parts[0][0]
  {}

  lemma {:induction false} JoinLast(parts: seq<string>)
    requires parts != [] && parts[|parts| - 1] != ""
    ensures Join(parts) != ""
    ensures var last := parts[|parts| - 1]; Join(parts)[|Join(parts)| - 1] == last[|last| - 1]
  {
    if |parts| > 1 {
      JoinLast(parts[1..]);
    }
  }

  lemma ReadsPrinted(seg: Segment)
    requires seg.Static? && seg.text != "" ==> seg.text[0] != ':' && seg.text[0] != '*'
    requires seg.Wildcard? ==> seg.name != ""
    ensures ParseSegment(Print(seg)) == seg
  {}

  /** A pattern means the segments it spells, whatever slashes are around it. */
  lemma PatternReadsBack(segs: seq<Segment>, i: nat, j: nat)
    requires Spellable(segs)
    ensures ParsePattern(Slashes(i) + Join(Prints(segs)) + Slashes(j)) == segs
  {
    hide Join, Split, ParseSegment;
    var parts := Prints(segs);
    var core := Join(parts);
    if segs == [] {
      assert core == "" by { JoinNothing(); }
      TrimExact(i, "", j);
    } else {
      JoinEnds(parts);
      TrimExact(i, core, j);
      SplitJoin(parts);
      assert SplitPath(Slashes(i) + core + Slashes(j)) == parts;
      forall k | 0 <= k < |segs| ensures ParseSegment(parts[k]) == segs[k] {
        ReadsPrinted(segs[k]);
      }
    }
  }

  lemma JoinNothing()
    ensures Join([]) == ""
  {}

  /** A wildcard without a name is called "wildcard". */
  lemma NamelessWildcard(pattern: string, i: nat)
    requires i < |SplitPath(pattern)| && SplitPath(pattern)[i] == "*"
    ensures ParsePattern(pattern)[i] == Wildcard("wildcard")
  {}

  // ---------------------------------------------------------------- matching by position

  function FirstWildcard(segs: seq<Segment>): (w: nat)
    ensures w <= |segs|
    ensures forall i :: 0 <= i < w ==> !segs[i].Wildcard?
    ensures w < |segs| ==> segs[w].Wildcard?
  {
    if segs == [] || segs[0].Wildcard? then 0 else 1 + FirstWildcard(segs[1..])
  }

  predicate TextsAgree(segs: seq<Segment>, actual: seq<string>)
  {
    forall i :: 0 <= i < |segs| && i < |actual| && segs[i].Static? ==> segs[i].text == actual[i]
  }

  /** Any pattern, position by position: the texts before the first wildcard agree, and there are as
      many path segments as pattern segments or, with a wildcard, at least one for the wildcard. */
  lemma {:induction false} MatchesByPosition(segs: seq<Segment>, actual: seq<string>, acc: Params)
    ensures var w := FirstWildcard(segs);
            Bindings(segs, actual, acc).Some? <==>
            TextsAgree(segs[..w], actual) && (if w < |segs| then |actual| > w else |actual| == |segs|)
    decreases |segs|
  {
    if segs != [] && actual != [] && !segs[0].Wildcard? {
      var seg, rest, tail := segs[0], segs[1..], actual[1..];
      var w := FirstWildcard(rest);
      MatchesByPosition(rest, tail, if seg.Param? then acc[seg.name := actual[0]] else acc);
      assert segs[..w + 1] == [seg] + rest[..w];
      TextsAgreeStep(seg, rest[..w], actual);
    }
  }

  lemma TextsAgreeStep(seg: Segment, rest: seq<Segment>, actual: seq<string>)
    requires actual != []
    ensures TextsAgree([seg] + rest, actual) <==>
            (seg.Static? ==> seg.text == actual[0]) && TextsAgree(rest, actual[1..])
  {
    var segs := [seg] + rest;
    if TextsAgree(segs, actual) {
      forall i | 0 <= i < |rest| && i < |actual[1..]| && rest[i].Static? ensures rest[i].text == actual[1..][i] {
        assert segs[i + 1] == rest[i] && actual[i + 1] == actual[1..][i];
      }
      assert segs[0] == seg;
    }
    if (seg.Static? ==> seg.text == actual[0]) && TextsAgree(rest, actual[1..]) {
      forall i | 0 <= i < |segs| && i < |actual| && segs[i].Static? ensures segs[i].text == actual[i] {
        assert i > 0 ==> segs[i] == rest[i - 1] && actual[i] == actual[1..][i - 1];
      }
    }
  }

  /** Position i is the last, up to the first wildcard, that binds its name. */
  predicate BindsLast(segs: seq<Segment>, i: nat)
    requires i < |segs|
  {
    && i <= FirstWildcard(segs) && !segs[i].Static?
    && forall j :: i < j < |segs| && j <= FirstWildcard(segs) && !segs[j].Static? ==> segs[j].name != segs[i].name
  }

  lemma {:induction false} Untouched(segs: seq<Segment>, actual: seq<string>, acc: Params, name: string)
    requires Bindings(segs, actual, acc).Some?
    requires forall j :: 0 <= j < |segs| && j <= FirstWildcard(segs) && !segs[j].Static? ==> segs[j].name != name
    ensures var p := Bindings(segs, actual, acc).value;
            (name in p <==> name in acc) && (name in p ==> p[name] == acc[name])
    decreases |segs|
  {
    if segs != [] && !segs[0].Wildcard? {
      var seg, rest := segs[0], segs[1..];
      assert forall j :: 0 <= j < |rest| ==> rest[j] == segs[j + 1];
      Untouched(rest, actual[1..], if seg.Param? then acc[seg.name := actual[0]] else acc, name);
    }
  }

  /** Any pattern: a parameter is bound to the path segment at its position, a wildcard to the rest of
      the path, and of several with one name the last counts. */
  lemma {:induction false} ParamsByPosition(segs: seq<Segment>, actual: seq<string>, acc: Params, i: nat)
    requires Bindings(segs, actual, acc).Some? && i < |segs| && BindsLast(segs, i)
    ensures var p := Bindings(segs, actual, acc).value;
            && i < |actual| && segs[i].name in p
            && p[segs[i].name] == if segs[i].Wildcard? then Join(actual[i..]) else actual[i]
    decreases |segs|
  {
    hide Join;
    var seg, rest := segs[0], segs[1..];
    assert actual[0..] == actual;
    if !seg.Wildcard? {
      var acc' := if seg.Param? then acc[seg.name := actual[0]] else acc;
      assert forall j :: 0 <= j < |rest| ==> rest[j] == segs[j + 1];
      if i == 0 {
        Untouched(rest, actual[1..], acc', seg.name);
      } else {
        ParamsByPosition(rest, actual[1..], acc', i - 1);
        assert actual[1..][i - 1..] == actual[i..];
      }
    }
  }

  /** From pattern text to match: a route spelled with texts and parameters matches exactly the paths
      with as many segments and those texts; one that ends in a wildcard, the paths that go on. */
  lemma RouteMatchesExactly<H>(r: Route<H>, segs: seq<Segment>, i: nat, j: nat, path: string)
    requires Spellable(segs) && r.segments == ParsePattern(Slashes(i) + Join(Prints(segs)) + Slashes(j))
    ensures var w := FirstWildcard(segs);
            PathMatches(r, path) <==>
            TextsAgree(segs[..w], SplitPath(path)) && (if w < |segs| then |SplitPath(path)| > w else |SplitPath(path)| == |segs|)
  {
    PatternReadsBack(segs, i, j);
    MatchesByPosition(segs, SplitPath(path), map[]);
  }

  lemma UserRoutePattern()
    ensures ParsePattern("/users/:id") == [Static("users"), Param("id")]
  {
    hide SplitPath, ParsePattern;
    var segs := [Static("users"), Param("id")];
    var parts := Prints(segs);
    assert ":" + "id" == ":id";
    assert parts == ["users", ":id"] && parts[1..] == [":id"];
    assert Join(parts) == "users" + "/" + ":id" == "users/:id";
    assert Slashes(1) + "users/:id" + Slashes(0) == "/users/:id";
    PatternReadsBack(segs, 1, 0);
  }

  /** "/users/:id" serves "/users/7" and not "/users/7/posts". */
  lemma UserRouteExample()
    ensures Bindings(ParsePattern("/users/:id"), ["users", "7"], map[]) == Some(map["id" := "7"])
    ensures Bindings(ParsePattern("/users/:id"), ["users", "7", "posts"], map[]).None?
  {
    UserRoutePattern();
    hide ParsePattern;
    var segs, path := [Static("users"), Param("id")], ["users", "7"];
    assert segs[1..] == [Param("id")] && path[1..] == ["7"] && segs[1..][1..] == [] && path[1..][1..] == [];
    MatchesByPosition(segs, ["users", "7", "posts"], map[]);
  }

  // ---------------------------------------------------------------- match and fill

  function Names(segs: seq<Segment>): set<string>
  {
    if segs == [] then {} else (if segs[0].Static? then {} else {segs[0].name}) + Names(segs[1..])
  }

  function FillOne(seg: Segment, params: Params): seq<string>
    requires seg.Static? || seg.name in params
  {
    match seg
    case Static(text) => [text]
    case Param(name) => [params[name]]
    case Wildcard(name) => Split(params[name])
  }

  /** The pattern with its parameters put back. */
  function Fill(segs: seq<Segment>, params: Params): seq<string>
    requires Names(segs) <= params.Keys
  {
    if segs == [] then [] else FillOne(segs[0], params) + Fill(segs[1..], params)
  }

  /** Names are distinct and a wildcard comes last. */
  predicate WellFormedPattern(segs: seq<Segment>)
  {
    segs == [] ||
    (WellFormedPattern(segs[1..]) &&
     (!segs[0].Static? ==> segs[0].name !in Names(segs[1..])) &&
     (segs[0].Wildcard? ==> segs[1..] == []))
  }

  /** The bindings of p are those of acc and exactly one for each name of the pattern. */
  predicate Extends(p: Params, acc: Params, segs: seq<Segment>)
  {
    p.Keys == acc.Keys + Names(segs) && forall k <- acc :: k in p && p[k] == acc[k]
  }

  lemma {:induction false} MatchIsFill(segs: seq<Segment>, actual: seq<string>, acc: Params, p: Params)
    requires WellFormedPattern(segs) && AllSlashFree(actual) && acc.Keys !! Names(segs)
    ensures Bindings(segs, actual, acc) == Some(p) <==> Extends(p, acc, segs) && Fill(segs, p) == actual
    decreases |segs|
  {
    hide Join, Split;
    if segs == [] {
      assert Names(segs) == {};
      if Extends(p, acc, segs) {
        assert p == acc;
      }
    } else if actual == [] {
      if Extends(p, acc, segs) {
        assert |FillOne(segs[0], p)| > 0;
      }
    } else {
      var seg, rest := segs[0], segs[1..];
      var tail := actual[1..];
      assert AllSlashFree(tail);
      assert actual == [actual[0]] + tail;
      match seg
      case Static(text) =>
        assert Names(segs) == Names(rest);
        MatchIsFill(rest, tail, acc, p);
        if Extends(p, acc, segs) {
          HeadTail(text, Fill(rest, p), actual);
        }
      case Param(name) =>
        var acc' := acc[name := actual[0]];
        MatchIsFill(rest, tail, acc', p);
        if Extends(p, acc, segs) {
          HeadTail(p[name], Fill(rest, p), actual);
        }
      case Wildcard(name) =>
        WildcardIsFill(segs, actual, acc, p);
    }
  }

  lemma HeadTail(x: string, xs: seq<string>, actual: seq<string>)
    requires actual != []
    ensures [x] + xs == actual <==> x == actual[0] && xs == actual[1..]
  {
    if [x] + xs == actual {
      assert actual[0] == x && actual[1..] == xs;
    }
  }

  lemma WildcardIsFill(segs: seq<Segment>, actual: seq<string>, acc: Params, p: Params)
    requires |segs| == 1 && segs[0].Wildcard? && actual != [] && AllSlashFree(actual) && segs[0].name !in acc
    ensures p == acc[segs[0].name := Join(actual)] <==> Extends(p, acc, segs) && Fill(segs, p) == actual
  {
    var name := segs[0].name;
    assert segs[1..] == [] && Names(segs) == {name} + {};
    SplitJoin(actual);
    if Extends(p, acc, segs) {
      assert Fill(segs, p) == Split(p[name]) + [] == Split(p[name]);
      JoinSplit(p[name]);
    }
  }

  /** Matching inverts filling: for a pattern with distinct names and a wildcard only at its end,
      the parameters a match returns are the one binding of its names that turns the pattern back
      into the path; a parameter stands for one segment and a wildcard for at least one. */
  lemma MatchExactly(segs: seq<Segment>, actual: seq<string>, p: Params)
    requires WellFormedPattern(segs) && AllSlashFree(actual)
    ensures Bindings(segs, actual, map[]) == Some(p) <==>
            p.Keys == Names(segs) && Fill(segs, p) == actual
  {
    MatchIsFill(segs, actual, map[], p);
  }

  /** The same for whole paths: filled and joined, the pattern is the path without its outer
      slashes. */
  lemma PathRoundTrip(pattern: string, path: string, p: Params)
    requires WellFormedPattern(ParsePattern(pattern))
    requires Bindings(ParsePattern(pattern), SplitPath(path), map[]) == Some(p)
    ensures Names(ParsePattern(pattern)) <= p.Keys
    ensures Join(Fill(ParsePattern(pattern), p)) == Trim(path)
  {
    SplitPathExact(path, SplitPath(path));
    MatchExactly(ParsePattern(pattern), SplitPath(path), p);
  }

  // ---------------------------------------------------------------- exactly when it round-trips

  ghost predicate RoundTrips(segs: seq<Segment>)
  {
    forall actual, p :: AllSlashFree(actual) && Bindings(segs, actual, map[]) == Some(p) ==>
      Names(segs) <= p.Keys && Fill(segs, p) == actual
  }

  /** Distinct values for distinct positions. */
  function Letters(n: nat): (s: string)
    ensures |s| == n && SlashFree(s)
  {
    seq(n, i => 'a')
  }

  /** A path that matches whatever follows the first wildcard. */
  function Witness(segs: seq<Segment>, k: nat): seq<string>
  {
    if segs == [] then []
    else if segs[0].Wildcard? then [Letters(k)]
    else [if segs[0].Static? then segs[0].text else Letters(k)] + Witness(segs[1..], k + 1)
  }

  predicate StaticsSlashFree(segs: seq<Segment>)
  {
    forall i :: 0 <= i < |segs| && segs[i].Static? ==> SlashFree(segs[i].text)
  }

  lemma {:induction false} WitnessMatches(segs: seq<Segment>, k: nat, acc: Params)
    requires StaticsSlashFree(segs)
    ensures AllSlashFree(Witness(segs, k)) && Bindings(segs, Witness(segs, k), acc).Some?
    ensures |Witness(segs, k)| <= |segs|
    decreases |segs|
  {
    if segs != [] && !segs[0].Wildcard? {
      WitnessMatches(segs[1..], k + 1, if segs[0].Param? then acc[segs[0].name := Letters(k)] else acc);
    }
  }

  lemma {:induction false} WitnessFull(segs: seq<Segment>, k: nat)
    requires |Witness(segs, k)| == |segs|
    ensures forall i :: 0 <= i < |segs| ==> (segs[i].Wildcard? ==> i == |segs| - 1)
    ensures forall i :: 0 <= i < |segs| && !segs[i].Static? ==> Witness(segs, k)[i] == Letters(k + i)
    decreases |segs|
  {
    if segs != [] && !segs[0].Wildcard? {
      WitnessFull(segs[1..], k + 1);
      forall i | 1 <= i < |segs| && !segs[i].Static?
        ensures Witness(segs, k)[i] == Letters(k + i)
      {
        assert segs[1..][i - 1] == segs[i];
      }
      forall i | 1 <= i < |segs| && segs[i].Wildcard?
        ensures i == |segs| - 1
      {
        assert segs[1..][i - 1] == segs[i];
      }
    }
  }

  lemma {:induction false} FillAtLeast(segs: seq<Segment>, p: Params)
    requires Names(segs) <= p.Keys
    ensures |Fill(segs, p)| >= |segs|
    ensures |Fill(segs, p)| == |segs| ==>
              forall i :: 0 <= i < |segs| && !segs[i].Static? ==> segs[i].name in p && p[segs[i].name] == Fill(segs, p)[i]
    decreases |segs|
  {
    if segs != [] {
      FillAtLeast(segs[1..], p);
      if |Fill(segs, p)| == |segs| {
        if segs[0].Wildcard? {
          JoinSplit(p[segs[0].name]);
        }
        forall i | 1 <= i < |segs| && !segs[i].Static?
          ensures segs[i].name in p && p[segs[i].name] == Fill(segs, p)[i]
        {
          assert segs[1..][i - 1] == segs[i];
        }
      }
    }
  }

  lemma {:induction false} NamesOf(segs: seq<Segment>)
    ensures forall x :: x in Names(segs) <==> exists i :: 0 <= i < |segs| && !segs[i].Static? && segs[i].name == x
  {
    if segs != [] {
      NamesOf(segs[1..]);
      forall x ensures x in Names(segs) <==> exists i :: 0 <= i < |segs| && !segs[i].Static? && segs[i].name == x
      {
        if x in Names(segs[1..]) {
          var i :| 0 <= i < |segs[1..]| && !segs[1..][i].Static? && segs[1..][i].name == x;
          assert segs[i + 1].name == x;
        }
        if i :| 0 <= i < |segs| && !segs[i].Static? && segs[i].name == x {
          assert i > 0 ==> segs[1..][i - 1] == segs[i];
        }
      }
    }
  }

  predicate DistinctAndTail(segs: seq<Segment>)
  {
    && (forall i :: 0 <= i < |segs| && segs[i].Wildcard? ==> i == |segs| - 1)
    && (forall i, j :: 0 <= i < j < |segs| && !segs[i].Static? && !segs[j].Static? ==> segs[i].name != segs[j].name)
  }

  lemma {:induction false} DistinctIsWellFormed(segs: seq<Segment>)
    requires DistinctAndTail(segs)
    ensures WellFormedPattern(segs)
  {
    if segs != [] {
      var rest := segs[1..];
      assert forall i :: 0 <= i < |rest| ==> rest[i] == segs[i + 1];
      DistinctIsWellFormed(rest);
      NamesOf(rest);
    }
  }

  /** No other patterns have the round trip: a repeated name loses a value, and what follows a
      wildcard is never compared with the path. */
  lemma RoundTripsExactly(segs: seq<Segment>)
    requires StaticsSlashFree(segs)
    ensures RoundTrips(segs) <==> WellFormedPattern(segs)
  {
    if WellFormedPattern(segs) {
      forall actual, p | AllSlashFree(actual) && Bindings(segs, actual, map[]) == Some(p)
        ensures Names(segs) <= p.Keys && Fill(segs, p) == actual
      {
        MatchExactly(segs, actual, p);
      }
    } else if RoundTrips(segs) {
      hide Bindings, Fill, Witness, WellFormedPattern, Names;
      var w := Witness(segs, 0);
      WitnessMatches(segs, 0, map[]);
      var p := Bindings(segs, w, map[]).value;
      assert Bindings(segs, w, map[]) == Some(p);
      FillAtLeast(segs, p);
      WitnessFull(segs, 0);
      forall i, j | 0 <= i < j < |segs| && !segs[i].Static? && !segs[j].Static?
        ensures segs[i].name != segs[j].name
      {
        assert w[i] == Letters(i) && w[j] == Letters(j);
      }
      DistinctIsWellFormed(segs);
    }
  }

  /** "/:a/:a" on "/x/y": one value for two places. */
  lemma RepeatedNameExample()
    ensures Bindings([Param("a"), Param("a")], ["x", "y"], map[]) == Some(map["a" := "y"])
  {
    var s: seq<Segment>, t := [Param("a"), Param("a")], ["x", "y"];
    assert s[1..] == [Param("a")] && t[1..] == ["y"];
    assert s[1..][1..] == [] && t[1..][1..] == [];
    assert map["a" := "x"]["a" := "y"] == map["a" := "y"];
    assert Bindings(s, t, map[]) == Bindings(s[1..], t[1..], map["a" := "x"]) == Bindings([], [], map["a" := "x"]["a" := "y"]);
  }

  // ---------------------------------------------------------------- groups

  /** Exactly the prefixes for which a group route is the group's segments followed by the
      route's. */
  lemma GroupPatternExactly(prefix: string, path: string)
    ensures ParsePattern(prefix + path) == ParsePattern(prefix) + ParsePattern(path) <==>
            TrimRight(prefix) == "" || TrimLeft(path) == "" || Trailing(prefix) + Leading(path) == 1
  {
    hide SplitPath, TrimLeft, TrimRight, Leading, Trailing, ParseSegment;
    SplitPathConcatExactly(prefix, path);
    var a, b, c := ParsePattern(prefix), ParsePattern(path), ParsePattern(prefix + path);
    if SplitPath(prefix + path) == SplitPath(prefix) + SplitPath(path) {
      assert forall i :: 0 <= i < |c| ==> c[i] == (a + b)[i];
      assert c == a + b;
    } else {
      assert |c| != |a + b|;
    }
  }

  /** The documented use: a prefix that does not end in a slash, a path that begins with one. */
  lemma GroupPattern(prefix: string, path: string)
    requires prefix == "" || prefix[|prefix| - 1] != '/'
    requires path != "" && path[0] == '/' && (|path| > 1 ==> path[1] != '/')
    ensures ParsePattern(prefix + path) == ParsePattern(prefix) + ParsePattern(path)
  {
    assert TrimLeft(path) == path[1..];
    GroupPatternExactly(prefix, path);
  }

  /** "/api/" with "/users" does not serve "/api/users": an empty segment lies in between. */
  lemma DoubleSlashExample()
    ensures ParsePattern("/api/" + "/users") != ParsePattern("/api/") + ParsePattern("/users")
  {
    var prefix, path := "/api/", "/users";
    assert prefix[..|prefix| - 1] == "/api" && path[1..] == "users";
    assert TrimRight("/api") == "/api" && TrimLeft("users") == "users";
    GroupPatternExactly(prefix, path);
  }

  // ---------------------------------------------------------------- middleware

  /** The first layer is the outermost. */
  function Wrapped<H>(h: H, layers: seq<H -> H>): H
  {
    if layers == [] then h else layers[0](Wrapped(h, layers[1..]))
  }

  /** applyMiddleware: the layers are applied from the last to the first. */
  method ApplyMiddleware<H>(h: H, layers: seq<H -> H>) returns (handler: H)
    ensures handler == Wrapped(h, layers)
  {
    handler := h;
    var i := |layers| - 1;
    while i >= 0
      invariant -1 <= i < |layers|
      invariant handler == Wrapped(h, layers[i + 1..])
    {
      assert layers[i..][1..] == layers[i + 1..];
      handler := layers[i](handler);
      i := i - 1;
    }
    assert layers[0..] == layers;
  }

  /** Wrapping in two stages is wrapping once: application layers around group layers around the
      handler. */
  lemma {:induction false} WrappedTwice<H>(h: H, inner: seq<H -> H>, outer: seq<H -> H>)
    ensures Wrapped(Wrapped(h, inner), outer) == Wrapped(h, outer + inner)
    decreases |outer|
  {
    if outer == [] {
      assert outer + inner == inner;
    } else {
      WrappedTwice(h, inner, outer[1..]);
      assert (outer + inner)[1..] == outer[1..] + inner;
    }
  }

  datatype Mark = Enter(layer: int) | Exit(layer: int) | Handled

  /** Handlers as functions on the trace of what ran so far. */
  type Traced = seq<Mark> -> seq<Mark>

  /** A layer either calls the next handler between its two halves, or does not call it. */
  datatype Layer = Layer(id: int, callsNext: bool)

  function AsMiddleware(l: Layer): Traced -> Traced
  {
    (next: Traced) => (t: seq<Mark>) =>
      (if l.callsNext then next(t + [Enter(l.id)]) else t + [Enter(l.id)]) + [Exit(l.id)]
  }

  const HANDLER: Traced := (t: seq<Mark>) => t + [Handled]

  function Middlewares(ls: seq<Layer>): seq<Traced -> Traced>
  {
    if ls == [] then [] else [AsMiddleware(ls[0])] + Middlewares(ls[1..])
  }

  lemma OutermostFirst(ls: seq<Layer>, t: seq<Mark>)
    requires ls != []
    ensures var t1 := t + [Enter(ls[0].id)];
            Wrapped(HANDLER, Middlewares(ls))(t) ==
            (if ls[0].callsNext then Wrapped(HANDLER, Middlewares(ls[1..]))(t1) else t1) + [Exit(ls[0].id)]
  {
    assert Middlewares(ls)[1..] == Middlewares(ls[1..]);
  }

  /** The layers up to the first that does not call next. */
  function Reached(ls: seq<Layer>): seq<Layer>
  {
    if ls == [] then [] else if !ls[0].callsNext then [ls[0]] else [ls[0]] + Reached(ls[1..])
  }

  function Entries(ls: seq<Layer>): seq<Mark>
  {
    if ls == [] then [] else [Enter(ls[0].id)] + Entries(ls[1..])
  }

  function Exits(ls: seq<Layer>): seq<Mark>
  {
    if ls == [] then [] else Exits(ls[1..]) + [Exit(ls[0].id)]
  }

  predicate AllCallNext(ls: seq<Layer>) { forall i :: 0 <= i < |ls| ==> ls[i].callsNext }

  /** Layers are entered in declaration order and left in reverse; the handler runs exactly if
      every layer calls next, and a layer that does not cuts off exactly those behind it. */
  lemma {:induction false} ExecutionOrder(ls: seq<Layer>, t: seq<Mark>)
    ensures Wrapped(HANDLER, Middlewares(ls))(t) ==
            t + Entries(Reached(ls)) + (if AllCallNext(ls) then [Handled] else []) + Exits(Reached(ls))
    decreases |ls|
  {
    if ls == [] {
      assert t + [] + [Handled] + [] == t + [Handled];
    } else {
      hide Wrapped, Middlewares, AsMiddleware;
      var l, rest := ls[0], ls[1..];
      var t1 := t + [Enter(l.id)];
      OutermostFirst(ls, t);
      if l.callsNext {
        ExecutionOrder(rest, t1);
        AllCallNextStep(ls);
        assert ([l] + Reached(rest))[1..] == Reached(rest);
        var m := if AllCallNext(ls) then [Handled] else [];
        Nested(t, Enter(l.id), Entries(Reached(rest)), m, Exits(Reached(rest)), Exit(l.id));
      } else {
        assert [l][1..] == [];
        Nested(t, Enter(l.id), [], [], [], Exit(l.id));
        assert t1 + [] + [] + [] == t1;
      }
    }
  }

  lemma AllCallNextStep(ls: seq<Layer>)
    requires ls != []
    ensures AllCallNext(ls) <==> ls[0].callsNext && AllCallNext(ls[1..])
  {
    assert forall i :: 0 <= i < |ls[1..]| ==> ls[1..][i] == ls[i + 1];
    assert forall i :: 1 <= i < |ls| ==> ls[i] == ls[1..][i - 1];
  }

  lemma Nested(t: seq<Mark>, a: Mark, e: seq<Mark>, m: seq<Mark>, x: seq<Mark>, z: Mark)
    ensures (t + [a] + e + m + x) + [z] == t + ([a] + e) + m + (x + [z])
  {}

  // ---------------------------------------------------------------- the router

  datatype Route<H> = Route(verb: string, segments: seq<Segment>, handler: H)

  datatype Outcome<H> = Found(handler: H, params: Params) | MethodNotAllowed | NotFound

  predicate PathMatches<H>(r: Route<H>, path: string)
  {
    Bindings(r.segments, SplitPath(path), map[]).Some?
  }

  /** Case mapping is a parameter: strings.ToUpper of the server. */
  class Router<H(!new)> {
    const upper: string -> string
    var routes: seq<Route<H>>

    constructor (upper: string -> string)
      ensures routes == [] && this.upper == upper
    {
      this.upper, routes := upper, [];
    }

    method Add(verb: string, pattern: string, layers: seq<H -> H>, handler: H)
      modifies this
      ensures routes == old(routes) + [Route(upper(verb), ParsePattern(pattern), Wrapped(handler, layers))]
    {
      var segs := ParsePatternParts(pattern);
      var h := ApplyMiddleware(handler, layers);
      routes := routes + [Route(upper(verb), segs, h)];
    }

    /** The earliest route that matches path and method answers; a path known under other methods
        only is a 405, an unknown path a 404. */
    method Match(verb: string, path: string) returns (r: Outcome<H>)
      ensures r.Found? <==> exists i :: 0 <= i < |routes| && PathMatches(routes[i], path) && routes[i].verb == upper(verb)
      ensures r.Found? ==>
                exists i :: 0 <= i < |routes| && PathMatches(routes[i], path) && routes[i].verb == upper(verb) &&
                  r.handler == routes[i].handler && Some(r.params) == Bindings(routes[i].segments, SplitPath(path), map[]) &&
                  forall j :: 0 <= j < i ==> !(PathMatches(routes[j], path) && routes[j].verb == upper(verb))
      ensures r.MethodNotAllowed? <==>
                (exists i :: 0 <= i < |routes| && PathMatches(routes[i], path)) &&
                !exists i :: 0 <= i < |routes| && PathMatches(routes[i], path) && routes[i].verb == upper(verb)
      ensures r.NotFound? <==> !exists i :: 0 <= i < |routes| && PathMatches(routes[i], path)
    {
      var pathSegs := SplitPath(path);
      var pathMatched := false;
      for n := 0 to |routes|
        invariant forall j :: 0 <= j < n ==> !(PathMatches(routes[j], path) && routes[j].verb == upper(verb))
        invariant pathMatched <==> exists j :: 0 <= j < n && PathMatches(routes[j], path)
      {
        var params := MatchSegments(routes[n].segments, pathSegs);
        if params.None? {
          continue;
        }
        assert PathMatches(routes[n], path);
        pathMatched := true;
        if routes[n].verb != upper(verb) {
          continue;
        }
        return Found(routes[n].handler, params.value);
      }
      return if pathMatched then MethodNotAllowed else NotFound;
    }
  }

  class Group<H(!new)> {
    const router: Router<H>
    const prefix: string
    var middleware: seq<H -> H>

    constructor (router: Router<H>, prefix: string, layers: seq<H -> H>)
      ensures this.router == router && this.prefix == prefix && middleware == layers
    {
      this.router, this.prefix, middleware := router, prefix, layers;
    }

    /** Later additions do not reach routes already registered. */
    method Use(layers: seq<H -> H>)
      modifies this
      ensures middleware == old(middleware) + layers && router.routes == old(router.routes)
    {
      middleware := middleware + layers;
    }

    /** The route keeps the middleware present at its registration. */
    method Handle(verb: string, path: string, handler: H)
      modifies router
      ensures router.routes == old(router.routes) +
                [Route(router.upper(verb), ParsePattern(prefix + path), Wrapped(handler, middleware))]
    {
      router.Add(verb, prefix + path, middleware, handler);
    }
  }
}
