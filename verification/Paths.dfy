/** Paths and their segments: splitPath of framework/router.go over Go's strings.Trim,
    strings.Split and strings.Join with the separator "/". */
module Paths {
  function TrimLeft(s: string): (r: string)
    ensures |r| <= |s|
  {
    if s != "" && s[0] == '/' then TrimLeft(s[1..]) else s
  }

  function TrimRight(s: string): (r: string)
    ensures |r| <= |s|
  {
    if s != "" && s[|s| - 1] == '/' then TrimRight(s[..|s| - 1]) else s
  }

  function Trim(s: string): string { TrimRight(TrimLeft(s)) }

  /** strings.Split(s, "/"): never empty. */
  function Split(s: string): (r: seq<string>)
    ensures r != []
  {
    if s == "" then [""] else
    var rest := Split(s[1..]);
    if s[0] == '/' then [""] + rest else [[s[0]] + rest[0]] + rest[1..]
  }

  function Join(segs: seq<string>): string
  {
    if segs == [] then ""
    else if |segs| == 1 then segs[0]
    else segs[0] + "/" + Join(segs[1..])
  }

  function SplitPath(path: string): seq<string>
  {
    var t := Trim(path);
    if t == "" then [] else Split(t)
  }

  predicate SlashFree(s: string) { '/' !in s }

  predicate AllSlashFree(segs: seq<string>) { forall i :: 0 <= i < |segs| ==> SlashFree(segs[i]) }

  // ---------------------------------------------------------------- split and join

  lemma {:induction false} SplitSlashFree(s: string)
    ensures AllSlashFree(Split(s))
  {
    if s != "" {
      SplitSlashFree(s[1..]);
      var rest := Split(s[1..]);
      assert SlashFree(rest[0]);
    }
  }

  lemma {:induction false} JoinSplit(s: string)
    ensures Join(Split(s)) == s
  {
    if s != "" {
      JoinSplit(s[1..]);
      var rest, r := Split(s[1..]), Split(s);
      if s[0] == '/' {
        assert r[1..] == rest;
        assert s == "" + "/" + s[1..];
      } else {
        assert r[1..] == rest[1..];
        if |rest| > 1 {
          assert [s[0]] + rest[0] + "/" + Join(rest[1..]) == [s[0]] + (rest[0] + "/" + Join(rest[1..]));
        }
        assert s == [s[0]] + s[1..];
      }
    }
  }

  lemma {:induction false} SplitOne(s: string)
    requires SlashFree(s)
    ensures Split(s) == [s]
  {
    if s != "" {
      SplitOne(s[1..]);
      assert [s[0]] + s[1..] == s;
    }
  }

  lemma SplitCons(c: char, s: string)
    ensures Split([c] + s) == if c == '/' then [""] + Split(s) else [[c] + Split(s)[0]] + Split(s)[1..]
  {
    assert ([c] + s)[1..] == s;
  }

  /** A slash separates: the one law of splitting. */
  lemma {:induction false} SplitAtSlash(a: string, b: string)
    ensures Split(a + "/" + b) == Split(a) + Split(b)
  {
    hide Split;
    if a == "" {
      assert a + "/" + b == ['/'] + b;
      SplitCons('/', b);
      SplitOne("");
    } else {
      var c, t := a[0], a[1..];
      SplitAtSlash(t, b);
      SplitCons(c, t + "/" + b);
      SplitCons(c, t);
      assert a + "/" + b == [c] + (t + "/" + b) && a == [c] + t;
      assert (Split(t) + Split(b))[1..] == Split(t)[1..] + Split(b);
      assert (Split(t) + Split(b))[0] == Split(t)[0];
      if c == '/' {
        assert [""] + (Split(t) + Split(b)) == ([""] + Split(t)) + Split(b);
      }
    }
  }

  /** Without a slash between them the last segment of one and the first of the other fuse. */
  lemma {:induction false} SplitFuses(a: string, b: string)
    ensures |Split(a + b)| == |Split(a)| + |Split(b)| - 1
  {
    if a == "" {
      assert a + b == b;
    } else {
      SplitFuses(a[1..], b);
      assert (a + b)[1..] == a[1..] + b;
    }
  }

  lemma {:induction false} SplitJoin(segs: seq<string>)
    requires segs != [] && AllSlashFree(segs)
    ensures Split(Join(segs)) == segs
  {
    var first, rest := segs[0], segs[1..];
    SplitOne(first);
    if rest == [] {
      assert segs == [first] && Join(segs) == first;
    } else {
      assert forall i :: 0 <= i < |rest| ==> rest[i] == segs[i + 1];
      SplitJoin(rest);
      SplitAtSlash(first, Join(rest));
      assert Join(segs) == first + "/" + Join(rest);
      assert segs == [first] + rest;
    }
  }

  // ---------------------------------------------------------------- trimming

  function Slashes(n: nat): (s: string)
    ensures |s| == n && forall i :: 0 <= i < n ==> s[i] == '/'
  {
    seq(n, i => '/')
  }

  predicate NoOuterSlash(s: string) { s != "" ==> s[0] != '/' && s[|s| - 1] != '/' }

  /** s without its leading slashes, and how many there were. */
  function Leading(s: string): nat { |s| - |TrimLeft(s)| }

  function Trailing(s: string): nat { |s| - |TrimRight(s)| }

  lemma {:induction false} TrimLeftFacts(s: string)
    ensures s == Slashes(Leading(s)) + TrimLeft(s)
    ensures TrimLeft(s) != "" ==> TrimLeft(s)[0] != '/'
  {
    if s != "" && s[0] == '/' {
      TrimLeftFacts(s[1..]);
      assert s == "/" + s[1..];
      assert "/" + Slashes(Leading(s[1..])) == Slashes(Leading(s));
    } else {
      assert Slashes(0) + s == s;
    }
  }

  lemma {:induction false} TrimRightFacts(s: string)
    ensures s == TrimRight(s) + Slashes(Trailing(s))
    ensures TrimRight(s) != "" ==> TrimRight(s)[|TrimRight(s)| - 1] != '/'
  {
    if s != "" && s[|s| - 1] == '/' {
      TrimRightFacts(s[..|s| - 1]);
      assert s == s[..|s| - 1] + "/";
      assert Slashes(Trailing(s[..|s| - 1])) + "/" == Slashes(Trailing(s));
    } else {
      assert s + Slashes(0) == s;
    }
  }

  lemma {:induction false} TrimLeftOf(n: nat, s: string)
    requires s != "" ==> s[0] != '/'
    ensures TrimLeft(Slashes(n) + s) == s
  {
    if n == 0 {
      assert Slashes(0) + s == s;
    } else {
      TrimLeftOf(n - 1, s);
      assert (Slashes(n) + s)[1..] == Slashes(n - 1) + s;
    }
  }

  lemma {:induction false} TrimRightOf(s: string, n: nat)
    requires s != "" ==> s[|s| - 1] != '/'
    ensures TrimRight(s + Slashes(n)) == s
  {
    if n == 0 {
      assert s + Slashes(0) == s;
    } else {
      TrimRightOf(s, n - 1);
      assert (s + Slashes(n))[..|s| + n - 1] == s + Slashes(n - 1);
    }
  }

  /** Trimming is the one decomposition into outer slashes and a core without them. */
  lemma TrimExact(i: nat, core: string, j: nat)
    requires NoOuterSlash(core)
    ensures Trim(Slashes(i) + core + Slashes(j)) == core
  {
    if core == "" {
      assert Slashes(i) + core + Slashes(j) == Slashes(i + j) + "";
      TrimLeftOf(i + j, "");
    } else {
      assert Slashes(i) + core + Slashes(j) == Slashes(i) + (core + Slashes(j));
      TrimLeftOf(i, core + Slashes(j));
      TrimRightOf(core, j);
    }
  }

  lemma TrimDecomposes(s: string) returns (i: nat, j: nat)
    ensures NoOuterSlash(Trim(s)) && s == Slashes(i) + Trim(s) + Slashes(j)
  {
    TrimLeftFacts(s);
    TrimRightFacts(TrimLeft(s));
    i, j := Leading(s), Trailing(TrimLeft(s));
    assert Trim(s) != "" ==> Trim(s)[0] == TrimLeft(s)[0];
  }

  /** Extra slashes around a path change nothing. */
  lemma OuterSlashesIgnored(i: nat, path: string, j: nat)
    ensures Trim(Slashes(i) + path + Slashes(j)) == Trim(path)
    ensures SplitPath(Slashes(i) + path + Slashes(j)) == SplitPath(path)
  {
    var a, b := TrimDecomposes(path);
    TrimExact(i + a, Trim(path), b + j);
    assert Slashes(i) + path + Slashes(j) == Slashes(i + a) + Trim(path) + Slashes(b + j);
  }

  /** The segments of a path are the one slash-free list that joins to the trimmed path; its first
      and last segment are not empty. */
  lemma SplitPathExact(path: string, segs: seq<string>)
    ensures SplitPath(path) == segs <==> AllSlashFree(segs) && segs != [""] && Join(segs) == Trim(path)
    ensures SplitPath(path) == segs && segs != [] ==> segs[0] != "" && segs[|segs| - 1] != ""
  {
    var t := Trim(path);
    var _, _ := TrimDecomposes(path);
    if SplitPath(path) == segs && t != "" {
      SplitSlashFree(t);
      JoinSplit(t);
      EndsNotEmpty(t);
    }
    if AllSlashFree(segs) && segs != [""] && Join(segs) == t {
      if segs != [] {
        SplitJoin(segs);
        assert t == "" ==> Split(t) == [""];
      }
    }
  }

  lemma EndsNotEmpty(t: string)
    requires t != "" && NoOuterSlash(t)
    ensures Split(t)[0] != "" && Split(t)[|Split(t)| - 1] != "" && Split(t) != [""]
  {
    var segs := Split(t);
    JoinSplit(t);
    if segs[|segs| - 1] == "" {
      JoinEndsWithSlash(segs);
    }
  }

  lemma {:induction false} JoinEndsWithSlash(segs: seq<string>)
    requires segs != [] && segs[|segs| - 1] == ""
    ensures |segs| > 1 ==> Join(segs) != "" && Join(segs)[|Join(segs)| - 1] == '/'
    ensures |segs| == 1 ==> Join(segs) == ""
  {
    if |segs| > 1 {
      JoinEndsWithSlash(segs[1..]);
    }
  }

  // ---------------------------------------------------------------- concatenation

  lemma {:induction false} SplitSlashes(x: string, k: nat, y: string)
    ensures k > 0 ==> |Split(x + Slashes(k) + y)| == |Split(x)| + |Split(y)| + k - 1
    ensures k == 1 ==> Split(x + Slashes(k) + y) == Split(x) + Split(y)
    decreases k
  {
    hide Split;
    SplitOne("");
    if k == 1 {
      SplitAtSlash(x, y);
      assert Slashes(1) == "/";
    } else if k > 1 {
      SplitSlashes("", k - 1, y);
      SplitAtSlash(x, Slashes(k - 1) + y);
      assert x + Slashes(k) + y == x + "/" + (Slashes(k - 1) + y);
      assert "" + Slashes(k - 1) + y == Slashes(k - 1) + y;
    }
  }

  /** Exactly the prefixes and paths whose segments simply follow each other: one of them is
      nothing but slashes, or exactly one slash lies between them. */
  lemma SplitPathConcatExactly(u: string, v: string)
    ensures SplitPath(u + v) == SplitPath(u) + SplitPath(v) <==>
            TrimRight(u) == "" || TrimLeft(v) == "" || Trailing(u) + Leading(v) == 1
    ensures SplitPath(u + v) != SplitPath(u) + SplitPath(v) ==> |SplitPath(u + v)| != |SplitPath(u) + SplitPath(v)|
  {
    hide Split, TrimLeft, TrimRight, Trim, SplitPath;
    var x, y := TrimRight(u), TrimLeft(v);
    TrimRightFacts(u);
    TrimLeftFacts(v);
    if x == "" {
      AllSlashes(u);
      OuterSlashesIgnored(|u|, v, 0);
      assert Slashes(|u|) + v + Slashes(0) == u + v && [] + SplitPath(v) == SplitPath(v);
    } else if y == "" {
      AllSlashes(v);
      OuterSlashesIgnored(0, u, |v|);
      assert Slashes(0) + u + Slashes(|v|) == u + v && SplitPath(u) + [] == SplitPath(u);
    } else {
      assert u == x + Slashes(Trailing(u)) && v == Slashes(Leading(v)) + y;
      ConcatCores(x, Trailing(u), Leading(v), y);
    }
  }

  lemma ConcatCores(x: string, i: nat, j: nat, y: string)
    requires x != "" && x[|x| - 1] != '/' && y != "" && y[0] != '/'
    ensures var u, v := x + Slashes(i), Slashes(j) + y;
            && (i + j == 1 ==> SplitPath(u + v) == SplitPath(u) + SplitPath(v))
            && |SplitPath(u + v)| == |SplitPath(u)| + |SplitPath(v)| + i + j - 1
  {
    hide Split, TrimLeft, TrimRight, Trim;
    var u, v := x + Slashes(i), Slashes(j) + y;
    CoreEnds(x, y);
    TrimLeftFacts(x);
    TrimRightFacts(y);
    var a, b := TrimLeft(x), TrimRight(y);
    var core := a + Slashes(i + j) + b;
    assert u + v == Slashes(Leading(x)) + core + Slashes(Trailing(y));
    assert u == Slashes(Leading(x)) + a + Slashes(i);
    assert v == Slashes(j) + b + Slashes(Trailing(y));
    TrimExact(Leading(x), core, Trailing(y));
    TrimExact(Leading(x), a, i);
    TrimExact(j, b, Trailing(y));
    SplitSlashes(a, i + j, b);
    if i + j == 0 {
      SplitFuses(a, b);
      assert core == a + b;
    }
  }

  lemma CoreEnds(x: string, y: string)
    requires x != "" && x[|x| - 1] != '/' && y != "" && y[0] != '/'
    ensures TrimLeft(x) != "" && NoOuterSlash(TrimLeft(x))
    ensures TrimRight(y) != "" && NoOuterSlash(TrimRight(y))
  {
    TrimLeftFacts(x);
    TrimRightFacts(y);
    assert x[|x| - 1] == (Slashes(Leading(x)) + TrimLeft(x))[|x| - 1];
    assert y[0] == (TrimRight(y) + Slashes(Trailing(y)))[0];
  }

  lemma AllSlashes(s: string)
    ensures TrimRight(s) == "" ==> s == Slashes(|s|) && SplitPath(s) == []
    ensures TrimLeft(s) == "" ==> s == Slashes(|s|) && SplitPath(s) == []
  {
    TrimRightFacts(s);
    TrimLeftFacts(s);
    assert Slashes(|s|) == Slashes(|s|) + "" + Slashes(0);
    TrimExact(|s|, "", 0);
  }
}
