/** Edit distance (go/memory/ontology/tbox.go): the two-row loop computes the length of a
    shortest script of insertions, deletions and substitutions, which makes it a metric. */
module Levenshtein {

  function Min(a: nat, b: nat): nat {
    if a < b then a else b
  }

  function Cost(x: char, y: char): nat {
    if x == y then 0 else 1
  }

  /** The textbook recurrence on prefixes. */
  function Dist(a: string, b: string): nat
    decreases |a| + |b|
  {
    if a == [] then |b|
    else if b == [] then |a|
    else
      var a', b' := a[..|a| - 1], b[..|b| - 1];
      Min(Dist(a', b) + 1, Min(Dist(a, b') + 1, Dist(a', b') + Cost(a[|a| - 1], b[|b| - 1])))
  }

  // ---- Scripts of edits: the reference ----

  datatype Edit = Insert(pos: nat, c: char) | Delete(pos: nat) | Substitute(pos: nat, c: char)

  /** The characters an edit takes out, at its position, and those it puts in. */
  function Taken(e: Edit): nat {
    if e.Insert? then 0 else 1
  }

  function Put(e: Edit): string {
    if e.Delete? then [] else [e.c]
  }

  predicate Fits(e: Edit, s: string) {
    e.pos + Taken(e) <= |s|
  }

  function Edited(s: string, e: Edit): string
    requires Fits(e, s)
  {
    s[..e.pos] + Put(e) + s[e.pos + Taken(e)..]
  }

  /** The script, applied from left to right, turns a into b. */
  predicate Turns(script: seq<Edit>, a: string, b: string) {
    if script == [] then a == b
    else Fits(script[0], a) && Turns(script[1..], Edited(a, script[0]), b)
  }

  lemma {:induction false} TurnsJoin(s1: seq<Edit>, s2: seq<Edit>, a: string, m: string, b: string)
    requires Turns(s1, a, m) && Turns(s2, m, b)
    ensures Turns(s1 + s2, a, b)
  {
    if s1 == [] {
      assert s1 + s2 == s2;
    } else {
      TurnsJoin(s1[1..], s2, Edited(a, s1[0]), m, b);
      assert (s1 + s2)[1..] == s1[1..] + s2;
    }
  }

  lemma EditedBeforeTail(s: string, e: Edit, t: string)
    requires Fits(e, s)
    ensures Edited(s + t, e) == Edited(s, e) + t
  {
    assert (s + t)[..e.pos] == s[..e.pos];
    assert (s + t)[e.pos + Taken(e)..] == s[e.pos + Taken(e)..] + t;
  }

  lemma {:induction false} TurnsBeforeTail(script: seq<Edit>, a: string, b: string, t: string)
    requires Turns(script, a, b)
    ensures Turns(script, a + t, b + t)
  {
    if script != [] {
      EditedBeforeTail(a, script[0], t);
      TurnsBeforeTail(script[1..], Edited(a, script[0]), b, t);
    }
  }

  lemma TurnsThen(script: seq<Edit>, a: string, m: string, e: Edit)
    requires Turns(script, a, m) && Fits(e, m)
    ensures Turns(script + [e], a, Edited(m, e))
  {
    assert Turns([e], m, Edited(m, e)) by { assert [e][1..] == []; }
    TurnsJoin(script, [e], a, m, Edited(m, e));
  }

  /** A script as long as the distance. */
  lemma {:induction false} ScriptOfLength(a: string, b: string) returns (script: seq<Edit>)
    ensures Turns(script, a, b) && |script| == Dist(a, b)
    decreases |a| + |b|
  {
    if a == [] && b == [] {
      script := [];
    } else if a != [] && Dist(a, b) == Dist(a[..|a| - 1], b) + 1 {
      var rest := ScriptOfLength(a[..|a| - 1], b);
      var first := Delete(|a| - 1);
      assert Edited(a, first) == a[..|a| - 1];
      script := [first] + rest;
      assert script[1..] == rest;
    } else if b != [] && Dist(a, b) == Dist(a, b[..|b| - 1]) + 1 {
      var b' := b[..|b| - 1];
      script := ScriptOfLength(a, b');
      assert Edited(b', Insert(|b'|, b[|b| - 1])) == b;
      TurnsThen(script, a, b', Insert(|b'|, b[|b| - 1]));
      script := script + [Insert(|b'|, b[|b| - 1])];
    } else {
      script := LastSubstituted(a, b);
    }
  }

  lemma {:induction false} LastSubstituted(a: string, b: string) returns (script: seq<Edit>)
    requires a != [] && b != []
    requires Dist(a, b) == Dist(a[..|a| - 1], b[..|b| - 1]) + Cost(a[|a| - 1], b[|b| - 1])
    ensures Turns(script, a, b) && |script| == Dist(a, b)
    decreases |a| + |b|, 0
  {
    var a', b', x, y := a[..|a| - 1], b[..|b| - 1], a[|a| - 1], b[|b| - 1];
    script := ScriptOfLength(a', b');
    TurnsBeforeTail(script, a', b', [x]);
    assert a' + [x] == a && b' + [y] == b;
    if x != y {
      assert Edited(b' + [x], Substitute(|b'|, y)) == b' + [y];
      TurnsThen(script, a, b' + [x], Substitute(|b'|, y));
      script := script + [Substitute(|b'|, y)];
    }
  }

  // ---- Metric laws of the recurrence ----

  lemma DistSteps(a: string, b: string)
    ensures a != [] ==> Dist(a, b) <= Dist(a[..|a| - 1], b) + 1
    ensures b != [] ==> Dist(a, b) <= Dist(a, b[..|b| - 1]) + 1
    ensures a != [] && b != [] ==>
              Dist(a, b) <= Dist(a[..|a| - 1], b[..|b| - 1]) + Cost(a[|a| - 1], b[|b| - 1])
  {
  }

  lemma {:induction false} DistSymmetric(a: string, b: string)
    ensures Dist(a, b) == Dist(b, a)
    decreases |a| + |b|
  {
    if a != [] && b != [] {
      DistSymmetric(a[..|a| - 1], b);
      DistSymmetric(a, b[..|b| - 1]);
      DistSymmetric(a[..|a| - 1], b[..|b| - 1]);
    }
  }

  lemma {:induction false} DistZero(a: string, b: string)
    ensures Dist(a, b) == 0 <==> a == b
    decreases |a| + |b|
  {
    if a != [] && b != [] {
      DistZero(a[..|a| - 1], b[..|b| - 1]);
      assert a == a[..|a| - 1] + [a[|a| - 1]] && b == b[..|b| - 1] + [b[|b| - 1]];
    }
  }

  lemma {:induction false} DistAtLeastLengths(a: string, b: string)
    ensures |a| <= Dist(a, b) + |b| && |b| <= Dist(a, b) + |a|
    decreases |a| + |b|
  {
    if a != [] && b != [] {
      DistAtLeastLengths(a[..|a| - 1], b);
      DistAtLeastLengths(a, b[..|b| - 1]);
      DistAtLeastLengths(a[..|a| - 1], b[..|b| - 1]);
    }
  }

  /** The triangle inequality, by cases on the last steps of the two distances. */
  lemma {:induction false} DistTriangle(a: string, b: string, c: string)
    ensures Dist(a, c) <= Dist(a, b) + Dist(b, c)
    decreases |a| + |b| + |c|
  {
    if a == [] || b == [] || c == [] {
      DistAtLeastLengths(a, b);
      DistAtLeastLengths(b, c);
      DistAtLeastLengths(a, c);
      DistAtMostLengths(a, c);
    } else {
      var a', b', c' := a[..|a| - 1], b[..|b| - 1], c[..|c| - 1];
      DistSteps(a, c);
      if Dist(a, b) == Dist(a', b) + 1 {
        DistTriangle(a', b, c);
      } else if Dist(b, c) == Dist(b, c') + 1 {
        DistTriangle(a, b, c');
      } else if Dist(a, b) == Dist(a, b') + 1 {
        if Dist(b, c) == Dist(b', c) + 1 { DistTriangle(a, b', c); }
        else { DistTriangle(a, b', c'); }
      } else {
        if Dist(b, c) == Dist(b', c) + 1 { DistTriangle(a', b', c); }
        else { DistTriangle(a', b', c'); }
      }
    }
  }

  lemma {:induction false} DistAtMostLengths(a: string, b: string)
    ensures Dist(a, b) <= |a| + |b|
    decreases |a| + |b|
  {
    if a != [] && b != [] { DistAtMostLengths(a[..|a| - 1], b); }
  }

  lemma {:induction false} DistWithTail(a: string, b: string, t: string)
    ensures Dist(a + t, b + t) <= Dist(a, b)
  {
    if t == [] {
      assert a + t == a && b + t == b;
    } else {
      var t', x := t[..|t| - 1], t[|t| - 1];
      DistWithTail(a, b, t');
      TailSnoc(a, t', x, t);
      TailSnoc(b, t', x, t);
      DistSnoc(a + t', b + t', x, x);
    }
  }

  lemma TailSnoc(a: string, t': string, x: char, t: string)
    requires t == t' + [x]
    ensures a + t == (a + t') + [x]
  {
  }

  lemma DistSnoc(a: string, b: string, x: char, y: char)
    ensures Dist(a + [x], b + [y]) <= Dist(a, b) + (if x == y then 0 else 1)
  {
    assert (a + [x])[..|a + [x]| - 1] == a && (b + [y])[..|b + [y]| - 1] == b;
    DistSteps(a + [x], b + [y]);
  }

  lemma LastCharCostsOne(u: string, x: char, y: char)
    ensures Dist(u, u + [y]) <= 1 && Dist(u + [x], u) <= 1 && Dist(u + [x], u + [y]) <= 1
  {
    DistZero(u, u);
    assert (u + [x])[..|u|] == u && (u + [y])[..|u|] == u;
    DistSteps(u, u + [y]);
    DistSteps(u + [x], u);
    DistSteps(u + [x], u + [y]);
  }

  lemma ShortCostsOne(u: string, was: string, put: string)
    requires |was| <= 1 && |put| <= 1
    ensures Dist(u + was, u + put) <= 1
  {
    var x := if was == [] then 'a' else was[0];
    var y := if put == [] then 'a' else put[0];
    DistZero(u, u);
    LastCharCostsOne(u, x, y);
    assert u + was == if was == [] then u else u + [x];
    assert u + put == if put == [] then u else u + [y];
  }

  lemma OneEditCostsOne(s: string, e: Edit)
    requires Fits(e, s)
    ensures Dist(s, Edited(s, e)) <= 1
  {
    var p, q := e.pos, e.pos + Taken(e);
    SplitTwice(s, p, q);
    ShortCostsOne(s[..p], s[p..q], Put(e));
    DistWithTail(s[..p] + s[p..q], s[..p] + Put(e), s[q..]);
  }

  lemma SplitTwice(s: string, p: nat, q: nat)
    requires p <= q <= |s|
    ensures s == s[..p] + s[p..q] + s[q..]
  {
  }

  lemma {:induction false} NoShorterScript(script: seq<Edit>, a: string, b: string)
    requires Turns(script, a, b)
    ensures Dist(a, b) <= |script|
  {
    if script == [] {
      DistZero(a, b);
    } else {
      var m := Edited(a, script[0]);
      NoShorterScript(script[1..], m, b);
      OneEditCostsOne(a, script[0]);
      DistTriangle(a, m, b);
    }
  }

  /** The distance is the length of a shortest script. */
  ghost predicate ShortestScriptLength(a: string, b: string, n: nat) {
    && (exists script :: Turns(script, a, b) && |script| == n)
    && (forall script :: Turns(script, a, b) ==> n <= |script|)
  }

  lemma DistIsShortest(a: string, b: string)
    ensures ShortestScriptLength(a, b, Dist(a, b))
  {
    var script := ScriptOfLength(a, b);
    forall other | Turns(other, a, b) ensures Dist(a, b) <= |other| { NoShorterScript(other, a, b); }
  }

  // ---- The loop ----

  /** Fills the current row from the previous one. */
  method FillRow(ra: string, rb: string, i: nat, prev: array<nat>, cur: array<nat>)
    requires 0 < i <= |ra| && prev.Length == cur.Length == |rb| + 1 && prev != cur
    requires forall j :: 0 <= j <= |rb| ==> prev[j] == Dist(ra[..i - 1], rb[..j])
    modifies cur
    ensures forall j :: 0 <= j <= |rb| ==> cur[j] == Dist(ra[..i], rb[..j])
  {
    cur[0] := i;
    for j := 1 to |rb| + 1
      invariant forall k :: 0 <= k < j ==> cur[k] == Dist(ra[..i], rb[..k])
    {
      var cost := 1;
      if ra[i - 1] == rb[j - 1] { cost := 0; }
      assert ra[..i][..i - 1] == ra[..i - 1] && rb[..j][..j - 1] == rb[..j - 1];
      cur[j] := Min(prev[j] + 1, Min(cur[j - 1] + 1, prev[j - 1] + cost));
    }
  }

  /** Two rows, swapped after each round. */
  method Distance(ra: string, rb: string) returns (d: nat)
    ensures d == Dist(ra, rb) && ShortestScriptLength(ra, rb, d)
  {
    var prev, cur := new nat[|rb| + 1], new nat[|rb| + 1];
    for j := 0 to |rb| + 1
      invariant forall k :: 0 <= k < j ==> prev[k] == k
    {
      prev[j] := j;
    }
    for i := 1 to |ra| + 1
      invariant prev != cur && prev.Length == cur.Length == |rb| + 1 && fresh(prev) && fresh(cur)
      invariant forall j :: 0 <= j <= |rb| ==> prev[j] == Dist(ra[..i - 1], rb[..j])
    {
      FillRow(ra, rb, i, prev, cur);
      prev, cur := cur, prev;
    }
    assert ra[..|ra|] == ra && rb[..|rb|] == rb;
    DistIsShortest(ra, rb);
    return prev[|rb|];
  }
}
