/** Finite directed graphs with string nodes: walks, reachability, and the sets of nodes
    within a number of links. Link targets need not be keys of the graph. */
module Graphs {
  import opened Sorting

  type Graph = map<string, seq<string>>

  function Succ(g: Graph, x: string): seq<string> {
    if x in g then g[x] else []
  }

  ghost predicate Walk(g: Graph, p: seq<string>) {
    p != [] && forall i :: 0 <= i < |p| - 1 ==> LinkAt(g, p, i)
  }

  ghost predicate LinkAt(g: Graph, p: seq<string>, i: nat)
    requires i + 1 < |p|
  {
    p[i + 1] in Succ(g, p[i])
  }

  ghost predicate WalkBetween(g: Graph, p: seq<string>, a: string, b: string) {
    Walk(g, p) && p[0] == a && p[|p| - 1] == b
  }

  /** b is reachable from a by zero or more links. */
  ghost predicate Reaches(g: Graph, a: string, b: string) {
    exists p :: WalkBetween(g, p, a, b)
  }

  lemma WalkSnoc(g: Graph, p: seq<string>, c: string)
    requires Walk(g, p) && c in Succ(g, p[|p| - 1])
    ensures Walk(g, p + [c])
  {
    forall i | 0 <= i < |p| ensures LinkAt(g, p + [c], i) {
      assert i < |p| - 1 ==> LinkAt(g, p, i);
    }
  }

  lemma WalkFirst(g: Graph, a: string, p: seq<string>)
    requires Walk(g, p) && p[0] in Succ(g, a)
    ensures Walk(g, [a] + p)
  {
    forall i | 0 <= i < |p| ensures LinkAt(g, [a] + p, i) {
      assert i > 0 ==> LinkAt(g, p, i - 1);
    }
  }

  lemma WalkPart(g: Graph, p: seq<string>, i: nat, j: nat)
    requires Walk(g, p) && i < j <= |p|
    ensures Walk(g, p[i..j])
  {
    forall k | 0 <= k < j - i - 1 ensures LinkAt(g, p[i..j], k) {
      assert LinkAt(g, p, i + k);
    }
  }

  /** Every node of the graph, and the start. */
  function Nodes(g: Graph, start: string): set<string> {
    {start} + g.Keys + (set x, y | x in g && y in g[x] :: y)
  }

  lemma ReachesSelf(g: Graph, a: string)
    ensures Reaches(g, a, a)
  {
    assert WalkBetween(g, [a], a, a);
  }

  lemma ReachesStep(g: Graph, a: string, b: string, c: string)
    requires Reaches(g, a, b) && c in Succ(g, b)
    ensures Reaches(g, a, c)
  {
    var p :| WalkBetween(g, p, a, b);
    WalkSnoc(g, p, c);
    assert WalkBetween(g, p + [c], a, c);
  }

  ghost predicate Closed(g: Graph, s: set<string>) {
    forall x, y :: x in s && y in Succ(g, x) ==> y in s
  }

  /** A closed set that holds a node holds all that node reaches. */
  lemma {:induction false} WalkStaysIn(g: Graph, s: set<string>, p: seq<string>)
    requires Closed(g, s) && Walk(g, p) && p[0] in s
    ensures forall i :: 0 <= i < |p| ==> p[i] in s
  {
    if |p| > 1 {
      assert LinkAt(g, p, 0);
      WalkPart(g, p, 1, |p|);
      assert p[1..|p|] == p[1..];
      WalkStaysIn(g, s, p[1..]);
      assert forall i :: 1 <= i < |p| ==> p[i] == p[1..][i - 1];
    }
  }

  lemma ClosedHoldsReachable(g: Graph, s: set<string>, a: string)
    requires Closed(g, s) && a in s
    ensures forall b :: Reaches(g, a, b) ==> b in s
  {
    forall b | Reaches(g, a, b) ensures b in s {
      var p :| WalkBetween(g, p, a, b);
      WalkStaysIn(g, s, p);
    }
  }

  // ---- Distance ----

  function Successors(g: Graph, s: set<string>): set<string> {
    set x, y | x in s && y in Succ(g, x) :: y
  }

  /** The nodes within n links of a. */
  function Ball(g: Graph, a: string, n: nat): set<string> {
    if n == 0 then {a} else Ball(g, a, n - 1) + Successors(g, Ball(g, a, n - 1))
  }

  lemma {:induction false} BallGrows(g: Graph, a: string, m: nat, n: nat)
    requires m <= n
    ensures Ball(g, a, m) <= Ball(g, a, n)
  {
    if m < n { BallGrows(g, a, m, n - 1); }
  }

  lemma {:induction false} BallInNodes(g: Graph, a: string, n: nat)
    ensures Ball(g, a, n) <= Nodes(g, a)
  {
    if n > 0 { BallInNodes(g, a, n - 1); }
  }

  lemma {:induction false} BallHasWalk(g: Graph, a: string, b: string, n: nat) returns (p: seq<string>)
    requires b in Ball(g, a, n)
    ensures WalkBetween(g, p, a, b) && |p| <= n + 1
    decreases n
  {
    if n == 0 {
      p := [a];
    } else if b in Ball(g, a, n - 1) {
      p := BallHasWalk(g, a, b, n - 1);
    } else {
      var x :| x in Ball(g, a, n - 1) && b in Succ(g, x);
      p := BallHasWalk(g, a, x, n - 1);
      WalkSnoc(g, p, b);
      p := p + [b];
    }
  }

  lemma {:induction false} WalkEndsInBall(g: Graph, a: string, p: seq<string>)
    requires Walk(g, p) && p[0] == a
    ensures p[|p| - 1] in Ball(g, a, |p| - 1)
  {
    if |p| > 1 {
      var q := p[..|p| - 1];
      WalkPart(g, p, 0, |p| - 1);
      assert p[0..|p| - 1] == q;
      WalkEndsInBall(g, a, q);
      assert LinkAt(g, p, |p| - 2);
      assert p[|p| - 1] in Successors(g, Ball(g, a, |p| - 2));
    }
  }

  /** The number of links on a shortest walk from a to b is d. */
  ghost predicate Distance(g: Graph, a: string, b: string, d: nat) {
    && (exists p :: WalkBetween(g, p, a, b) && |p| == d + 1)
    && (forall p :: WalkBetween(g, p, a, b) ==> d + 1 <= |p|)
  }

  lemma SphereIsDistance(g: Graph, a: string, b: string, d: nat)
    requires b in Ball(g, a, d) && (d > 0 ==> b !in Ball(g, a, d - 1))
    ensures Distance(g, a, b, d)
  {
    forall p | WalkBetween(g, p, a, b) ensures d + 1 <= |p| {
      WalkIsLong(g, a, b, d, p);
    }
    var p := BallHasWalk(g, a, b, d);
    assert |p| == d + 1;
  }

  lemma WalkIsLong(g: Graph, a: string, b: string, d: nat, p: seq<string>)
    requires (d > 0 ==> b !in Ball(g, a, d - 1)) && WalkBetween(g, p, a, b)
    ensures d + 1 <= |p|
  {
    WalkEndsInBall(g, a, p);
    if |p| <= d { BallGrows(g, a, |p| - 1, d - 1); }
  }

  // ---- Pigeonhole ----

  lemma {:induction false} DistinctFits(p: seq<string>, s: set<string>)
    requires Distinct(p) && forall i :: 0 <= i < |p| ==> p[i] in s
    ensures |p| <= |s|
  {
    if p != [] {
      var q := p[1..];
      forall i | 0 <= i < |q| ensures q[i] in s - {p[0]} {
        assert q[i] == p[i + 1];
      }
      DistinctFits(q, s - {p[0]});
    }
  }
}
