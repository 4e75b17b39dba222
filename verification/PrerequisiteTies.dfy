/** In which order the prerequisite ordering lists what may come in any order. */
module PrerequisiteTies {
  import opened Sorting
  import opened Graphs
  import opened Prerequisites

  /** The first k listed ids are the fewest that hold all prerequisites of d. */
  ghost predicate FreeAfter(g: Graph, ids: set<string>, out: seq<string>, d: string, k: nat) {
    && k <= |out| && (forall y :: y in Succ(g, d) && y in ids ==> y in out[..k])
    && (k > 0 ==> exists y :: y in Succ(g, d) && y in ids && y !in out[..k - 1])
  }

  /** Of two ids the one that was free first comes first, and the smaller one if they became
      free together. */
  ghost predicate InTurn(g: Graph, ids: set<string>, out: seq<string>, a: string, b: string) {
    forall k, l :: FreeAfter(g, ids, out, a, k) && FreeAfter(g, ids, out, b, l) ==>
                     k < l || (k == l && StringLess(a, b))
  }

  ghost predicate AllInTurn(g: Graph, ids: set<string>, out: seq<string>, queue: seq<string>) {
    forall i, j :: 0 <= i < j < |queue| ==> InTurn(g, ids, out, queue[i], queue[j])
  }

  lemma PreListed(g: Graph, ids: set<string>, d: string, s: seq<string>)
    ensures Pre(g, ids, d) <= Elements(s) <==> forall y :: y in Succ(g, d) && y in ids ==> y in s
  {
    if Pre(g, ids, d) <= Elements(s) {
      forall y | y in Succ(g, d) && y in ids ensures y in s { assert y in Pre(g, ids, d); }
    }
  }

  /** What was free stays free after the same ids. */
  lemma FreeBefore(g: Graph, ids: set<string>, out: seq<string>, x: string, d: string, k: nat)
    requires Pre(g, ids, d) <= Elements(out) && FreeAfter(g, ids, out + [x], d, k)
    ensures FreeAfter(g, ids, out, d, k)
  {
    PreListed(g, ids, d, out);
    SamePrefixes(out, x);
  }

  lemma SamePrefixes(out: seq<string>, x: string)
    ensures forall m :: 0 <= m <= |out| ==> (out + [x])[..m] == out[..m]
    ensures (out + [x])[..|out|] == out
  {
  }

  /** What x frees is free after everything up to x. */
  lemma FreeNow(g: Graph, ids: set<string>, out: seq<string>, x: string, d: string, k: nat)
    requires x !in out && d in Unlocked(g, ids, Elements(out + [x]), x) && FreeAfter(g, ids, out + [x], d, k)
    ensures k == |out| + 1
  {
    SamePrefixes(out, x);
    assert x in Pre(g, ids, d);
    assert forall m :: 0 <= m <= |out| ==> x !in out[..m];
  }

  lemma InTurnStays(g: Graph, ids: set<string>, out: seq<string>, x: string, a: string, b: string)
    requires Pre(g, ids, a) <= Elements(out) && Pre(g, ids, b) <= Elements(out) && InTurn(g, ids, out, a, b)
    ensures InTurn(g, ids, out + [x], a, b)
  {
    forall k, l | FreeAfter(g, ids, out + [x], a, k) && FreeAfter(g, ids, out + [x], b, l)
      ensures k < l || (k == l && StringLess(a, b))
    {
      FreeBefore(g, ids, out, x, a, k);
      FreeBefore(g, ids, out, x, b, l);
    }
  }

  lemma InTurnNext(g: Graph, ids: set<string>, out: seq<string>, x: string, a: string, b: string)
    requires x !in out && Pre(g, ids, a) <= Elements(out) && b in Unlocked(g, ids, Elements(out + [x]), x)
    ensures InTurn(g, ids, out + [x], a, b)
  {
    forall k, l | FreeAfter(g, ids, out + [x], a, k) && FreeAfter(g, ids, out + [x], b, l) ensures k < l {
      FreeBefore(g, ids, out, x, a, k);
      FreeNow(g, ids, out, x, b, l);
    }
  }

  lemma InTurnTogether(g: Graph, ids: set<string>, out: seq<string>, x: string, a: string, b: string)
    requires x !in out && StringLess(a, b)
    requires a in Unlocked(g, ids, Elements(out + [x]), x) && b in Unlocked(g, ids, Elements(out + [x]), x)
    ensures InTurn(g, ids, out + [x], a, b)
  {
    forall k, l | FreeAfter(g, ids, out + [x], a, k) && FreeAfter(g, ids, out + [x], b, l) ensures k == l {
      FreeNow(g, ids, out, x, a, k);
      FreeNow(g, ids, out, x, b, l);
    }
  }

  /** Listed and queued ids have their prerequisites listed. */
  lemma QueuedIsFree(g: Graph, ids: set<string>, out: seq<string>, ready: seq<string>, i: nat)
    requires KahnOk(g, ids, out, ready) && i < |out + ready|
    ensures Pre(g, ids, (out + ready)[i]) <= Elements(out)
  {
    if i < |out| {
      assert Pre(g, ids, out[i]) <= Elements(out[..i]);
      assert Elements(out[..i]) <= Elements(out);
    } else {
      assert ready[i - |out|] in Elements(ready);
    }
  }

  lemma TurnStep(g: Graph, ids: set<string>, out: seq<string>, ready: seq<string>, more: seq<string>)
    requires KahnOk(g, ids, out, ready) && ready != [] && AllInTurn(g, ids, out, out + ready)
    requires more == Ascending(Unlocked(g, ids, Elements(out + [ready[0]]), ready[0]), StringLess)
    ensures AllInTurn(g, ids, out + [ready[0]], out + [ready[0]] + (ready[1..] + more))
  {
    var x, before := ready[0], out + ready;
    var after := out + [x] + (ready[1..] + more);
    assert after == before + more;
    UnlockedList(g, ids, Elements(out + [x]), x);
    StringLessStrictTotal();
    AscendingIncreasing(Unlocked(g, ids, Elements(out + [x]), x), StringLess);
    assert x in Elements(ready);
    assert forall m :: 0 <= m < |more| ==> more[m] in Elements(more);
    forall i | 0 <= i < |before| ensures Pre(g, ids, before[i]) <= Elements(out) {
      QueuedIsFree(g, ids, out, ready, i);
    }
    TurnsJoined(g, ids, out, before, x, more);
  }

  lemma TurnsJoined(g: Graph, ids: set<string>, out: seq<string>, before: seq<string>, x: string, more: seq<string>)
    requires x !in out && AllInTurn(g, ids, out, before) && Increasing(more, StringLess)
    requires forall i :: 0 <= i < |before| ==> Pre(g, ids, before[i]) <= Elements(out)
    requires forall m :: 0 <= m < |more| ==> more[m] in Unlocked(g, ids, Elements(out + [x]), x)
    ensures AllInTurn(g, ids, out + [x], before + more)
  {
    forall i, j | 0 <= i < j < |before + more|
      ensures InTurn(g, ids, out + [x], (before + more)[i], (before + more)[j])
    {
      if j < |before| { InTurnStays(g, ids, out, x, before[i], before[j]); }
      else if i < |before| { InTurnNext(g, ids, out, x, before[i], more[j - |before|]); }
      else { InTurnTogether(g, ids, out, x, more[i - |before|], more[j - |before|]); }
    }
  }

  lemma {:induction false} TurnsFrom(g: Graph, ids: set<string>, out: seq<string>, ready: seq<string>)
    requires KahnOk(g, ids, out, ready) && AllInTurn(g, ids, out, out + ready)
    ensures var r := KahnFrom(g, ids, out, ready); AllInTurn(g, ids, r, r)
    decreases |ids| - |out|
  {
    if ready == [] {
      assert out + ready == out;
    } else {
      var out' := out + [ready[0]];
      var more := Ascending(Unlocked(g, ids, Elements(out'), ready[0]), StringLess);
      UnlockedList(g, ids, Elements(out'), ready[0]);
      KahnStep(g, ids, out, ready, more);
      TurnStep(g, ids, out, ready, more);
      TurnsFrom(g, ids, out', ready[1..] + more);
    }
  }

  /** The ordered ids come in the order in which their last prerequisite was listed, and in
      alphabetical order where one id was the last for several. */
  lemma TiesExactly(g: Graph, ids: set<string>)
    ensures var r := Ordered(g, ids);
            forall i, j :: 0 <= i < j < |r| ==> InTurn(g, ids, r, r[i], r[j])
  {
    var ready := Ascending(Available(g, ids, {}), StringLess);
    KahnStart(g, ids);
    StringLessStrictTotal();
    AscendingIncreasing(Available(g, ids, {}), StringLess);
    assert [] + ready == ready;
    TurnsFrom(g, ids, [], ready);
  }

  /** And each of them is free after a certain number of ids. */
  lemma {:induction false} FreeAfterSome(g: Graph, ids: set<string>, out: seq<string>, d: string, n: nat)
    returns (k: nat)
    requires n <= |out| && forall y :: y in Succ(g, d) && y in ids ==> y in out[..n]
    ensures k <= n && FreeAfter(g, ids, out, d, k)
  {
    k := n;
    if n > 0 && forall y :: y in Succ(g, d) && y in ids ==> y in out[..n - 1] {
      k := FreeAfterSome(g, ids, out, d, n - 1);
    }
  }

  /** So this order is the only one that is in turn and lists these ids. */
  lemma {:induction false} OrderedIsTheOnly(g: Graph, ids: set<string>, r: seq<string>, n: nat)
    requires n <= |r| && Distinct(r) && Elements(r) == Elements(Ordered(g, ids))
    requires PrerequisitesFirst(g, ids, r) && AllInTurn(g, ids, r, r)
    ensures n <= |Ordered(g, ids)| && r[..n] == Ordered(g, ids)[..n]
  {
    var o := Ordered(g, ids);
    TiesExactly(g, ids);
    SameSize(r, o);
    if n > 0 {
      OrderedIsTheOnly(g, ids, r, n - 1);
      NextIsTheSame(g, ids, r, o, n - 1);
      assert r[..n] == r[..n - 1] + [r[n - 1]] && o[..n] == o[..n - 1] + [o[n - 1]];
    }
  }

  lemma SameSize(a: seq<string>, b: seq<string>)
    requires Distinct(a) && Distinct(b) && Elements(a) == Elements(b)
    ensures |a| == |b|
  {
    DistinctFits(a, Elements(b));
    DistinctFits(b, Elements(a));
    DistinctCount(a);
    DistinctCount(b);
  }

  lemma {:induction false} DistinctCount(s: seq<string>)
    requires Distinct(s)
    ensures |Elements(s)| == |s|
  {
    if s != [] {
      var n := |s| - 1;
      DistinctCount(s[..n]);
      assert s == s[..n] + [s[n]];
      assert s[n] !in s[..n];
      assert Elements(s) == Elements(s[..n]) + {s[n]};
    }
  }

  /** Two such orders that agree so far go on with the same id. */
  lemma NextIsTheSame(g: Graph, ids: set<string>, r: seq<string>, o: seq<string>, n: nat)
    requires n < |r| == |o| && r[..n] == o[..n] && Distinct(r) && Distinct(o) && Elements(r) == Elements(o)
    requires PrerequisitesFirst(g, ids, r) && AllInTurn(g, ids, r, r)
    requires PrerequisitesFirst(g, ids, o) && AllInTurn(g, ids, o, o)
    ensures r[n] == o[n]
  {
    if r[n] != o[n] {
      var k := FreeAt(g, ids, r, n);
      var l := FreeAt(g, ids, o, n);
      Precedes(g, ids, r, o, n, k, l);
      Precedes(g, ids, o, r, n, l, k);
      StringLessIrreflexive(r[n]);
      StringLessTransitive(r[n], o[n], r[n]);
    }
  }

  lemma Precedes(g: Graph, ids: set<string>, r: seq<string>, o: seq<string>, n: nat, k: nat, l: nat)
    requires n < |r| == |o| && r[..n] == o[..n] && r[n] != o[n] && Distinct(o) && Elements(r) == Elements(o)
    requires AllInTurn(g, ids, r, r) && k <= n && l <= n
    requires FreeAfter(g, ids, r, r[n], k) && FreeAfter(g, ids, o, o[n], l)
    ensures k < l || (k == l && StringLess(r[n], o[n]))
  {
    var i := LaterIn(r, o, n);
    FreeAlike(g, ids, o, r, o[n], n, l);
    assert InTurn(g, ids, r, r[n], r[i]);
  }

  lemma FreeAt(g: Graph, ids: set<string>, r: seq<string>, n: nat) returns (k: nat)
    requires n < |r| && PrerequisitesFirst(g, ids, r)
    ensures k <= n && FreeAfter(g, ids, r, r[n], k)
  {
    PreListed(g, ids, r[n], r[..n]);
    k := FreeAfterSome(g, ids, r, r[n], n);
  }

  lemma FreeAlike(g: Graph, ids: set<string>, r: seq<string>, o: seq<string>, d: string, n: nat, k: nat)
    requires n <= |r| && n <= |o| && r[..n] == o[..n] && k <= n && FreeAfter(g, ids, r, d, k)
    ensures FreeAfter(g, ids, o, d, k)
  {
    assert r[..k] == r[..n][..k] && o[..k] == o[..n][..k];
    if k > 0 { assert r[..k - 1] == r[..n][..k - 1] && o[..k - 1] == o[..n][..k - 1]; }
  }

  /** The next id of one order is further on in the other. */
  lemma LaterIn(r: seq<string>, o: seq<string>, n: nat) returns (i: nat)
    requires n < |r| == |o| && r[..n] == o[..n] && r[n] != o[n] && Distinct(o) && Elements(r) == Elements(o)
    ensures n < i < |r| && r[i] == o[n]
  {
    assert o[n] in Elements(o);
    assert o[n] in r;
    assert forall m :: 0 <= m < n ==> r[m] == r[..n][m] && o[m] == o[..n][m];
    i :| 0 <= i < |r| && r[i] == o[n];
  }
}
