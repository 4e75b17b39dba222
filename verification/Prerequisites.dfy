/** Ordering pages by prerequisite (go/memory/query.go): Kahn's algorithm with the leftovers
    of cycles appended. Iterating a Go map is choosing its keys in any order; the results
    below do not depend on the choices. */
module Prerequisites {
  import opened Sorting
  import opened Graphs
  import opened MemoryPages

  // ---- What the ordering is ----

  /** The prerequisites of d within the set. */
  function Pre(g: Graph, ids: set<string>, d: string): set<string> {
    set y | y in Succ(g, d) && y in ids
  }

  /** The ids that can come next: not yet out, with all prerequisites out. */
  ghost function Available(g: Graph, ids: set<string>, out: set<string>): set<string> {
    set d | d in ids && d !in out && Pre(g, ids, d) <= out
  }

  /** The ids whose last missing prerequisite was x. */
  ghost function Unlocked(g: Graph, ids: set<string>, out: set<string>, x: string): set<string> {
    set d | d in ids && d !in out && x in Pre(g, ids, d) && Pre(g, ids, d) <= out
  }

  /** Each id of the list has its in-set prerequisites before it. */
  ghost predicate PrerequisitesFirst(g: Graph, ids: set<string>, out: seq<string>) {
    forall i :: 0 <= i < |out| ==> Pre(g, ids, out[i]) <= Elements(out[..i])
  }

  ghost predicate KahnOk(g: Graph, ids: set<string>, out: seq<string>, ready: seq<string>) {
    && Distinct(out) && Elements(out) <= ids && PrerequisitesFirst(g, ids, out)
    && Distinct(ready) && Elements(ready) == Available(g, ids, Elements(out))
  }

  lemma KahnStep(g: Graph, ids: set<string>, out: seq<string>, ready: seq<string>, more: seq<string>)
    requires KahnOk(g, ids, out, ready) && ready != []
    requires Distinct(more) && Elements(more) == Unlocked(g, ids, Elements(out + [ready[0]]), ready[0])
    ensures KahnOk(g, ids, out + [ready[0]], ready[1..] + more)
    ensures |out| < |ids|
  {
    var x := ready[0];
    assert x in Elements(ready);
    var out', ready' := out + [x], ready[1..] + more;
    ElementsSnoc(out, x);
    forall i | 0 <= i < |out'| ensures Pre(g, ids, out'[i]) <= Elements(out'[..i]) {
      if i < |out| { assert out'[..i] == out[..i]; } else { assert out'[..i] == out; }
    }
    assert forall d :: d in Elements(ready) <==> d == x || d in ready[1..];
    forall d ensures d in Elements(ready') <==> d in Available(g, ids, Elements(out')) {
      assert d in Elements(ready') <==> d in ready[1..] || d in Elements(more);
      assert d in ready[1..] ==> d in Elements(ready) && d != x;
    }
    forall i | 0 <= i < |more| ensures more[i] !in Elements(ready) {
      assert more[i] in Elements(more);
    }
    forall i | 0 <= i < |ready| ensures ready[i] in Elements(ready) { }
    assert Distinct(ready');
    DistinctFits(out', ids);
  }

  lemma UnlockedList(g: Graph, ids: set<string>, out: set<string>, x: string)
    ensures var more := Ascending(Unlocked(g, ids, out, x), StringLess);
            Distinct(more) && Elements(more) == Unlocked(g, ids, out, x)
  {
    StringLessStrictTotal();
    AscendingIncreasing(Unlocked(g, ids, out, x), StringLess);
  }

  /** Kahn's algorithm with a first-in, first-out queue; ids that become ready together
      join the queue alphabetically. */
  ghost function KahnFrom(g: Graph, ids: set<string>, out: seq<string>, ready: seq<string>): (r: seq<string>)
    requires KahnOk(g, ids, out, ready)
    ensures out <= r && KahnOk(g, ids, r, [])
    decreases |ids| - |out|
  {
    if ready == [] then out
    else
      var out' := out + [ready[0]];
      var more := Ascending(Unlocked(g, ids, Elements(out'), ready[0]), StringLess);
      UnlockedList(g, ids, Elements(out'), ready[0]);
      KahnStep(g, ids, out, ready, more);
      KahnFrom(g, ids, out', ready[1..] + more)
  }

  lemma KahnStart(g: Graph, ids: set<string>)
    ensures KahnOk(g, ids, [], Ascending(Available(g, ids, {}), StringLess))
  {
    StringLessStrictTotal();
    AscendingIncreasing(Available(g, ids, {}), StringLess);
    assert Elements<string>([]) == {};
  }

  /** The ids Kahn's algorithm can order. */
  ghost function Ordered(g: Graph, ids: set<string>): (r: seq<string>)
    ensures KahnOk(g, ids, r, [])
  {
    KahnStart(g, ids);
    KahnFrom(g, ids, [], Ascending(Available(g, ids, {}), StringLess))
  }

  /** The ids it cannot order. */
  ghost function Remnant(g: Graph, ids: set<string>): set<string> {
    ids - Elements(Ordered(g, ids))
  }

  ghost function Topological(g: Graph, ids: set<string>): seq<string> {
    Ordered(g, ids) + Ascending(Remnant(g, ids), StringLess)
  }

  // ---- What the ordering guarantees, cyclic or not ----

  /** A walk along prerequisite links that stays in the set. */
  ghost predicate PreWalk(g: Graph, ids: set<string>, p: seq<string>) {
    Walk(g, p) && forall i :: 0 <= i < |p| ==> p[i] in ids
  }

  /** A chain of prerequisites from d comes back to an id it passed. */
  ghost predicate ReachesCycle(g: Graph, ids: set<string>, d: string) {
    exists p :: PreWalk(g, ids, p) && p[0] == d && !Distinct(p)
  }

  ghost predicate HasCycle(g: Graph, ids: set<string>) {
    exists p :: PreWalk(g, ids, p) && |p| > 1 && p[0] == p[|p| - 1]
  }

  /** From an ordered id, chains of prerequisites go strictly backwards in the order. */
  lemma {:induction false} WalkDescends(g: Graph, ids: set<string>, r: seq<string>, k: nat, p: seq<string>)
    requires Distinct(r) && PrerequisitesFirst(g, ids, r) && k < |r|
    requires PreWalk(g, ids, p) && p[0] == r[k]
    ensures Distinct(p) && forall i :: 1 <= i < |p| ==> p[i] in r[..k]
    decreases k
  {
    if |p| > 1 {
      assert LinkAt(g, p, 0) && p[1] in ids;
      assert p[1] in Pre(g, ids, r[k]);
      assert p[1] in Elements(r[..k]);
      var k' :| 0 <= k' < k && r[k'] == p[1];
      var q := p[1..];
      assert forall i :: 0 <= i < |q| ==> q[i] == p[i + 1];
      WalkPart(g, p, 1, |p|);
      assert p[1..|p|] == q;
      WalkDescends(g, ids, r, k', q);
      forall i | 1 <= i < |p| ensures p[i] in r[..k] {
        if i == 1 { assert r[..k][k'] == p[1]; }
        else { assert q[i - 1] in r[..k']; }
      }
      assert r[k] !in r[..k];
    }
  }

  /** From a leftover id there are chains of prerequisites of any length. */
  lemma {:induction false} LeftoverWalk(g: Graph, ids: set<string>, r: seq<string>, d: string, n: nat)
    returns (p: seq<string>)
    requires KahnOk(g, ids, r, []) && d in ids && d !in r
    ensures PreWalk(g, ids, p) && p[0] == d && |p| == n + 1
    decreases n
  {
    p := [d];
    if n > 0 {
      assert Elements<string>([]) == {};
      assert d !in Available(g, ids, Elements(r));
      var y :| y in Pre(g, ids, d) && y !in Elements(r);
      var q := LeftoverWalk(g, ids, r, y, n - 1);
      WalkFirst(g, d, q);
      p := [d] + q;
    }
  }

  lemma RemnantExact(g: Graph, ids: set<string>, d: string)
    requires d in ids
    ensures d in Remnant(g, ids) <==> ReachesCycle(g, ids, d)
  {
    var r := Ordered(g, ids);
    if d in Elements(r) {
      var k :| 0 <= k < |r| && r[k] == d;
      forall p | PreWalk(g, ids, p) && p[0] == d ensures Distinct(p) {
        WalkDescends(g, ids, r, k, p);
      }
    } else {
      var p := LeftoverWalk(g, ids, r, d, |ids|);
      if Distinct(p) { DistinctFits(p, ids); }
    }
  }

  lemma CycleWithin(g: Graph, ids: set<string>, p: seq<string>)
    requires PreWalk(g, ids, p) && !Distinct(p)
    ensures HasCycle(g, ids)
  {
    var i, j :| 0 <= i < j < |p| && p[i] == p[j];
    var c := p[i..j + 1];
    PartWalks(g, ids, p, i, j + 1);
    assert c[0] == c[|c| - 1];
  }

  lemma PartWalks(g: Graph, ids: set<string>, p: seq<string>, i: nat, j: nat)
    requires PreWalk(g, ids, p) && i < j <= |p|
    ensures PreWalk(g, ids, p[i..j])
  {
    var c := p[i..j];
    WalkPart(g, p, i, j);
    assert forall k :: 0 <= k < |c| ==> c[k] == p[i + k];
  }

  /** The leftovers are exactly the ids from which a prerequisite cycle is reachable, so
      there are none exactly when the links have no cycle. */
  lemma RemnantMeansCycle(g: Graph, ids: set<string>)
    ensures forall d :: d in Remnant(g, ids) <==> d in ids && ReachesCycle(g, ids, d)
    ensures Remnant(g, ids) != {} <==> HasCycle(g, ids)
  {
    forall d ensures d in Remnant(g, ids) <==> d in ids && ReachesCycle(g, ids, d) {
      if d in ids { RemnantExact(g, ids, d); }
    }
    if HasCycle(g, ids) {
      var p :| PreWalk(g, ids, p) && |p| > 1 && p[0] == p[|p| - 1];
      assert ReachesCycle(g, ids, p[0]);
    }
    if Remnant(g, ids) != {} {
      var d :| d in Remnant(g, ids);
      var p :| PreWalk(g, ids, p) && p[0] == d && !Distinct(p);
      CycleWithin(g, ids, p);
    }
  }

  lemma Joined(a: seq<string>, rest: seq<string>, ids: set<string>)
    requires Distinct(a) && Distinct(rest) && Elements(a) <= ids && Elements(rest) == ids - Elements(a)
    ensures Distinct(a + rest) && Elements(a + rest) == ids
    ensures (a + rest)[..|a|] == a && (a + rest)[|a|..] == rest
    ensures Elements(rest) == {} ==> rest == []
  {
    assert forall i :: 0 <= i < |rest| ==> rest[i] in Elements(rest);
    assert forall i :: 0 <= i < |a| ==> a[i] in Elements(a);
    if rest != [] { assert rest[0] in Elements(rest); }
    forall x ensures x in Elements(a + rest) <==> x in ids {
      assert x in Elements(a + rest) <==> x in Elements(a) || x in Elements(rest);
    }
  }

  /** For every set of ids and all links, cyclic or not: each id exactly once, the ordered
      ones first and with their prerequisites before them, all of them if there is no cycle. */
  lemma TopologicalCorrect(g: Graph, ids: set<string>)
    ensures var r := Topological(g, ids);
            var n := |Ordered(g, ids)|;
            && Distinct(r) && Elements(r) == ids
            && n <= |r| && PrerequisitesFirst(g, ids, r[..n])
            && Elements(r[n..]) == Remnant(g, ids) && Increasing(r[n..], StringLess)
            && (!HasCycle(g, ids) ==> PrerequisitesFirst(g, ids, r))
  {
    var a, rest := Ordered(g, ids), Ascending(Remnant(g, ids), StringLess);
    StringLessStrictTotal();
    AscendingIncreasing(Remnant(g, ids), StringLess);
    Joined(a, rest, ids);
    RemnantMeansCycle(g, ids);
    assert !HasCycle(g, ids) ==> a + rest == a;
  }

  // ---- topoByPrerequisite ----

  /** `dependents` lists, for each id, the ids of D that require it, each once. */
  ghost predicate DependentsOk(dependents: Graph, g: Graph, ids: set<string>, D: set<string>) {
    forall y :: DependentsAt(dependents, g, ids, D, y)
  }

  ghost predicate DependentsAt(dependents: Graph, g: Graph, ids: set<string>, D: set<string>, y: string) {
    Distinct(Succ(dependents, y)) && Elements(Succ(dependents, y)) == set d | d in D && y in Pre(g, ids, d)
  }

  /** How many prerequisites of d are not out yet. */
  ghost function Missing(g: Graph, ids: set<string>, d: string, out: set<string>): nat {
    |Pre(g, ids, d) - out|
  }

  ghost predicate DegreesOk(indegree: map<string, nat>, g: Graph, ids: set<string>, D: set<string>, out: set<string>) {
    indegree.Keys == D && forall d :: d in D ==> indegree[d] == Missing(g, ids, d, out)
  }

  /** The in-set targets among some links. */
  function Hits(links: seq<Link>, ids: set<string>): set<string> {
    set y | y in Targets(links, RequiresPrerequisite) && y in ids
  }

  lemma HitsSnoc(links: seq<Link>, j: nat, ids: set<string>)
    requires Distinct(links) && j < |links|
    ensures var l := links[j];
            if l.pred == RequiresPrerequisite && l.target in ids
            then l.target !in Hits(links[..j], ids) && Hits(links[..j + 1], ids) == Hits(links[..j], ids) + {l.target}
            else Hits(links[..j + 1], ids) == Hits(links[..j], ids)
  {
    assert links[..j + 1][..j] == links[..j];
    TargetsExact(links[..j], RequiresPrerequisite);
    TargetsExact(links[..j + 1], RequiresPrerequisite);
    assert links[j] !in links[..j];
    assert forall l :: l in links[..j + 1] <==> l in links[..j] || l == links[j];
  }

  /** Under y, `dependents` has what `before` had, and id as well if y is among the hits. */
  ghost predicate Entered(before: Graph, dependents: Graph, hits: set<string>, id: string, y: string) {
    && Distinct(Succ(dependents, y))
    && Elements(Succ(dependents, y)) == Elements(Succ(before, y)) + (if y in hits then {id} else {})
  }

  ghost predicate AllEntered(before: Graph, dependents: Graph, hits: set<string>, id: string) {
    forall y :: Entered(before, dependents, hits, id, y)
  }

  lemma EnterOne(before: Graph, dependents: Graph, hits: set<string>, id: string, target: string,
                 dependents': Graph, hits': set<string>)
    requires target !in hits && hits' == hits + {target}
    requires dependents' == dependents[target := Succ(dependents, target) + [id]]
    requires forall y :: id !in Succ(before, y)
    requires AllEntered(before, dependents, hits, id)
    ensures AllEntered(before, dependents', hits', id)
  {
    forall y ensures Entered(before, dependents', hits', id, y) {
      assert Entered(before, dependents, hits, id, y) && id !in Succ(before, y);
      if y == target {
        assert id !in Elements(Succ(dependents, y));
        ElementsSnoc(Succ(dependents, y), id);
      } else {
        assert Succ(dependents', y) == Succ(dependents, y);
      }
    }
  }

  /** Counts the in-set prerequisites of one id and enters it with each of them. */
  method CountOne(links: seq<Link>, ids: set<string>, id: string, indegree0: map<string, nat>, dependents0: Graph)
    returns (indegree: map<string, nat>, dependents: Graph)
    requires Distinct(links) && id !in indegree0
    requires forall y :: Distinct(Succ(dependents0, y)) && id !in Succ(dependents0, y)
    ensures indegree == indegree0[id := |Hits(links, ids)|]
    ensures AllEntered(dependents0, dependents, Hits(links, ids), id)
  {
    indegree, dependents := indegree0[id := 0], dependents0;
    for j := 0 to |links|
      invariant indegree == indegree0[id := |Hits(links[..j], ids)|]
      invariant AllEntered(dependents0, dependents, Hits(links[..j], ids), id)
    {
      HitsSnoc(links, j, ids);
      var target := links[j].target;
      if links[j].pred == RequiresPrerequisite && target in ids {
        ghost var before, hits := dependents, Hits(links[..j], ids);
        indegree := indegree[id := indegree[id] + 1];
        dependents := dependents[target := Succ(dependents, target) + [id]];
        EnterOne(dependents0, before, hits, id, target, dependents, Hits(links[..j + 1], ids));
      }
    }
    assert links[..|links|] == links;
  }

  method CountPrerequisites(ids: set<string>, byID: map<string, Page>)
    returns (indegree: map<string, nat>, dependents: Graph)
    ensures DegreesOk(indegree, LinkGraph(byID, RequiresPrerequisite), ids, ids, {})
    ensures DependentsOk(dependents, LinkGraph(byID, RequiresPrerequisite), ids, ids)
  {
    ghost var g := LinkGraph(byID, RequiresPrerequisite);
    indegree, dependents := map[], map[];
    var keys := ListKeys(ids);
    ghost var D: set<string> := {};
    for i := 0 to |keys|
      invariant D == Elements(keys[..i])
      invariant DegreesOk(indegree, g, ids, D, {}) && DependentsOk(dependents, g, ids, D)
    {
      var id := keys[i];
      assert keys[..i + 1] == keys[..i] + [id] && id !in keys[..i];
      ElementsSnoc(keys[..i], id);
      assert id !in D;
      ghost var indegree0, dependents0 := indegree, dependents;
      var links := [];
      if id in byID { links := AllLinks(byID[id]); }
      assert Hits(links, ids) == Pre(g, ids, id);
      forall y ensures Distinct(Succ(dependents, y)) && id !in Succ(dependents, y) {
        assert DependentsAt(dependents, g, ids, D, y);
        assert id !in Elements(Succ(dependents, y));
      }
      indegree, dependents := CountOne(links, ids, id, indegree, dependents);
      CountedDegrees(indegree0, indegree, g, ids, D, id);
      CountedDependents(dependents0, dependents, g, ids, D, id);
      D := D + {id};
    }
    assert keys[..|keys|] == keys;
  }

  lemma CountedDegrees(indegree0: map<string, nat>, indegree: map<string, nat>,
                       g: Graph, ids: set<string>, D: set<string>, id: string)
    requires id !in D && DegreesOk(indegree0, g, ids, D, {})
    requires indegree == indegree0[id := |Pre(g, ids, id)|]
    ensures DegreesOk(indegree, g, ids, D + {id}, {})
  {
    assert Missing(g, ids, id, {}) == |Pre(g, ids, id)| by { assert Pre(g, ids, id) - {} == Pre(g, ids, id); }
    assert indegree.Keys == indegree0.Keys + {id};
    forall d | d in D ensures indegree[d] == Missing(g, ids, d, {}) { assert indegree[d] == indegree0[d]; }
  }

  lemma CountedDependents(dependents0: Graph, dependents: Graph, g: Graph, ids: set<string>, D: set<string>, id: string)
    requires id !in D && DependentsOk(dependents0, g, ids, D)
    requires AllEntered(dependents0, dependents, Pre(g, ids, id), id)
    ensures DependentsOk(dependents, g, ids, D + {id})
  {
    forall y ensures DependentsAt(dependents, g, ids, D + {id}, y) {
      assert DependentsAt(dependents0, g, ids, D, y) && Entered(dependents0, dependents, Pre(g, ids, id), id, y);
    }
  }

  /** Of some ids, those with all prerequisites out, in the same order. */
  ghost function Released(g: Graph, ids: set<string>, out: set<string>, next: seq<string>): seq<string> {
    if next == [] then []
    else
      var n := |next| - 1;
      var r := Released(g, ids, out, next[..n]);
      if Pre(g, ids, next[n]) <= out then r + [next[n]] else r
  }

  lemma {:induction false} ReleasedExact(g: Graph, ids: set<string>, out: set<string>, next: seq<string>)
    requires Increasing(next, StringLess)
    ensures var r := Released(g, ids, out, next);
            && (forall d :: d in r <==> d in next && Pre(g, ids, d) <= out)
            && Increasing(r, StringLess)
  {
    if next != [] {
      var n := |next| - 1;
      ReleasedExact(g, ids, out, next[..n]);
      assert next == next[..n] + [next[n]];
      var r := Released(g, ids, out, next[..n]);
      forall i | 0 <= i < |r| ensures StringLess(r[i], next[n]) {
        assert r[i] in r;
        var k :| 0 <= k < n && next[k] == r[i];
      }
    }
  }

  lemma ReleasedIsUnlocked(g: Graph, ids: set<string>, out: set<string>, x: string, dependents: seq<string>)
    requires Distinct(dependents)
    requires Elements(dependents) == set d | d in ids && x in Pre(g, ids, d)
    requires forall d :: d in out && d in ids ==> x !in Pre(g, ids, d)
    ensures Released(g, ids, out, Sort(dependents, StringLess)) == Ascending(Unlocked(g, ids, out, x), StringLess)
  {
    var next := Sort(dependents, StringLess);
    StringLessStrictTotal();
    SortIncreasing(dependents, StringLess);
    ReleasedExact(g, ids, out, next);
    var a := Ascending(Unlocked(g, ids, out, x), StringLess);
    AscendingIncreasing(Unlocked(g, ids, out, x), StringLess);
    forall d ensures d in Released(g, ids, out, next) <==> d in a {
      assert d in a <==> d in Elements(a);
      assert d in next <==> d in Elements(dependents);
    }
    IncreasingUnique(Released(g, ids, out, next), a, StringLess);
  }

  lemma MissingStep(g: Graph, ids: set<string>, d: string, out: set<string>, x: string)
    requires x !in out
    ensures Missing(g, ids, d, out + {x}) == Missing(g, ids, d, out) - (if x in Pre(g, ids, d) then 1 else 0)
    ensures Missing(g, ids, d, out) == 0 <==> Pre(g, ids, d) <= out
    ensures Missing(g, ids, d, out + {x}) == 0 <==> Pre(g, ids, d) <= out + {x}
  {
    var rest := Pre(g, ids, d) - out;
    if x in rest {
      assert Pre(g, ids, d) - (out + {x}) == rest - {x};
    } else {
      assert Pre(g, ids, d) - (out + {x}) == rest;
    }
    assert forall y :: y in Pre(g, ids, d) ==> y in out || y in rest;
    assert forall y :: y in Pre(g, ids, d) ==> y in out + {x} || y in Pre(g, ids, d) - (out + {x});
  }

  /** The degrees after one was taken off each id of a list. */
  ghost predicate CountedOff(before: map<string, nat>, indegree: map<string, nat>, done: seq<string>) {
    indegree.Keys == before.Keys
    && forall d :: d in before ==> indegree[d] + (if d in done then 1 else 0) == before[d]
  }

  lemma CountOffStep(before: map<string, nat>, indegree: map<string, nat>, next: seq<string>, k: nat)
    requires Distinct(next) && k < |next| && next[k] in before && before[next[k]] > 0
    requires CountedOff(before, indegree, next[..k])
    ensures indegree[next[k]] == before[next[k]]
    ensures CountedOff(before, indegree[next[k] := indegree[next[k]] - 1], next[..k + 1])
  {
    SnocMembers(next, k);
  }

  lemma CountOffDone(before: map<string, nat>, indegree: map<string, nat>, next: seq<string>,
                     g: Graph, ids: set<string>, out: set<string>, x: string)
    requires DegreesOk(before, g, ids, ids, out) && x !in out && CountedOff(before, indegree, next)
    requires Elements(next) == set d | d in ids && x in Pre(g, ids, d)
    ensures DegreesOk(indegree, g, ids, ids, out + {x})
  {
    forall d | d in ids ensures indegree[d] == Missing(g, ids, d, out + {x}) {
      MissingStep(g, ids, d, out, x);
      assert d in Elements(next) <==> d in next;
    }
  }

  /** Of some ids, those with a single prerequisite missing, in the same order. */
  function LastMissing(indegree: map<string, nat>, next: seq<string>): seq<string>
    requires forall i :: 0 <= i < |next| ==> next[i] in indegree
  {
    if next == [] then []
    else
      var n := |next| - 1;
      LastMissing(indegree, next[..n]) + (if indegree[next[n]] == 1 then [next[n]] else [])
  }

  lemma {:induction false} LastMissingIsReleased(indegree: map<string, nat>, next: seq<string>,
                                                 g: Graph, ids: set<string>, out: set<string>, x: string)
    requires DegreesOk(indegree, g, ids, ids, out) && x !in out
    requires forall i :: 0 <= i < |next| ==> next[i] in ids && x in Pre(g, ids, next[i])
    ensures LastMissing(indegree, next) == Released(g, ids, out + {x}, next)
  {
    if next != [] {
      var n := |next| - 1;
      LastMissingIsReleased(indegree, next[..n], g, ids, out, x);
      MissingStep(g, ids, next[n], out, x);
    }
  }

  lemma MissingPositive(indegree: map<string, nat>, next: seq<string>,
                        g: Graph, ids: set<string>, out: set<string>, x: string)
    requires DegreesOk(indegree, g, ids, ids, out) && x !in out
    requires Elements(next) == set d | d in ids && x in Pre(g, ids, d)
    ensures forall i :: 0 <= i < |next| ==>
              next[i] in ids && x in Pre(g, ids, next[i]) && next[i] in indegree && indegree[next[i]] > 0
  {
    forall i | 0 <= i < |next|
      ensures next[i] in ids && x in Pre(g, ids, next[i]) && next[i] in indegree && indegree[next[i]] > 0
    {
      assert next[i] in Elements(next);
      MissingStep(g, ids, next[i], out, x);
    }
  }

  /** Counts one off each listed id and queues those with nothing missing. */
  method CountOff(next: seq<string>, indegree0: map<string, nat>, ready0: seq<string>)
    returns (indegree: map<string, nat>, ready: seq<string>)
    requires Distinct(next) && forall i :: 0 <= i < |next| ==> next[i] in indegree0 && indegree0[next[i]] > 0
    ensures CountedOff(indegree0, indegree, next)
    ensures ready == ready0 + LastMissing(indegree0, next)
  {
    indegree, ready := indegree0, ready0;
    for k := 0 to |next|
      invariant CountedOff(indegree0, indegree, next[..k])
      invariant ready == ready0 + LastMissing(indegree0, next[..k])
    {
      CountOffStep(indegree0, indegree, next, k);
      assert next[..k + 1][..k] == next[..k];
      var dep := next[k];
      indegree := indegree[dep := indegree[dep] - 1];
      if indegree[dep] == 0 { ready := ready + [dep]; }
    }
    assert next[..|next|] == next;
  }

  lemma SnocMembers(next: seq<string>, k: nat)
    requires Distinct(next) && k < |next|
    ensures next[k] !in next[..k] && next[..k + 1][..k] == next[..k] && next[..k + 1][k] == next[k]
    ensures forall d :: d in next[..k + 1] <==> d in next[..k] || d == next[k]
  {
    assert next[..k + 1] == next[..k] + [next[k]];
  }

  /** The ids without in-set prerequisites, sorted. */
  method InitiallyReady(indegree: map<string, nat>, ghost g: Graph, ghost ids: set<string>) returns (ready: seq<string>)
    requires DegreesOk(indegree, g, ids, ids, {})
    ensures ready == Ascending(Available(g, ids, {}), StringLess)
  {
    ready := ZeroKeys(indegree);
    assert Elements(ready) == Available(g, ids, {}) by {
      forall d | d in ids ensures indegree[d] == 0 <==> Pre(g, ids, d) <= {} { MissingZero(g, ids, d); }
    }
    StringLessStrictTotal();
    SortIsAscending(ready, StringLess);
    ready := Sort(ready, StringLess);
  }

  method ZeroKeys(indegree: map<string, nat>) returns (zero: seq<string>)
    ensures Distinct(zero) && Elements(zero) == set d | d in indegree && indegree[d] == 0
  {
    var keys := ListKeys(indegree.Keys);
    assert forall d :: d in keys <==> d in Elements(keys);
    zero := [];
    for i := 0 to |keys|
      invariant Distinct(zero)
      invariant forall d :: d in zero <==> d in keys[..i] && indegree[d] == 0
    {
      SnocMembers(keys, i);
      if indegree[keys[i]] == 0 { zero := zero + [keys[i]]; }
    }
    assert keys[..|keys|] == keys;
  }

  lemma MissingZero(g: Graph, ids: set<string>, d: string)
    ensures Missing(g, ids, d, {}) == 0 <==> Pre(g, ids, d) <= {}
  {
    assert Pre(g, ids, d) - {} == Pre(g, ids, d);
  }

  /** The ids not listed yet, sorted. */
  method Leftovers(keys0: set<string>, out: seq<string>) returns (rest: seq<string>)
    ensures rest == Ascending(keys0 - Elements(out), StringLess)
  {
    var keys := ListKeys(keys0);
    rest := [];
    for i := 0 to |keys|
      invariant Distinct(rest)
      invariant forall d :: d in rest <==> d in keys[..i] && d !in out
    {
      assert keys[i] !in keys[..i];
      assert forall d :: d in keys[..i + 1] <==> d in keys[..i] || d == keys[i];
      if keys[i] !in out { rest := rest + [keys[i]]; }
    }
    assert keys[..|keys|] == keys;
    assert Elements(rest) == keys0 - Elements(out) by {
      assert forall d :: d in keys <==> d in Elements(keys);
    }
    StringLessStrictTotal();
    SortIsAscending(rest, StringLess);
    rest := Sort(rest, StringLess);
  }

  /** Nothing that is out waits for x, which was not. */
  lemma OutNeedsOnlyOut(g: Graph, ids: set<string>, out: seq<string>, x: string, d: string)
    requires PrerequisitesFirst(g, ids, out) && x !in out && x !in Pre(g, ids, x) && d in out + [x]
    ensures x !in Pre(g, ids, d)
  {
    if d != x {
      var k :| 0 <= k < |out| && out[k] == d;
      assert Pre(g, ids, out[k]) <= Elements(out[..k]);
      assert x !in Elements(out[..k]);
    }
  }

  /** One turn of the loop is one step of the algorithm. */
  lemma KahnTurn(g: Graph, ids: set<string>, out: seq<string>, ready: seq<string>, dependents: seq<string>)
    requires KahnOk(g, ids, out, ready) && ready != [] && Distinct(dependents)
    requires Elements(dependents) == set d | d in ids && ready[0] in Pre(g, ids, d)
    ensures var out' := out + [ready[0]];
            var ready' := ready[1..] + Released(g, ids, Elements(out) + {ready[0]}, Sort(dependents, StringLess));
            && ready[0] in ids && ready[0] !in Elements(out) && |out| < |ids|
            && KahnOk(g, ids, out', ready') && KahnFrom(g, ids, out, ready) == KahnFrom(g, ids, out', ready')
  {
    var x := ready[0];
    var out' := out + [x];
    assert x in Elements(ready);
    ElementsSnoc(out, x);
    forall d | d in Elements(out') && d in ids ensures x !in Pre(g, ids, d) {
      OutNeedsOnlyOut(g, ids, out, x, d);
    }
    ReleasedIsUnlocked(g, ids, Elements(out'), x, dependents);
    UnlockedList(g, ids, Elements(out'), x);
    KahnStep(g, ids, out, ready, Ascending(Unlocked(g, ids, Elements(out'), x), StringLess));
  }

  lemma SortedElements(s: seq<string>)
    requires Distinct(s)
    ensures Distinct(Sort(s, StringLess)) && Elements(Sort(s, StringLess)) == Elements(s)
  {
    StringLessStrictTotal();
    SortIncreasing(s, StringLess);
    IncreasingDistinct(Sort(s, StringLess), StringLess);
  }

  /** Whatever order the maps are iterated in, the result is the one topological order. */
  method TopoByPrerequisite(ids: set<string>, byID: map<string, Page>) returns (out: seq<string>)
    ensures out == Topological(LinkGraph(byID, RequiresPrerequisite), ids)
  {
    ghost var g := LinkGraph(byID, RequiresPrerequisite);
    var indegree, dependents := CountPrerequisites(ids, byID);
    var ready := InitiallyReady(indegree, g, ids);
    KahnStart(g, ids);
    out := [];
    assert Elements(out) == {};
    while |ready| > 0
      invariant KahnOk(g, ids, out, ready) && KahnFrom(g, ids, out, ready) == Ordered(g, ids)
      invariant DegreesOk(indegree, g, ids, ids, Elements(out))
      decreases |ids| - |out|
    {
      var id := ready[0];
      assert DependentsAt(dependents, g, ids, ids, id);
      KahnTurn(g, ids, out, ready, Succ(dependents, id));
      SortedElements(Succ(dependents, id));
      ElementsSnoc(out, id);
      var next := Sort(Succ(dependents, id), StringLess);
      MissingPositive(indegree, next, g, ids, Elements(out), id);
      LastMissingIsReleased(indegree, next, g, ids, Elements(out), id);
      ghost var before, indegree' := Elements(out), indegree;
      out := out + [id];
      indegree, ready := CountOff(next, indegree, ready[1..]);
      CountOffDone(indegree', indegree, next, g, ids, before, id);
    }
    assert out == Ordered(g, ids);
    if |out| < |indegree| {
      var rest := Leftovers(indegree.Keys, out);
      out := out + rest;
    } else {
      NothingLeft(out, ids);
    }
  }

  lemma NothingLeft(out: seq<string>, ids: set<string>)
    requires Distinct(out) && Elements(out) <= ids && |ids| <= |out|
    ensures out + Ascending(ids - Elements(out), StringLess) == out
  {
    if ids - Elements(out) != {} {
      var x :| x in ids - Elements(out);
      assert forall i :: 0 <= i < |out| ==> out[i] in Elements(out);
      DistinctFits(out, ids - {x});
    }
    var a := Ascending(ids - Elements(out), StringLess);
    NonemptyElements(a);
  }

  lemma NonemptyElements(s: seq<string>)
    ensures s != [] ==> Elements(s) != {}
  {
    if s != [] { assert s[0] in Elements(s); }
  }
}
