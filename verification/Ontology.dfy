/** The terminology index (go/memory/ontology/tbox.go, validate.go): nearest terms by edit
    distance, and the worklists over subclass and broader links, on any finite graph. */
module Ontology {
  import opened Sorting
  import opened Graphs
  import Levenshtein

  datatype Triple = Triple(subject: string, predicate_: string, object_: string)

  const SkosBroader := "http://www.w3.org/2004/02/skos/core#broader"
  const SkosRelated := "http://www.w3.org/2004/02/skos/core#related"

  // ---- Nearest ----

  /** The position of the last occurrence, or -1. */
  function LastIndex(s: string, c: char): (i: int)
    ensures -1 <= i < |s| && (i == -1 <==> c !in s)
    ensures i >= 0 ==> s[i] == c && c !in s[i + 1..]
  {
    if s == [] then -1
    else if s[|s| - 1] == c then |s| - 1
    else
      var i := LastIndex(s[..|s| - 1], c);
      assert s == s[..|s| - 1] + [s[|s| - 1]];
      assert i >= 0 ==> s[i + 1..] == s[..|s| - 1][i + 1..] + [s[|s| - 1]];
      i
  }

  /** The text has the separator, and does not end with it. */
  predicate EndsAfter(s: string, c: char) {
    c in s && s[|s| - 1] != c
  }

  /** The text is something, the separator, and a last part without it. */
  predicate IsTail(s: string, c: char, r: string) {
    |r| < |s| && s[|s| - |r| - 1] == c && s[|s| - |r|..] == r && c !in r
  }

  /** A position with something behind it. */
  predicate Inside(s: string, i: int) {
    0 <= i < |s| - 1
  }

  /** The position is that of a last separator with something behind it, if there is one. */
  predicate LastAt(s: string, c: char, i: int) {
    (Inside(s, i) <==> EndsAfter(s, c)) && (Inside(s, i) ==> IsTail(s, c, s[i + 1..]))
  }

  lemma LastPart(s: string, c: char, i: int)
    requires i == LastIndex(s, c)
    ensures LastAt(s, c, i)
  {
    if 0 <= i < |s| - 1 { assert s[i + 1..][|s| - i - 2] == s[|s| - 1]; }
  }

  /** What follows the last '#', else the last '/', unless nothing does. */
  function LocalName(iri: string): string {
    NameAfter(iri, LastIndex(iri, '#'), LastIndex(iri, '/'))
  }

  function NameAfter(iri: string, hash: int, slash: int): string {
    if Inside(iri, hash) then iri[hash + 1..] else if Inside(iri, slash) then iri[slash + 1..] else iri
  }

  lemma LocalNameExactly(iri: string)
    ensures var r := LocalName(iri);
            if EndsAfter(iri, '#') then IsTail(iri, '#', r)
            else if EndsAfter(iri, '/') then IsTail(iri, '/', r)
            else r == iri
  {
    var hash, slash := LastIndex(iri, '#'), LastIndex(iri, '/');
    LastPart(iri, '#', hash);
    LastPart(iri, '/', slash);
    NameAfterExactly(iri, hash, slash);
  }

  lemma NameAfterExactly(iri: string, hash: int, slash: int)
    requires LastAt(iri, '#', hash) && LastAt(iri, '/', slash)
    ensures var r := NameAfter(iri, hash, slash);
            if EndsAfter(iri, '#') then IsTail(iri, '#', r)
            else if EndsAfter(iri, '/') then IsTail(iri, '/', r)
            else r == iri
  {
  }

  /** x ranks before y: smaller distance of local names, then the smaller IRI. Lower-casing
      is the library's and stays a parameter. */
  predicate Closer(lower: string -> string, target: string, x: string, y: string) {
    var dx, dy := Levenshtein.Dist(target, lower(LocalName(x))), Levenshtein.Dist(target, lower(LocalName(y)));
    dx < dy || (dx == dy && StringLess(x, y))
  }

  function Rank(lower: string -> string, target: string): (string, string) -> bool {
    (x, y) => Closer(lower, target, x, y)
  }

  lemma CloserStrictTotal(lower: string -> string, target: string)
    ensures StrictTotal(Rank(lower, target))
  {
    StringLessStrictTotal();
  }

  /** How far a term is from the one looked for: the length of a shortest edit script
      between the lower-cased local names. */
  function Away(lower: string -> string, iri: string, x: string): (d: nat)
    ensures Levenshtein.ShortestScriptLength(lower(LocalName(iri)), lower(LocalName(x)), d)
  {
    Levenshtein.DistIsShortest(lower(LocalName(iri)), lower(LocalName(x)));
    Levenshtein.Dist(lower(LocalName(iri)), lower(LocalName(x)))
  }

  /** x is no farther than y, and has the smaller IRI if it is as far. */
  ghost predicate NoFarther(lower: string -> string, iri: string, x: string, y: string) {
    && Away(lower, iri, x) <= Away(lower, iri, y)
    && (Away(lower, iri, x) == Away(lower, iri, y) ==> StringLess(x, y))
  }

  lemma CloserIsNoFarther(lower: string -> string, iri: string, x: string, y: string)
    requires Closer(lower, lower(LocalName(iri)), x, y)
    ensures NoFarther(lower, iri, x, y)
  {
  }

  /** The n nearest known terms: as many as there are up to n, each once, nearest first, ties
      by IRI, and each no farther than any known term left out, with the smaller IRI at equal
      distance, whatever order the pool comes in. */
  method Nearest(known: set<string>, lower: string -> string, iri: string, n: nat) returns (r: seq<string>)
    ensures Distinct(r) && Elements(r) <= known && |r| == if |known| < n then |known| else n
    ensures forall i, j :: 0 <= i < j < |r| ==> NoFarther(lower, iri, r[i], r[j])
    ensures forall x, y :: x in r && y in known && y !in r ==> NoFarther(lower, iri, x, y)
  {
    var pool := ListKeys(known);
    var rank := Rank(lower, lower(LocalName(iri)));
    CloserStrictTotal(lower, lower(LocalName(iri)));
    SortIsAscending(pool, rank);
    pool := Sort(pool, rank);
    AscendingIncreasing(known, rank);
    DistinctCounts(pool);
    r := pool;
    if |pool| > n { r := pool[..n]; }
    PrefixIsNearest(known, lower, iri, pool, r, rank);
  }

  lemma PrefixIsNearest(known: set<string>, lower: string -> string, iri: string, pool: seq<string>, r: seq<string>,
                        rank: (string, string) -> bool)
    requires rank == Rank(lower, lower(LocalName(iri))) && StrictTotal(rank)
    requires Increasing(pool, rank) && Elements(pool) == known && r <= pool
    ensures Distinct(r) && Elements(r) <= known
    ensures forall i, j :: 0 <= i < j < |r| ==> NoFarther(lower, iri, r[i], r[j])
    ensures forall x, y :: x in r && y in known && y !in r ==> NoFarther(lower, iri, x, y)
  {
    PrefixRanks(pool, |r|, rank);
    assert r == pool[..|r|];
    assert forall x :: x in r ==> x in Elements(pool);
    forall i, j | 0 <= i < j < |r| ensures NoFarther(lower, iri, r[i], r[j]) {
      assert rank(r[i], r[j]);
      CloserIsNoFarther(lower, iri, r[i], r[j]);
    }
    forall x, y | x in r && y in known && y !in r ensures NoFarther(lower, iri, x, y) {
      assert y in Elements(pool);
      assert rank(x, y);
      CloserIsNoFarther(lower, iri, x, y);
    }
  }

  lemma PrefixRanks(s: seq<string>, n: nat, less: (string, string) -> bool)
    requires StrictTotal(less) && Increasing(s, less) && n <= |s|
    ensures Distinct(s[..n]) && Increasing(s[..n], less)
    ensures forall x, y :: x in s[..n] && y in s && y !in s[..n] ==> less(x, y)
  {
    assert forall j :: 0 <= j < n ==> s[j] in s[..n];
    forall x, y | x in s[..n] && y in s && y !in s[..n] ensures less(x, y) {
      var i :| 0 <= i < n && s[i] == x;
      var j :| 0 <= j < |s| && s[j] == y;
    }
  }

  // ---- Links as triples ----

  /** The graph has a link exactly for each triple of the predicate. */
  ghost predicate LinksAre(g: Graph, triples: seq<Triple>, pred: string) {
    forall x, y :: y in Succ(g, x) <==> Triple(x, pred, y) in triples
  }

  /** The links of one predicate, in the order of the triples. */
  method Adjacency(triples: seq<Triple>, pred: string) returns (g: Graph)
    ensures LinksAre(g, triples, pred)
  {
    g := map[];
    for i := 0 to |triples|
      invariant forall x, y :: y in Succ(g, x) <==> Triple(x, pred, y) in triples[..i]
    {
      var t := triples[i];
      ghost var g0 := g;
      if t.predicate_ == pred { g := g[t.subject := Succ(g, t.subject) + [t.object_]]; }
      assert triples[..i + 1] == triples[..i] + [t];
      forall x, y ensures y in Succ(g, x) <==> Triple(x, pred, y) in triples[..i + 1] {
        assert y in Succ(g0, x) <==> Triple(x, pred, y) in triples[..i];
      }
    }
    assert triples[..|triples|] == triples;
  }

  // ---- IsSubclassOf ----

  /** Everything seen or queued is reachable, and links of seen nodes lead to one of them. */
  ghost predicate Searching(g: Graph, start: string, seen: set<string>, queue: seq<string>) {
    && start in seen && (forall x :: x in seen ==> Reaches(g, start, x))
    && (forall i :: 0 <= i < |queue| ==> Reaches(g, start, queue[i]))
    && (forall x, y :: x in seen && y in Succ(g, x) ==> y in seen || y in queue)
  }

  lemma SearchStart(g: Graph, start: string)
    ensures Searching(g, start, {start}, Succ(g, start))
  {
    ReachesSelf(g, start);
    forall i | 0 <= i < |Succ(g, start)| ensures Reaches(g, start, Succ(g, start)[i]) {
      ReachesStep(g, start, start, Succ(g, start)[i]);
    }
  }

  lemma SearchStep(g: Graph, start: string, seen: set<string>, queue: seq<string>)
    requires Searching(g, start, seen, queue) && queue != []
    ensures queue[0] in seen ==> Searching(g, start, seen, queue[1..])
    ensures queue[0] !in seen ==> Searching(g, start, seen + {queue[0]}, queue[1..] + Succ(g, queue[0]))
  {
    var c, next := queue[0], Succ(g, queue[0]);
    assert forall x :: x in queue ==> x == c || x in queue[1..];
    forall i | 0 <= i < |next| ensures Reaches(g, start, next[i]) { ReachesStep(g, start, c, next[i]); }
    forall x, y | x in seen + {c} && y in Succ(g, x) ensures y in seen + {c} || y in queue[1..] + next {
      assert x == c ==> y in next;
    }
  }

  lemma SearchShrinks(g: Graph, start: string, seen: set<string>, c: string)
    requires (forall x :: x in seen ==> Reaches(g, start, x)) && Reaches(g, start, c) && c !in seen
    ensures |Nodes(g, start) - (seen + {c})| < |Nodes(g, start) - seen|
  {
    ReachableIsNode(g, start, c);
    assert Nodes(g, start) - (seen + {c}) == (Nodes(g, start) - seen) - {c};
  }

  lemma ReachableIsNode(g: Graph, start: string, x: string)
    requires Reaches(g, start, x)
    ensures x in Nodes(g, start)
  {
    var p :| WalkBetween(g, p, start, x);
    if |p| > 1 { assert LinkAt(g, p, |p| - 2); }
  }

  lemma SearchEnd(g: Graph, start: string, seen: set<string>)
    requires Searching(g, start, seen, [])
    ensures forall x :: Reaches(g, start, x) <==> x in seen
  {
    assert Closed(g, seen);
    ClosedHoldsReachable(g, seen, start);
  }

  /** Subclass means reachable by zero or more links, cycles and duplicates included. */
  method IsSubclassOf(superOf: Graph, class_: string, ancestor: string) returns (r: bool)
    ensures r <==> Reaches(superOf, class_, ancestor)
  {
    if class_ == ancestor {
      ReachesSelf(superOf, class_);
      return true;
    }
    var seen := {class_};
    var queue := Succ(superOf, class_);
    SearchStart(superOf, class_);
    while |queue| > 0
      invariant Searching(superOf, class_, seen, queue) && ancestor !in seen
      decreases |Nodes(superOf, class_) - seen|, |queue|
    {
      var c := queue[0];
      SearchStep(superOf, class_, seen, queue);
      queue := queue[1..];
      if c == ancestor { return true; }
      if c in seen { continue; }
      SearchShrinks(superOf, class_, seen, c);
      seen := seen + {c};
      queue := queue + Succ(superOf, c);
    }
    SearchEnd(superOf, class_, seen);
    return false;
  }

  // ---- TransitiveBroader ----

  ghost predicate HasWalk(g: Graph, start: string, x: string, n: nat) {
    exists p :: WalkBetween(g, p, start, x) && |p| == n + 1
  }

  ghost predicate Queued(queue: seq<string>, levels: seq<nat>, y: string, level: nat)
    requires |queue| == |levels|
  {
    exists i :: 0 <= i < |queue| && queue[i] == y && levels[i] <= level
  }

  /** The levels of the queue never fall and differ by at most one, and nothing seen is
      farther away than they say. */
  ghost predicate InLevelOrder(dist: map<string, nat>, levels: seq<nat>) {
    && (forall i, j :: 0 <= i < j < |levels| ==> levels[i] <= levels[j] <= levels[i] + 1)
    && (forall i, x :: 0 <= i < |levels| && x in dist ==> dist[x] <= levels[i])
  }

  ghost predicate HaveWalks(g: Graph, start: string, queue: seq<string>, levels: seq<nat>)
    requires |queue| == |levels|
  {
    forall i :: 0 <= i < |queue| ==> HasWalk(g, start, queue[i], levels[i])
  }

  /** A link from a seen node leads to a seen or a queued one. */
  ghost predicate Covered(g: Graph, dist: map<string, nat>, queue: seq<string>, levels: seq<nat>)
    requires |queue| == |levels|
  {
    forall x, y :: x in dist && y in Succ(g, x) ==> y in dist || Queued(queue, levels, y, dist[x] + 1)
  }

  ghost predicate TrueDistances(g: Graph, start: string, dist: map<string, nat>) {
    start in dist && forall x :: x in dist ==> Distance(g, start, x, dist[x])
  }

  /** `levels` numbers the queue: entry i was queued by a node one link nearer. */
  ghost predicate Levelled(g: Graph, start: string, dist: map<string, nat>, queue: seq<string>, levels: seq<nat>) {
    && |levels| == |queue| && TrueDistances(g, start, dist) && InLevelOrder(dist, levels)
    && HaveWalks(g, start, queue, levels) && Covered(g, dist, queue, levels)
  }

  lemma {:induction false} FirstUnseen(p: seq<string>, seen: set<string>) returns (j: nat)
    requires p != [] && p[0] in seen && p[|p| - 1] !in seen
    ensures 0 < j < |p| && p[j - 1] in seen && p[j] !in seen
  {
    if p[1] !in seen {
      j := 1;
    } else {
      j := FirstUnseen(p[1..], seen);
      j := j + 1;
    }
  }

  /** The head of the queue, if new, is as far away as its level says. */
  lemma HeadDistance(g: Graph, start: string, dist: map<string, nat>, queue: seq<string>, levels: seq<nat>)
    requires Levelled(g, start, dist, queue, levels) && queue != [] && queue[0] !in dist
    ensures Distance(g, start, queue[0], levels[0])
  {
    forall p | WalkBetween(g, p, start, queue[0]) ensures levels[0] + 1 <= |p| {
      HeadIsFar(g, start, dist, queue, levels, p);
    }
  }

  lemma HeadIsFar(g: Graph, start: string, dist: map<string, nat>, queue: seq<string>, levels: seq<nat>, p: seq<string>)
    requires Levelled(g, start, dist, queue, levels) && queue != [] && queue[0] !in dist
    requires WalkBetween(g, p, start, queue[0])
    ensures levels[0] + 1 <= |p|
  {
    var j := FirstUnseen(p, dist.Keys);
    var x, y := p[j - 1], p[j];
    assert LinkAt(g, p, j - 1);
    WalkPart(g, p, 0, j);
    assert p[0..j] == p[..j];
    assert WalkBetween(g, p[..j], start, x);
    assert dist[x] + 1 <= |p[..j]|;
    assert Queued(queue, levels, y, dist[x] + 1);
    var i :| 0 <= i < |queue| && queue[i] == y && levels[i] <= dist[x] + 1;
    assert levels[0] <= levels[i];
  }

  function Repeat(n: nat, level: nat): seq<nat> {
    seq(n, i => level)
  }

  lemma QueuedTail(queue: seq<string>, levels: seq<nat>, more: seq<string>, moreLevels: seq<nat>, y: string, level: nat)
    requires |queue| == |levels| > 0 && |more| == |moreLevels| && y != queue[0] && Queued(queue, levels, y, level)
    ensures Queued(queue[1..] + more, levels[1..] + moreLevels, y, level)
  {
    var i :| 0 <= i < |queue| && queue[i] == y && levels[i] <= level;
    assert (queue[1..] + more)[i - 1] == y && (levels[1..] + moreLevels)[i - 1] == levels[i];
  }

  lemma SkipKeepsLevels(g: Graph, start: string, dist: map<string, nat>, queue: seq<string>, levels: seq<nat>)
    requires Levelled(g, start, dist, queue, levels) && queue != [] && queue[0] in dist
    ensures Levelled(g, start, dist, queue[1..], levels[1..])
  {
    forall x, y | x in dist && y in Succ(g, x) ensures y in dist || Queued(queue[1..], levels[1..], y, dist[x] + 1) {
      if y !in dist {
        QueuedTail(queue, levels, [], [], y, dist[x] + 1);
        assert queue[1..] + [] == queue[1..] && levels[1..] + [] == levels[1..];
      }
    }
  }

  lemma VisitKeepsOrder(dist: map<string, nat>, levels: seq<nat>, c: string, n: nat)
    requires InLevelOrder(dist, levels) && levels != []
    ensures InLevelOrder(dist[c := levels[0]], levels[1..] + Repeat(n, levels[0] + 1))
  {
    var levels' := levels[1..] + Repeat(n, levels[0] + 1);
    assert forall i :: 0 <= i < |levels'| ==> levels[0] <= levels'[i] <= levels[0] + 1;
  }

  lemma VisitKeepsWalks(g: Graph, start: string, queue: seq<string>, levels: seq<nat>)
    requires |queue| == |levels| > 0 && HaveWalks(g, start, queue, levels)
    ensures var next := Succ(g, queue[0]);
            HaveWalks(g, start, queue[1..] + next, levels[1..] + Repeat(|next|, levels[0] + 1))
  {
    var c, next, l := queue[0], Succ(g, queue[0]), levels[0];
    var p :| WalkBetween(g, p, start, c) && |p| == l + 1;
    forall k | 0 <= k < |next| ensures HasWalk(g, start, next[k], l + 1) {
      WalkSnoc(g, p, next[k]);
      assert WalkBetween(g, p + [next[k]], start, next[k]);
    }
  }

  lemma VisitKeepsCovered(g: Graph, dist: map<string, nat>, queue: seq<string>, levels: seq<nat>)
    requires |queue| == |levels| > 0 && Covered(g, dist, queue, levels) && queue[0] !in dist
    ensures var c, next := queue[0], Succ(g, queue[0]);
            Covered(g, dist[c := levels[0]], queue[1..] + next, levels[1..] + Repeat(|next|, levels[0] + 1))
  {
    var c, next, l := queue[0], Succ(g, queue[0]), levels[0];
    var dist', queue', levels' := dist[c := l], queue[1..] + next, levels[1..] + Repeat(|next|, l + 1);
    forall x, y | x in dist' && y in Succ(g, x) ensures y in dist' || Queued(queue', levels', y, dist'[x] + 1) {
      if x == c {
        var k :| 0 <= k < |next| && next[k] == y;
        assert queue'[|queue| - 1 + k] == y && levels'[|queue| - 1 + k] == l + 1;
      } else if y !in dist' {
        QueuedTail(queue, levels, next, Repeat(|next|, l + 1), y, dist[x] + 1);
      }
    }
  }

  lemma VisitKeepsLevels(g: Graph, start: string, dist: map<string, nat>, queue: seq<string>, levels: seq<nat>)
    requires Levelled(g, start, dist, queue, levels) && queue != [] && queue[0] !in dist
    ensures var c, next := queue[0], Succ(g, queue[0]);
            Levelled(g, start, dist[c := levels[0]], queue[1..] + next, levels[1..] + Repeat(|next|, levels[0] + 1))
  {
    HeadDistance(g, start, dist, queue, levels);
    VisitKeepsOrder(dist, levels, queue[0], |Succ(g, queue[0])|);
    VisitKeepsWalks(g, start, queue, levels);
    VisitKeepsCovered(g, dist, queue, levels);
  }

  lemma LevelsStart(g: Graph, start: string)
    ensures Levelled(g, start, map[start := 0], Succ(g, start), Repeat(|Succ(g, start)|, 1))
  {
    var next := Succ(g, start);
    assert WalkBetween(g, [start], start, start);
    forall i | 0 <= i < |next| ensures HasWalk(g, start, next[i], 1) {
      WalkSnoc(g, [start], next[i]);
      assert WalkBetween(g, [start] + [next[i]], start, next[i]);
    }
    forall y | y in next ensures Queued(next, Repeat(|next|, 1), y, 1) { }
  }

  /** What is listed so far, with the ghost distances of the nodes seen. */
  ghost predicate Visited(subject: string, dist: map<string, nat>, out: seq<string>, depths: seq<nat>) {
    && Distinct(out) && |depths| == |out| && subject in dist
    && (forall x :: x in out <==> x in dist && x != subject)
    && (forall i :: 0 <= i < |out| ==> dist[out[i]] == depths[i])
    && (forall i, j :: 0 <= i < j < |out| ==> depths[i] <= depths[j])
  }

  lemma VisitOne(subject: string, dist: map<string, nat>, out: seq<string>, depths: seq<nat>,
                 levels: seq<nat>, c: string)
    requires Visited(subject, dist, out, depths) && InLevelOrder(dist, levels) && levels != [] && c !in dist
    ensures Visited(subject, dist[c := levels[0]], out + [c], depths + [levels[0]])
  {
    assert forall i :: 0 <= i < |out| ==> out[i] in out && depths[i] <= levels[0];
  }

  /** Between turns of the loop. */
  ghost predicate Broadening(g: Graph, subject: string, seen: set<string>, queue: seq<string>,
                             dist: map<string, nat>, levels: seq<nat>, out: seq<string>, depths: seq<nat>) {
    && Searching(g, subject, seen, queue) && Levelled(g, subject, dist, queue, levels)
    && dist.Keys == seen && Visited(subject, dist, out, depths)
  }

  lemma BroadenStart(g: Graph, subject: string)
    ensures Broadening(g, subject, {subject}, Succ(g, subject), map[subject := 0],
                       Repeat(|Succ(g, subject)|, 1), [], [])
  {
    SearchStart(g, subject);
    LevelsStart(g, subject);
  }

  lemma BroadenStep(g: Graph, subject: string, seen: set<string>, queue: seq<string>,
                    dist: map<string, nat>, levels: seq<nat>, out: seq<string>, depths: seq<nat>,
                    seen': set<string>, queue': seq<string>, dist': map<string, nat>, levels': seq<nat>)
    requires Broadening(g, subject, seen, queue, dist, levels, out, depths) && queue != [] && queue[0] !in seen
    requires seen' == seen + {queue[0]} && queue' == queue[1..] + Succ(g, queue[0])
    requires dist' == dist[queue[0] := levels[0]] && levels' == levels[1..] + Repeat(|Succ(g, queue[0])|, levels[0] + 1)
    ensures Broadening(g, subject, seen', queue', dist', levels', out + [queue[0]], depths + [levels[0]])
    ensures |Nodes(g, subject) - seen'| < |Nodes(g, subject) - seen|
  {
    SearchStep(g, subject, seen, queue);
    SearchShrinks(g, subject, seen, queue[0]);
    VisitKeepsLevels(g, subject, dist, queue, levels);
    VisitOne(subject, dist, out, depths, levels, queue[0]);
  }

  lemma BroadenSkip(g: Graph, subject: string, seen: set<string>, queue: seq<string>,
                    dist: map<string, nat>, levels: seq<nat>, out: seq<string>, depths: seq<nat>)
    requires Broadening(g, subject, seen, queue, dist, levels, out, depths) && queue != [] && queue[0] in seen
    ensures Broadening(g, subject, seen, queue[1..], dist, levels[1..], out, depths)
  {
    SearchStep(g, subject, seen, queue);
    SkipKeepsLevels(g, subject, dist, queue, levels);
  }

  /** Each concept reachable by broader links, other than the subject, once, nearest first:
      `depths` are the numbers of links of the shortest chains. */
  ghost predicate NearestFirst(g: Graph, subject: string, out: seq<string>, depths: seq<nat>) {
    && Distinct(out) && (forall x :: x in out <==> x != subject && Reaches(g, subject, x))
    && |depths| == |out| && (forall i :: 0 <= i < |out| ==> Distance(g, subject, out[i], depths[i]))
    && (forall i, j :: 0 <= i < j < |out| ==> depths[i] <= depths[j])
  }

  ghost predicate ListedNearestFirst(g: Graph, subject: string, out: seq<string>) {
    exists depths :: NearestFirst(g, subject, out, depths)
  }

  lemma BroadenEnd(g: Graph, subject: string, seen: set<string>, queue: seq<string>,
                   dist: map<string, nat>, levels: seq<nat>, out: seq<string>, depths: seq<nat>)
    requires Broadening(g, subject, seen, queue, dist, levels, out, depths) && queue == []
    ensures ListedNearestFirst(g, subject, out)
  {
    SearchEnd(g, subject, seen);
    assert forall i :: 0 <= i < |out| ==> out[i] in out;
    assert NearestFirst(g, subject, out, depths);
  }

  method BroaderOf(broader: Graph, subject: string) returns (out: seq<string>)
    ensures ListedNearestFirst(broader, subject, out)
  {
    var seen := {subject};
    out := [];
    ghost var depths := [];
    var queue := Succ(broader, subject);
    ghost var dist, levels := map[subject := 0], Repeat(|queue|, 1);
    BroadenStart(broader, subject);
    while |queue| > 0
      invariant Broadening(broader, subject, seen, queue, dist, levels, out, depths)
      decreases |Nodes(broader, subject) - seen|, |queue|
    {
      var c := queue[0];
      if c in seen {
        BroadenSkip(broader, subject, seen, queue, dist, levels, out, depths);
        queue, levels := queue[1..], levels[1..];
        continue;
      }
      ghost var dist', levels' :=
        dist[queue[0] := levels[0]], levels[1..] + Repeat(|Succ(broader, queue[0])|, levels[0] + 1);
      BroadenStep(broader, subject, seen, queue, dist, levels, out, depths,
                  seen + {queue[0]}, queue[1..] + Succ(broader, queue[0]), dist', levels');
      dist, depths, levels := dist', depths + [levels[0]], levels';
      seen := seen + {c};
      out := out + [c];
      queue := queue[1..] + Succ(broader, c);
    }
    BroadenEnd(broader, subject, seen, queue, dist, levels, out, depths);
  }

  method TransitiveBroader(triples: seq<Triple>, subject: string) returns (out: seq<string>)
    ensures exists g :: LinksAre(g, triples, SkosBroader) && ListedNearestFirst(g, subject, out)
  {
    var broader := Adjacency(triples, SkosBroader);
    out := BroaderOf(broader, subject);
  }

  // ---- InferSymmetricRelated ----

  type Pair = (string, string)

  function Inverse(p: Pair): Pair {
    (p.1, p.0)
  }

  /** The pairs whose inverse is missing, inverted. */
  function MissingInverses(present: set<Pair>): set<Pair> {
    set p | p in present && Inverse(p) !in present :: Inverse(p)
  }

  function RelatedPairs(triples: seq<Triple>): set<Pair> {
    set i | 0 <= i < |triples| && triples[i].predicate_ == SkosRelated :: (triples[i].subject, triples[i].object_)
  }

  method CollectRelated(triples: seq<Triple>) returns (present: set<Pair>)
    ensures present == RelatedPairs(triples)
  {
    present := {};
    for i := 0 to |triples|
      invariant forall p: Pair :: p in present <==> Triple(p.0, SkosRelated, p.1) in triples[..i]
    {
      assert triples[..i + 1] == triples[..i] + [triples[i]];
      if triples[i].predicate_ == SkosRelated { present := present + {(triples[i].subject, triples[i].object_)}; }
    }
    assert triples[..|triples|] == triples;
    forall p: Pair ensures p in RelatedPairs(triples) <==> Triple(p.0, SkosRelated, p.1) in triples {
      if Triple(p.0, SkosRelated, p.1) in triples {
        var i :| 0 <= i < |triples| && triples[i] == Triple(p.0, SkosRelated, p.1);
        assert (triples[i].subject, triples[i].object_) == p;
      }
    }
  }

  function PairTriple(p: Pair): Triple {
    Triple(p.0, SkosRelated, p.1)
  }

  lemma AddInverse(present: set<Pair>, pair: Pair)
    requires pair in present && Inverse(pair) !in present
    ensures MissingInverses(present + {Inverse(pair)}) == MissingInverses(present) - {Inverse(pair)}
    ensures Inverse(pair) in MissingInverses(present)
  {
    var q := Inverse(pair);
    var present' := present + {q};
    forall x ensures x in MissingInverses(present') <==> x in MissingInverses(present) && x != q {
      assert Inverse(Inverse(x)) == x && Inverse(q) == pair;
      assert x in MissingInverses(present') <==> Inverse(x) in present' && x !in present';
      assert x in MissingInverses(present) <==> Inverse(x) in present && x !in present;
    }
  }

  /** Nothing left to visit has its inverse missing. */
  lemma NoneMissing(present: set<Pair>, todo: set<Pair>)
    requires forall p :: p in present && Inverse(p) !in present ==> p in todo
    requires todo == {}
    ensures MissingInverses(present) == {}
  {
  }

  /** The inferred triples are exactly the missing inverses, each once. A pair inserted into
      the map while it is iterated may or may not be visited later; either way the result is
      the same, and adding it makes the relation symmetric. */
  method InferSymmetricRelated(triples: seq<Triple>) returns (inferred: seq<Triple>)
    ensures forall t :: t in inferred <==>
              exists p :: p in MissingInverses(RelatedPairs(triples)) && t == PairTriple(p)
    ensures forall i, j :: 0 <= i < j < |inferred| ==> inferred[i] != inferred[j]
  {
    var present := CollectRelated(triples);
    ghost var missing := MissingInverses(present);
    var todo := present;
    var added: seq<Pair> := [];
    while todo != {}
      invariant MissingInverses(present) <= missing && Distinct(added)
      invariant forall p :: p in added <==> p in missing && p !in MissingInverses(present)
      invariant todo <= present && forall p :: p in present && Inverse(p) !in present ==> p in todo
      decreases |MissingInverses(present)|, |todo|
    {
      var pair :| pair in todo;
      todo := todo - {pair};
      var inverse := Inverse(pair);
      if inverse !in present {
        AddInverse(present, pair);
        assert inverse !in added;
        added := added + [inverse];
        present := present + {inverse};
        if * { todo := todo + {inverse}; }
      }
    }
    NoneMissing(present, todo);
    inferred := seq(|added|, i requires 0 <= i < |added| => PairTriple(added[i]));
    forall p | p in missing ensures PairTriple(p) in inferred {
      assert p in added;
      var i :| 0 <= i < |added| && added[i] == p;
      assert inferred[i] == PairTriple(p);
    }
  }

  /** A pair is related exactly when its triple is there. */
  lemma RelatedExactly(triples: seq<Triple>, p: Pair)
    ensures p in RelatedPairs(triples) <==> PairTriple(p) in triples
  {
    if PairTriple(p) in triples {
      var i :| 0 <= i < |triples| && triples[i] == PairTriple(p);
      assert (triples[i].subject, triples[i].object_) == p;
    }
  }

  /** The triples together with what was inferred from them are symmetric, and nothing more
      was needed for that. */
  lemma InferredMakesSymmetric(triples: seq<Triple>, inferred: seq<Triple>, t: Triple)
    requires forall u :: u in inferred <==>
               exists p :: p in MissingInverses(RelatedPairs(triples)) && u == PairTriple(p)
    requires t.predicate_ == SkosRelated
    ensures t in triples + inferred <==> Triple(t.object_, SkosRelated, t.subject) in triples + inferred
    ensures t in inferred ==> t !in triples && Triple(t.object_, SkosRelated, t.subject) in triples
  {
    var p := (t.subject, t.object_);
    RelatedExactly(triples, p);
    RelatedExactly(triples, Inverse(p));
    InferredExactly(triples, inferred, p);
    InferredExactly(triples, inferred, Inverse(p));
    assert t == PairTriple(p);
  }

  lemma InferredExactly(triples: seq<Triple>, inferred: seq<Triple>, p: Pair)
    requires forall u :: u in inferred <==>
               exists q :: q in MissingInverses(RelatedPairs(triples)) && u == PairTriple(q)
    ensures PairTriple(p) in inferred <==> Inverse(p) in RelatedPairs(triples) && p !in RelatedPairs(triples)
  {
    var present := RelatedPairs(triples);
    assert Inverse(Inverse(p)) == p;
    assert p in MissingInverses(present) <==> Inverse(p) in present && p !in present;
    if PairTriple(p) in inferred {
      var q :| q in MissingInverses(present) && PairTriple(p) == PairTriple(q);
      assert q == p;
    }
  }
}
