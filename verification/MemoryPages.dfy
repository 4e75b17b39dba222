/** Wiki-memory pages, their typed links, and the closure query over them
    (go/memory/page/page.go, go/memory/query.go). */
module MemoryPages {
  import opened Sorting
  import opened Graphs

  datatype Link = Link(pred: string, target: string)

  datatype Page = Page(id: string, typ: string, labels: seq<string>, links: seq<Link>, proseLinks: seq<Link>)

  datatype Result<T> = Found(value: T) | NotFound | MissingRole

  const RequiresPrerequisite := "sw:requiresPrerequisite"
  const IsAppropriateFor := "sw:isAppropriateFor"

  // ---- Links of a page ----

  /** First occurrences, in order. */
  function Deduplicated(links: seq<Link>): (r: seq<Link>)
    ensures Distinct(r) && forall l :: l in r <==> l in links
  {
    if links == [] then []
    else
      var n := |links| - 1;
      var r := Deduplicated(links[..n]);
      assert links == links[..n] + [links[n]];
      if links[n] in links[..n] then r else r + [links[n]]
  }

  function Links(p: Page): seq<Link> {
    Deduplicated(p.links + p.proseLinks)
  }

  lemma DeduplicatedSnoc(links: seq<Link>, i: nat)
    requires i < |links|
    ensures var r, l := Deduplicated(links[..i]), links[i];
            Deduplicated(links[..i + 1]) == if l in links[..i] then r else r + [l]
    ensures forall l :: l in links[..i + 1] <==> l in links[..i] || l == links[i]
  {
    assert links[..i + 1] == links[..i] + [links[i]];
    assert links[..i + 1][..i] == links[..i];
  }

  method AllLinks(p: Page) returns (out: seq<Link>)
    ensures out == Links(p)
  {
    var all := p.links + p.proseLinks;
    var seen: set<Link> := {};
    out := [];
    for i := 0 to |all|
      invariant out == Deduplicated(all[..i])
      invariant forall l :: l in seen <==> l in all[..i]
    {
      DeduplicatedSnoc(all, i);
      if all[i] !in seen {
        seen := seen + {all[i]};
        out := out + [all[i]];
      }
    }
    assert all[..|all|] == all;
  }

  ghost predicate FirstAt(links: seq<Link>, k: nat) {
    k < |links| && forall j :: 0 <= j < k ==> links[j] != links[k]
  }

  lemma FirstAtExactly(links: seq<Link>, k: nat)
    requires k < |links|
    ensures FirstAt(links, k) <==> links[k] !in links[..k]
  {
    if links[k] in links[..k] {
      var j :| 0 <= j < k && links[..k][j] == links[k];
      assert links[j] == links[k];
    }
  }

  /** The links of a page stand in the order of their first places, frontmatter before prose. */
  lemma {:induction false} LinksAt(links: seq<Link>, n: nat) returns (at: seq<nat>)
    requires n <= |links|
    ensures var r := Deduplicated(links[..n]);
            && |at| == |r| && (forall i, j :: 0 <= i < j < |at| ==> at[i] < at[j])
            && (forall i :: 0 <= i < |at| ==> at[i] < n && r[i] == links[at[i]])
            && (forall k: nat :: k in at <==> k < n && FirstAt(links, k))
  {
    at := [];
    if n > 0 {
      at := LinksAt(links, n - 1);
      DeduplicatedSnoc(links, n - 1);
      FirstAtExactly(links, n - 1);
      if links[n - 1] !in links[..n - 1] { at := at + [n - 1]; }
    }
  }

  /** The targets of the links with the given predicate. */
  function Targets(links: seq<Link>, pred: string): seq<string> {
    if links == [] then []
    else
      var rest := Targets(links[..|links| - 1], pred);
      var last := links[|links| - 1];
      if last.pred == pred then rest + [last.target] else rest
  }

  lemma {:induction false} TargetsExact(links: seq<Link>, pred: string)
    ensures forall t :: t in Targets(links, pred) <==> Link(pred, t) in links
    ensures Distinct(links) ==> Distinct(Targets(links, pred))
  {
    if links != [] {
      var n := |links| - 1;
      TargetsExact(links[..n], pred);
      assert links == links[..n] + [links[n]];
    }
  }

  /** The graph of one predicate over the stored pages. */
  function LinkGraph(byID: map<string, Page>, pred: string): Graph {
    map id | id in byID :: Targets(Links(byID[id]), pred)
  }

  lemma LinkGraphExact(byID: map<string, Page>, pred: string, id: string)
    ensures Distinct(Succ(LinkGraph(byID, pred), id))
    ensures forall t :: t in Succ(LinkGraph(byID, pred), id) <==>
              id in byID && Link(pred, t) in byID[id].links + byID[id].proseLinks
  {
    if id in byID { TargetsExact(Links(byID[id]), pred); }
  }

  // ---- closureQuery ----

  datatype Entry = Entry(id: string, typ: string, depth: nat)

  function TypeOf(byID: map<string, Page>, id: string): string {
    if id in byID then byID[id].typ else ""
  }

  function Entries(byID: map<string, Page>, ids: seq<string>, depth: nat): seq<Entry> {
    seq(|ids|, i requires 0 <= i < |ids| => Entry(ids[i], TypeOf(byID, ids[i]), depth))
  }

  ghost predicate Nested(balls: seq<set<string>>) {
    forall i, j :: 0 <= i < j < |balls| ==> balls[i] <= balls[j]
  }

  /** Each entry first occurs in the ball of its depth, entries are in order of depth, and
      together with the start they are the last ball. */
  ghost predicate Listing(balls: seq<set<string>>, start: string, out: seq<Entry>) {
    && balls != [] && balls[0] == {start} && Nested(balls)
    && (forall i, j :: 0 <= i < j < |out| ==> out[i].id != out[j].id && out[i].depth <= out[j].depth)
    && (forall i :: 0 <= i < |out| ==>
          && 0 < out[i].depth < |balls|
          && out[i].id in balls[out[i].depth] && out[i].id !in balls[out[i].depth - 1])
    && (forall x :: x in balls[|balls| - 1] ==> x == start || Lists(out, x))
  }

  ghost predicate Lists(out: seq<Entry>, x: string) {
    exists i :: 0 <= i < |out| && out[i].id == x
  }

  lemma ListsMore(out: seq<Entry>, more: seq<Entry>, x: string)
    ensures Lists(out, x) || Lists(more, x) ==> Lists(out + more, x)
  {
    if Lists(out, x) {
      var k :| 0 <= k < |out| && out[k].id == x;
      assert (out + more)[k].id == x;
    } else if Lists(more, x) {
      var k :| 0 <= k < |more| && more[k].id == x;
      assert (out + more)[|out| + k].id == x;
    }
  }

  lemma ListingExtends(byID: map<string, Page>, balls: seq<set<string>>, ball: set<string>, start: string,
                       out: seq<Entry>, next: seq<string>)
    requires Listing(balls, start, out) && balls[|balls| - 1] <= ball
    requires Distinct(next) && Elements(next) == ball - balls[|balls| - 1]
    ensures Listing(balls + [ball], start, out + Entries(byID, next, |balls|))
  {
    NestedSnoc(balls, ball);
    EntriesPlaced(byID, balls, ball, next);
    EntriesDiffer(byID, balls, ball, start, out, next);
    ListingCovers(byID, balls, ball, start, out, next);
  }

  lemma EntriesPlaced(byID: map<string, Page>, balls: seq<set<string>>, ball: set<string>, next: seq<string>)
    requires balls != [] && Elements(next) == ball - balls[|balls| - 1]
    ensures forall e :: e in Entries(byID, next, |balls|) ==>
              e.id in ball && e.id !in balls[|balls| - 1] && e.depth == |balls|
  {
    forall i | 0 <= i < |next| ensures next[i] in ball && next[i] !in balls[|balls| - 1] {
      assert next[i] in Elements(next);
    }
  }

  /** The listed ids and the new ones differ. */
  lemma EntriesDiffer(byID: map<string, Page>, balls: seq<set<string>>, ball: set<string>, start: string,
                      out: seq<Entry>, next: seq<string>)
    requires Listing(balls, start, out) && Distinct(next) && Elements(next) == ball - balls[|balls| - 1]
    ensures var all := out + Entries(byID, next, |balls|);
            forall i, j :: 0 <= i < j < |all| ==> all[i].id != all[j].id && all[i].depth <= all[j].depth
  {
    forall i | 0 <= i < |out| ensures out[i].id in balls[|balls| - 1] {
      assert out[i].depth < |balls| - 1 ==> balls[out[i].depth] <= balls[|balls| - 1];
    }
    forall i | 0 <= i < |next| ensures next[i] !in balls[|balls| - 1] {
      assert next[i] in Elements(next);
    }
  }

  lemma ListingCovers(byID: map<string, Page>, balls: seq<set<string>>, ball: set<string>, start: string,
                      out: seq<Entry>, next: seq<string>)
    requires Listing(balls, start, out) && Elements(next) == ball - balls[|balls| - 1]
    ensures forall x :: x in ball ==> x == start || Lists(out + Entries(byID, next, |balls|), x)
  {
    forall x | x in ball ensures x == start || Lists(out + Entries(byID, next, |balls|), x) {
      ListsMore(out, Entries(byID, next, |balls|), x);
      if x in Elements(next) { ListsEntry(byID, next, |balls|, x); }
    }
  }

  lemma NestedSnoc(balls: seq<set<string>>, ball: set<string>)
    requires balls != [] && Nested(balls) && balls[|balls| - 1] <= ball
    ensures Nested(balls + [ball])
  {
    var balls' := balls + [ball];
    forall i, j | 0 <= i < j < |balls'| ensures balls'[i] <= balls'[j] {
      if j == |balls| && i < |balls| - 1 { assert balls[i] <= balls[|balls| - 1]; }
    }
  }

  lemma ListsEntry(byID: map<string, Page>, ids: seq<string>, depth: nat, x: string)
    requires x in ids
    ensures Lists(Entries(byID, ids, depth), x)
  {
    var k :| 0 <= k < |ids| && ids[k] == x;
    assert Entries(byID, ids, depth)[k].id == x;
  }

  /** Only nodes that were new in the last round have successors outside the ball. */
  lemma FrontierExpands(g: Graph, start: string, frontier: set<string>, depth: nat, ball: set<string>)
    requires 0 < depth
    requires frontier == if depth == 1 then {start} else Ball(g, start, depth - 1) - Ball(g, start, depth - 2)
    requires ball == Ball(g, start, depth - 1) + Successors(g, frontier)
    ensures ball == Ball(g, start, depth)
  {
  }

  /** Exactly the ids other than the start that are reachable, each once, nearest first,
      each with the length of its shortest chain of links. */
  ghost predicate ShortestListing(byID: map<string, Page>, g: Graph, start: string, out: seq<Entry>) {
    && (forall i, j :: 0 <= i < j < |out| ==> out[i].id != out[j].id && out[i].depth <= out[j].depth)
    && (forall i :: 0 <= i < |out| ==>
          && out[i].id != start && out[i].typ == (if out[i].id in byID then byID[out[i].id].typ else "")
          && Distance(g, start, out[i].id, out[i].depth))
    && (forall x :: Reaches(g, start, x) && x != start ==> Lists(out, x))
  }

  ghost predicate AreBalls(g: Graph, start: string, balls: seq<set<string>>) {
    forall i :: 0 <= i < |balls| ==> BallAt(g, start, balls, i)
  }

  ghost predicate BallAt(g: Graph, start: string, balls: seq<set<string>>, i: nat)
    requires i < |balls|
  {
    balls[i] == Ball(g, start, i)
  }

  lemma BallClosed(g: Graph, start: string, n: nat)
    requires Ball(g, start, n + 1) == Ball(g, start, n)
    ensures Closed(g, Ball(g, start, n)) && start in Ball(g, start, n)
  {
    var ball := Ball(g, start, n);
    forall x, y | x in ball && y in Succ(g, x) ensures y in ball { assert y in Successors(g, ball); }
    BallGrows(g, start, 0, n);
  }

  lemma ListingIsShortest(byID: map<string, Page>, g: Graph, balls: seq<set<string>>, start: string, out: seq<Entry>)
    requires Listing(balls, start, out) && AreBalls(g, start, balls)
    requires Ball(g, start, |balls|) == Ball(g, start, |balls| - 1)
    requires forall i :: 0 <= i < |out| ==> out[i].typ == TypeOf(byID, out[i].id)
    ensures ShortestListing(byID, g, start, out)
  {
    forall i | 0 <= i < |out| ensures out[i].id != start && Distance(g, start, out[i].id, out[i].depth) {
      EntryIsNearest(g, balls, start, out[i].id, out[i].depth);
    }
    LastBallHasAll(g, balls, start);
  }

  lemma EntryIsNearest(g: Graph, balls: seq<set<string>>, start: string, id: string, d: nat)
    requires AreBalls(g, start, balls) && 0 < d < |balls| && id in balls[d] && id !in balls[d - 1]
    ensures id != start && Distance(g, start, id, d)
  {
    InBall(g, start, balls, d, id);
    InBall(g, start, balls, d - 1, id);
    SphereEntry(g, start, id, d);
  }

  lemma SphereEntry(g: Graph, start: string, id: string, d: nat)
    requires 0 < d && id in Ball(g, start, d) && id !in Ball(g, start, d - 1)
    ensures id != start && Distance(g, start, id, d)
  {
    NotTheStart(g, start, id, d - 1);
    SphereIsDistance(g, start, id, d);
  }

  lemma InBall(g: Graph, start: string, balls: seq<set<string>>, i: nat, x: string)
    requires AreBalls(g, start, balls) && i < |balls|
    ensures x in balls[i] <==> x in Ball(g, start, i)
  {
    assert BallAt(g, start, balls, i);
  }

  lemma NotTheStart(g: Graph, start: string, id: string, n: nat)
    requires id !in Ball(g, start, n)
    ensures id != start
  {
    StartInBall(g, start, n);
  }

  lemma StartInBall(g: Graph, start: string, n: nat)
    ensures start in Ball(g, start, n)
  {
    BallGrows(g, start, 0, n);
  }

  lemma LastBallHasAll(g: Graph, balls: seq<set<string>>, start: string)
    requires AreBalls(g, start, balls) && balls != [] && Ball(g, start, |balls|) == Ball(g, start, |balls| - 1)
    ensures forall x :: Reaches(g, start, x) ==> x in balls[|balls| - 1]
  {
    assert BallAt(g, start, balls, |balls| - 1);
    BallClosed(g, start, |balls| - 1);
    ClosedHoldsReachable(g, balls[|balls| - 1], start);
  }

  /** One page of the frontier: its unseen targets are seen, listed and queued. */
  method VisitPage(byID: map<string, Page>, id: string, pred: string, depth: nat,
                   seen0: set<string>, next0: seq<string>, out0: seq<Entry>)
    returns (seen: set<string>, next: seq<string>, out: seq<Entry>)
    requires Distinct(next0) && Elements(next0) <= seen0
    ensures seen == seen0 + Elements(Succ(LinkGraph(byID, pred), id))
    ensures next0 <= next && Distinct(next) && Elements(next) == Elements(next0) + (seen - seen0)
    ensures out == out0 + Entries(byID, next[|next0|..], depth)
  {
    seen, next, out := seen0, next0, out0;
    if id !in byID { return; }
    var links := AllLinks(byID[id]);
    for j := 0 to |links|
      invariant seen == seen0 + Elements(Targets(links[..j], pred))
      invariant next0 <= next && Distinct(next) && Elements(next) == Elements(next0) + (seen - seen0)
      invariant out == out0 + Entries(byID, next[|next0|..], depth)
    {
      assert links[..j + 1][..j] == links[..j];
      var target := links[j].target;
      if links[j].pred != pred || target in seen { continue; }
      seen := seen + {target};
      assert target !in Elements(next);
      next := next + [target];
      out := out + [Entry(target, TypeOf(byID, target), depth)];
    }
    assert links[..|links|] == links;
  }

  lemma SuccessorsSnoc(g: Graph, s: set<string>, x: string)
    ensures Successors(g, s + {x}) == Successors(g, s) + Elements(Succ(g, x))
  {
  }

  lemma EntriesJoin(byID: map<string, Page>, a: seq<string>, b: seq<string>, depth: nat)
    ensures Entries(byID, a + b, depth) == Entries(byID, a, depth) + Entries(byID, b, depth)
  {
  }

  /** One round: the whole frontier. */
  method VisitFrontier(byID: map<string, Page>, frontier: seq<string>, pred: string, depth: nat,
                       seen0: set<string>, out0: seq<Entry>)
    returns (seen: set<string>, next: seq<string>, out: seq<Entry>)
    ensures seen == seen0 + Successors(LinkGraph(byID, pred), Elements(frontier))
    ensures Distinct(next) && Elements(next) == seen - seen0
    ensures out == out0 + Entries(byID, next, depth)
  {
    seen, next, out := seen0, [], out0;
    ghost var g := LinkGraph(byID, pred);
    for i := 0 to |frontier|
      invariant seen == seen0 + Successors(g, Elements(frontier[..i]))
      invariant Distinct(next) && Elements(next) == seen - seen0
      invariant out == out0 + Entries(byID, next, depth)
    {
      assert frontier[..i + 1] == frontier[..i] + [frontier[i]];
      assert Elements(frontier[..i + 1]) == Elements(frontier[..i]) + {frontier[i]};
      ghost var next' := next;
      SuccessorsSnoc(g, Elements(frontier[..i]), frontier[i]);
      seen, next, out := VisitPage(byID, frontier[i], pred, depth, seen, next, out);
      EntriesJoin(byID, next', next[|next'|..], depth);
      assert next == next' + next[|next'|..];
    }
    assert frontier[..|frontier|] == frontier;
  }

  /** What holds between rounds of the search. */
  ghost predicate Round(byID: map<string, Page>, g: Graph, start: string, balls: seq<set<string>>,
                        seen: set<string>, frontier: seq<string>, out: seq<Entry>) {
    && Listing(balls, start, out) && AreBalls(g, start, balls) && seen == balls[|balls| - 1]
    && Elements(frontier) == (if |balls| == 1 then {start} else seen - balls[|balls| - 2])
    && (forall i :: 0 <= i < |out| ==> out[i].typ == TypeOf(byID, out[i].id))
  }

  lemma RoundStep(byID: map<string, Page>, g: Graph, start: string, balls: seq<set<string>>,
                  seen: set<string>, frontier: seq<string>, out: seq<Entry>,
                  seen': set<string>, frontier': seq<string>, out': seq<Entry>)
    requires Round(byID, g, start, balls, seen, frontier, out)
    requires seen' == seen + Successors(g, Elements(frontier))
    requires Distinct(frontier') && Elements(frontier') == seen' - seen
    requires out' == out + Entries(byID, frontier', |balls|)
    ensures Round(byID, g, start, balls + [seen'], seen', frontier', out')
    ensures |Nodes(g, start) - seen'| < |Nodes(g, start) - seen| || (frontier' == [] && seen' == seen)
  {
    BallsStep(g, start, balls, Elements(frontier), seen');
    ShrinkOrStop(Nodes(g, start), seen, seen', frontier');
    ListingExtends(byID, balls, seen', start, out, frontier');
    var balls' := balls + [seen'];
    assert balls'[|balls'| - 1] == seen' && balls'[|balls'| - 2] == seen;
    TypesExtend(byID, out, frontier', |balls|);
  }

  lemma TypesExtend(byID: map<string, Page>, out: seq<Entry>, ids: seq<string>, depth: nat)
    requires forall i :: 0 <= i < |out| ==> out[i].typ == TypeOf(byID, out[i].id)
    ensures var more := out + Entries(byID, ids, depth);
            forall i :: 0 <= i < |more| ==> more[i].typ == TypeOf(byID, more[i].id)
  {
  }

  lemma BallsStep(g: Graph, start: string, balls: seq<set<string>>, frontier: set<string>, seen: set<string>)
    requires balls != [] && balls[0] == {start} && AreBalls(g, start, balls)
    requires frontier == (if |balls| == 1 then {start} else balls[|balls| - 1] - balls[|balls| - 2])
    requires seen == balls[|balls| - 1] + Successors(g, frontier)
    ensures AreBalls(g, start, balls + [seen]) && seen <= Nodes(g, start)
  {
    var n := |balls|;
    assert BallAt(g, start, balls, n - 1) && (n > 1 ==> BallAt(g, start, balls, n - 2));
    FrontierExpands(g, start, frontier, n, seen);
    BallInNodes(g, start, n);
    AreBallsSnoc(g, start, balls, seen);
  }

  lemma AreBallsSnoc(g: Graph, start: string, balls: seq<set<string>>, ball: set<string>)
    requires AreBalls(g, start, balls) && ball == Ball(g, start, |balls|)
    ensures AreBalls(g, start, balls + [ball])
  {
    forall i | 0 <= i < |balls + [ball]| ensures BallAt(g, start, balls + [ball], i) {
      assert i < |balls| ==> BallAt(g, start, balls, i);
    }
  }

  lemma RoundStart(byID: map<string, Page>, g: Graph, start: string)
    ensures Round(byID, g, start, [{start}], {start}, [start], [])
  {
    assert Elements([start]) == {start};
  }

  lemma RoundEnd(byID: map<string, Page>, g: Graph, start: string, balls: seq<set<string>>,
                 seen: set<string>, frontier: seq<string>, out: seq<Entry>)
    requires Round(byID, g, start, balls, seen, frontier, out) && frontier == []
    ensures ShortestListing(byID, g, start, out)
  {
    var n := |balls|;
    assert BallAt(g, start, balls, n - 1) && (n > 1 ==> BallAt(g, start, balls, n - 2));
    FrontierEmpty(g, start, frontier, n);
    ListingIsShortest(byID, g, balls, start, out);
  }

  method ClosureQuery(byID: map<string, Page>, pageID: string, pred: string) returns (r: Result<seq<Entry>>)
    ensures r.NotFound? <==> pageID !in byID
    ensures pageID in byID ==>
              r.Found? && ShortestListing(byID, LinkGraph(byID, pred), pageID, r.value)
  {
    if pageID !in byID { return NotFound; }
    ghost var g := LinkGraph(byID, pred);
    var out: seq<Entry> := [];
    var seen := {pageID};
    var frontier := [pageID];
    var depth: nat := 1;
    ghost var balls := [{pageID}];
    RoundStart(byID, g, pageID);
    while |frontier| > 0
      invariant |balls| == depth && Round(byID, g, pageID, balls, seen, frontier, out)
      decreases |Nodes(g, pageID) - seen|, |frontier|
    {
      ghost var seen', frontier', out' := seen, frontier, out;
      seen, frontier, out := VisitFrontier(byID, frontier, pred, depth, seen, out);
      RoundStep(byID, g, pageID, balls, seen', frontier', out', seen, frontier, out);
      balls := balls + [seen];
      depth := depth + 1;
    }
    RoundEnd(byID, g, pageID, balls, seen, frontier, out);
    return Found(out);
  }

  lemma FrontierEmpty(g: Graph, start: string, frontier: seq<string>, depth: nat)
    requires 0 < depth && frontier == []
    requires Elements(frontier) == if depth == 1 then {start} else Ball(g, start, depth - 1) - Ball(g, start, depth - 2)
    ensures Ball(g, start, depth) == Ball(g, start, depth - 1)
  {
    assert Elements(frontier) == {};
    FrontierExpands(g, start, {}, depth, Ball(g, start, depth - 1));
  }

  lemma ShrinkOrStop(all: set<string>, seen: set<string>, seen': set<string>, next: seq<string>)
    requires seen <= seen' <= all && Elements(next) == seen' - seen
    ensures |all - seen'| < |all - seen| || (next == [] && seen' == seen)
  {
    if next != [] {
      assert next[0] in Elements(next);
      assert all - seen' <= all - seen - {next[0]};
      SubsetNotLarger(all - seen', all - seen - {next[0]});
    } else {
      assert Elements(next) == {};
      assert forall x :: x in seen' ==> x in seen || x in seen' - seen;
    }
  }
}
