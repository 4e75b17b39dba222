/** The learning path of a role (go/memory/query.go): its skills and everything they
    require, directly or not, prerequisites first. */
module LearningPath {
  import opened Sorting
  import opened Graphs
  import opened MemoryPages
  import opened Prerequisites

  /** The pages with an is-appropriate-for link to the role. */
  function Skills(pages: seq<Page>, role: string): set<string> {
    set i | 0 <= i < |pages| && Link(IsAppropriateFor, role) in pages[i].links + pages[i].proseLinks :: pages[i].id
  }

  ghost predicate Required(g: Graph, seeds: set<string>, x: string) {
    exists s :: s in seeds && Reaches(g, s, x)
  }

  function AllNodes(g: Graph, seeds: set<string>): set<string> {
    seeds + set x, y | x in g && y in g[x] :: y
  }

  /** The skills and all they require. */
  ghost function Learned(g: Graph, seeds: set<string>): set<string> {
    set x | x in AllNodes(g, seeds) && Required(g, seeds, x)
  }

  lemma RequiredIsNode(g: Graph, seeds: set<string>, x: string)
    requires Required(g, seeds, x)
    ensures x in AllNodes(g, seeds)
  {
    var s :| s in seeds && Reaches(g, s, x);
    var p :| WalkBetween(g, p, s, x);
    if |p| > 1 { assert LinkAt(g, p, |p| - 2); }
  }

  /** It is the least set that holds the skills and is closed under prerequisite links. */
  lemma LearnedIsLeast(g: Graph, seeds: set<string>)
    ensures seeds <= Learned(g, seeds) && Closed(g, Learned(g, seeds))
    ensures forall other :: seeds <= other && Closed(g, other) ==> Learned(g, seeds) <= other
  {
    forall s | s in seeds ensures s in Learned(g, seeds) { ReachesSelf(g, s); }
    forall x, y | x in Learned(g, seeds) && y in Succ(g, x) ensures y in Learned(g, seeds) {
      var s :| s in seeds && Reaches(g, s, x);
      ReachesStep(g, s, x, y);
      RequiredIsNode(g, seeds, y);
    }
    forall other, x | seeds <= other && Closed(g, other) && x in Learned(g, seeds) ensures x in other {
      var s :| s in seeds && Reaches(g, s, x);
      ClosedHoldsReachable(g, other, s);
    }
  }

  /** Between turns of the worklist: what is in is required, and what is in and not queued
      has all its prerequisites in. */
  ghost predicate Worklist(g: Graph, seeds: set<string>, relevant: set<string>, queue: seq<string>) {
    && seeds <= relevant && (forall x :: x in relevant ==> Required(g, seeds, x))
    && (forall i :: 0 <= i < |queue| ==> queue[i] in relevant)
    && (forall x, y :: x in relevant && x !in queue && y in Succ(g, x) ==> y in relevant)
  }

  lemma WorklistStart(g: Graph, seeds: set<string>, queue: seq<string>)
    requires Elements(queue) == seeds
    ensures Worklist(g, seeds, seeds, queue)
  {
    forall s | s in seeds ensures Required(g, seeds, s) && s in queue {
      ReachesSelf(g, s);
      assert s in Elements(queue);
    }
    forall i | 0 <= i < |queue| ensures queue[i] in seeds { assert queue[i] in Elements(queue); }
  }

  lemma WorklistStep(g: Graph, seeds: set<string>, relevant: set<string>, queue: seq<string>,
                     relevant': set<string>, more: seq<string>)
    requires Worklist(g, seeds, relevant, queue) && queue != []
    requires relevant' == relevant + Elements(Succ(g, queue[0])) && Elements(more) == relevant' - relevant
    ensures Worklist(g, seeds, relevant', queue[1..] + more)
  {
    var id := queue[0];
    var queue' := queue[1..] + more;
    forall x | x in relevant' ensures Required(g, seeds, x) {
      if x !in relevant {
        assert id in relevant;
        var s :| s in seeds && Reaches(g, s, id);
        ReachesStep(g, s, id, x);
      }
    }
    forall i | 0 <= i < |queue'| ensures queue'[i] in relevant' {
      if i >= |queue| - 1 { assert more[i - (|queue| - 1)] in Elements(more); }
    }
    assert forall x :: x in queue ==> x == id || x in queue[1..];
    assert forall x :: x in queue' <==> x in queue[1..] || x in Elements(more);
    forall x, y | x in relevant' && x !in queue' && y in Succ(g, x) ensures y in relevant' {
      assert x == id ==> y in Elements(Succ(g, id));
    }
  }

  lemma WorklistShrinks(g: Graph, seeds: set<string>, relevant: set<string>, queue: seq<string>,
                        relevant': set<string>, more: seq<string>)
    requires Worklist(g, seeds, relevant', queue) && relevant <= relevant' && Elements(more) == relevant' - relevant
    ensures |AllNodes(g, seeds) - relevant'| < |AllNodes(g, seeds) - relevant| || (more == [] && relevant' == relevant)
  {
    forall x | x in relevant' ensures x in AllNodes(g, seeds) { RequiredIsNode(g, seeds, x); }
    ShrinkOrStop(AllNodes(g, seeds), relevant, relevant', more);
  }

  lemma WorklistEnd(g: Graph, seeds: set<string>, relevant: set<string>)
    requires Worklist(g, seeds, relevant, [])
    ensures relevant == Learned(g, seeds)
  {
    assert Closed(g, relevant);
    LearnedIsLeast(g, seeds);
    forall x | x in relevant ensures x in Learned(g, seeds) { RequiredIsNode(g, seeds, x); }
  }

  /** The unseen prerequisites of one page become relevant and are queued. */
  method Require(links: seq<Link>, relevant0: set<string>)
    returns (relevant: set<string>, more: seq<string>)
    ensures relevant == relevant0 + Elements(Targets(links, RequiresPrerequisite))
    ensures Elements(more) == relevant - relevant0
  {
    relevant, more := relevant0, [];
    for j := 0 to |links|
      invariant relevant == relevant0 + Elements(Targets(links[..j], RequiresPrerequisite))
      invariant Elements(more) == relevant - relevant0
    {
      assert links[..j + 1][..j] == links[..j];
      var target := links[j].target;
      if links[j].pred == RequiresPrerequisite && target !in relevant {
        ElementsSnoc(more, target);
        relevant, more := relevant + {target}, more + [target];
      }
    }
    assert links[..|links|] == links;
  }

  /** The links of a stored page, none for a dangling id. */
  method LinksOf(byID: map<string, Page>, id: string) returns (links: seq<Link>)
    ensures Targets(links, RequiresPrerequisite) == Succ(LinkGraph(byID, RequiresPrerequisite), id)
  {
    if id in byID { links := AllLinks(byID[id]); } else { links := []; }
  }

  method CloseOver(seeds: set<string>, byID: map<string, Page>) returns (relevant: set<string>)
    ensures relevant == Learned(LinkGraph(byID, RequiresPrerequisite), seeds)
  {
    ghost var g := LinkGraph(byID, RequiresPrerequisite);
    relevant := seeds;
    var queue := ListKeys(seeds);
    WorklistStart(g, seeds, queue);
    while |queue| > 0
      invariant Worklist(g, seeds, relevant, queue)
      decreases |AllNodes(g, seeds) - relevant|, |queue|
    {
      var id := queue[0];
      var links := LinksOf(byID, id);
      var relevant', more := Require(links, relevant);
      WorklistStep(g, seeds, relevant, queue, relevant', more);
      WorklistShrinks(g, seeds, relevant, queue[1..] + more, relevant', more);
      relevant, queue := relevant', queue[1..] + more;
    }
    WorklistEnd(g, seeds, relevant);
  }

  method FindSkills(pages: seq<Page>, role: string) returns (skills: set<string>)
    ensures skills == Skills(pages, role)
  {
    skills := {};
    for i := 0 to |pages|
      invariant skills == Skills(pages[..i], role)
    {
      var links := AllLinks(pages[i]);
      var appropriate := false;
      for j := 0 to |links|
        invariant appropriate <==> Link(IsAppropriateFor, role) in links[..j]
      {
        if links[j].pred == IsAppropriateFor && links[j].target == role { appropriate := true; }
      }
      assert links[..|links|] == links;
      SkillsSnoc(pages, i, role);
      if appropriate { skills := skills + {pages[i].id}; }
    }
    assert pages[..|pages|] == pages;
  }

  lemma SkillsSnoc(pages: seq<Page>, i: nat, role: string)
    requires i < |pages|
    ensures Skills(pages[..i + 1], role) == Skills(pages[..i], role) +
              (if Link(IsAppropriateFor, role) in pages[i].links + pages[i].proseLinks then {pages[i].id} else {})
  {
    var a, b := pages[..i], pages[..i + 1];
    assert forall k :: 0 <= k < i ==> a[k] == b[k];
    forall x | x in Skills(a, role) ensures x in Skills(b, role) {
      var k :| 0 <= k < |a| && Link(IsAppropriateFor, role) in a[k].links + a[k].proseLinks && a[k].id == x;
      assert b[k] == a[k];
    }
    forall x | x in Skills(b, role) && x !in Skills(a, role)
      ensures x == pages[i].id && Link(IsAppropriateFor, role) in pages[i].links + pages[i].proseLinks
    {
      var k :| 0 <= k < |b| && Link(IsAppropriateFor, role) in b[k].links + b[k].proseLinks && b[k].id == x;
    }
    assert b[i] == pages[i];
  }

  datatype Step = Step(id: string, typ: string, title: string)

  /** One step per id: its page's type and first label, if it has them. */
  method StepsFor(byID: map<string, Page>, ids: seq<string>) returns (out: seq<Step>)
    ensures StepsAre(byID, ids, out)
  {
    out := [];
    for i := 0 to |ids|
      invariant |out| == i && forall k :: 0 <= k < i ==> StepIs(byID, ids[k], out[k])
    {
      var typ, title := "", "";
      if ids[i] in byID {
        typ := byID[ids[i]].typ;
        if |byID[ids[i]].labels| > 0 { title := byID[ids[i]].labels[0]; }
      }
      out := out + [Step(ids[i], typ, title)];
    }
  }

  ghost predicate StepIs(byID: map<string, Page>, id: string, step: Step) {
    && step.id == id && step.typ == (if id in byID then byID[id].typ else "")
    && step.title == (if id in byID && byID[id].labels != [] then byID[id].labels[0] else "")
  }

  ghost predicate StepsAre(byID: map<string, Page>, ids: seq<string>, steps: seq<Step>) {
    |steps| == |ids| && forall i :: 0 <= i < |ids| ==> StepIs(byID, ids[i], steps[i])
  }

  /** The whole query: the steps are the role's skills and all they require, in the one
      topological order, whatever order the maps are iterated in. */
  method Query(pages: seq<Page>, byID: map<string, Page>, role: string) returns (r: Result<seq<Step>>)
    ensures r.MissingRole? <==> role == ""
    ensures role != "" ==>
              var g := LinkGraph(byID, RequiresPrerequisite);
              r.Found? && StepsAre(byID, Topological(g, Learned(g, Skills(pages, role))), r.value)
  {
    if role == "" { return MissingRole; }
    var skills := FindSkills(pages, role);
    var relevant := CloseOver(skills, byID);
    var ordered := TopoByPrerequisite(relevant, byID);
    var out := StepsFor(byID, ordered);
    return Found(out);
  }

  /** When no cycle of prerequisites is among them, every step comes after all it requires,
      and what it requires is listed. */
  lemma PathIsLearnable(g: Graph, seeds: set<string>)
    requires !HasCycle(g, Learned(g, seeds))
    ensures var ids := Topological(g, Learned(g, seeds));
            forall i, y :: 0 <= i < |ids| && y in Succ(g, ids[i]) ==> y in ids[..i]
  {
    var learned := Learned(g, seeds);
    var ids := Topological(g, learned);
    LearnedIsLeast(g, seeds);
    TopologicalCorrect(g, learned);
    forall i, y | 0 <= i < |ids| && y in Succ(g, ids[i]) ensures y in ids[..i] {
      assert ids[i] in Elements(ids);
      assert y in Pre(g, learned, ids[i]);
      assert y in Elements(ids[..i]);
    }
  }
}
