/** Exactly when compaction keeps the recent steps, and how it can lose a message of one. */
module CompactionLosses {
  import opened Options
  import opened Sorting
  import opened Compaction
  import opened CompactionGuarantees

  // ---- The exact condition ----

  lemma {:induction false} OfHas(recent: set<int>, ms: seq<Message>, i: nat)
    requires i < |ms| && IsProtected(ms[i], recent)
    ensures ms[i] in Of(recent, ms)
  {
    if i < |ms| - 1 { OfHas(recent, ms[..|ms| - 1], i); }
  }

  lemma {:induction false} OfFrom(recent: set<int>, ms: seq<Message>)
    ensures forall m :: m in Of(recent, ms) ==> m in ms
  {
    if ms != [] { OfFrom(recent, ms[..|ms| - 1]); }
  }

  lemma LastOfCounts(steps: seq<int>, keep: nat)
    requires Distinct(steps)
    ensures |Elements(LastOf(steps, keep))| <= keep
    ensures keep <= |steps| ==> |Elements(LastOf(steps, keep))| == keep
  {
    var last := LastOf(steps, keep);
    assert Distinct(last);
    DistinctCounts(last);
  }

  /** When an older step is in sight, a recomputed set of recent steps that differs has lost
      one of them: both count at most `keep` steps. */
  lemma RecentDropped(keep: int, ms: seq<Message>, r: seq<Message>, i: nat, s: int) returns (p: int)
    requires i < |ms| && IsProtected(ms[i], Protected(keep, ms))
    requires s in Steps(ms) && s !in Protected(keep, ms) && Protected(keep, r) != Protected(keep, ms)
    ensures p in Protected(keep, ms) && p !in Protected(keep, r)
  {
    StepsDistinct(ms);
    StepsDistinct(r);
    LastOfCounts(Steps(ms), keep);
    LastOfCounts(Steps(r), keep);
    assert Protected(keep, ms) == Elements(LastOf(Steps(ms), keep));
    assert Protected(keep, r) == Elements(LastOf(Steps(r), keep));
    p := InFirstOnly(Protected(keep, ms), Protected(keep, r));
  }

  lemma InFirstOnly(a: set<int>, b: set<int>) returns (p: int)
    requires |b| <= |a| && a != b
    ensures p in a && p !in b
  {
    SameSize(a, b);
    assert (forall x :: x in a ==> x in b) ==> a <= b;
    p :| p in a && p !in b;
  }

  lemma SameSize(a: set<int>, b: set<int>)
    requires |b| <= |a|
    ensures a <= b ==> a == b
  {
    if a <= b {
      forall x | x in b ensures x in a {
        if x !in a { SubsetNotLarger(a, b - {x}); }
      }
    }
  }

  /** Before every message of a recent step there is one of step s. */
  ghost predicate ComesFirst(ms: seq<Message>, recent: set<int>, s: int) {
    forall i :: 0 <= i < |ms| && IsProtected(ms[i], recent) ==> OccursBefore(ms, i, s)
  }

  ghost predicate OccursBefore(ms: seq<Message>, i: int, s: int) {
    exists k :: 0 <= k < i && k < |ms| && ms[k].step == AtStep(s)
  }

  lemma OlderComesFirst(keep: int, ms: seq<Message>, s: int)
    requires s in Steps(ms) && s !in Protected(keep, ms)
    ensures ComesFirst(ms, Protected(keep, ms), s)
  {
    forall i | 0 <= i < |ms| && IsProtected(ms[i], Protected(keep, ms)) ensures OccursBefore(ms, i, s) {
      var k := OlderFirst(keep, ms, i, s);
    }
  }

  /** Every kept message of the step is a tool result past the first two. */
  ghost predicate OnlyResults(ms: seq<Message>, p: int) {
    forall k :: 0 <= k < |ms| && ms[k].step == AtStep(p) ==> k >= 2 && ms[k].kind.ToolResult?
  }

  ghost predicate AllResults(ms: seq<Message>, recent: set<int>) {
    forall p :: p in recent ==> OnlyResults(ms, p)
  }

  lemma ResultsAfterPhase1(chars: nat, recent: set<int>, ms: seq<Message>, p: int)
    requires OnlyResults(ms, p)
    ensures OnlyResults(Kept(Phase1, chars, recent, ms), p)
  {
    KeptIsSublist(Phase1, chars, recent, ms);
    var r, idx := Kept(Phase1, chars, recent, ms), Indices(Phase1, chars, recent, ms);
    forall k | 0 <= k < |r| && r[k].step == AtStep(p) ensures k >= 2 && r[k].kind.ToolResult? {
      assert ms[idx[k]].step == AtStep(p);
    }
  }

  lemma Phase2DropsStep(chars: nat, recent: set<int>, ms: seq<Message>, p: int)
    requires OnlyResults(ms, p) && p !in recent
    ensures forall m :: m in Kept(Phase2, chars, recent, ms) ==> m.step != AtStep(p)
  {
    KeptAt(Phase2, chars, recent, ms);
    var r, idx := Kept(Phase2, chars, recent, ms), Indices(Phase2, chars, recent, ms);
    forall k | 0 <= k < |r| ensures r[k].step != AtStep(p) {
      assert Rule(Phase2, chars, recent, idx[k], ms[idx[k]]) == Some(r[k]);
    }
  }

  /** The first k phases keep every message of the recent steps, verbatim and in order. */
  ghost predicate KeepsRecent(keep: int, chars: nat, ms: seq<Message>, k: nat)
    requires k <= 3
  {
    Of(Protected(keep, ms), Stage(k, keep, chars, ms)) == Of(Protected(keep, ms), ms)
  }

  /** If an older step resumes too late, then for some choice of message types two phases
      lose every message of a recent step. */
  lemma LateStepLoses(keep: int, chars: nat, ms: seq<Message>, i: nat, j: nat) returns (other: seq<Message>)
    requires i < j < |ms| && IsProtected(ms[i], Protected(keep, ms)) && ms[j].step.AtStep?
    requires !IsProtected(ms[j], Protected(keep, ms)) && ms[0].step != ms[j].step && ms[1].step != ms[j].step
    ensures SameSteps(ms, other) && !KeepsRecent(keep, chars, other, 2)
  {
    other := Bait(keep, chars, ms, Protected(keep, ms), i, j);
    LosesLike(keep, chars, ms, other, Protected(keep, ms), i, j);
  }

  /** Message types for which the first phase changes which steps are recent, and all recent
      messages are tool results. */
  lemma Bait(keep: int, chars: nat, ms: seq<Message>, recent: set<int>, i: nat, j: nat) returns (other: seq<Message>)
    requires recent == Protected(keep, ms)
    requires i < j < |ms| && IsProtected(ms[i], recent) && ms[j].step.AtStep?
    requires !IsProtected(ms[j], recent) && ms[0].step != ms[j].step && ms[1].step != ms[j].step
    ensures AllResults(other, recent)
    ensures SameSteps(ms, other) && Protected(keep, other) == recent
    ensures Protected(keep, Run(Phase1, keep, chars, other)) != recent
  {
    other := Nudged(ms, recent, j);
    RecentAreResults(keep, ms, other, recent, j);
    SetChanges(keep, chars, ms, other, recent, i, j);
  }

  lemma SetChanges(keep: int, chars: nat, ms: seq<Message>, other: seq<Message>, recent: set<int>, i: nat, j: nat)
    requires recent == Protected(keep, ms) && other == Nudged(ms, recent, j)
    requires i < j < |ms| && IsProtected(ms[i], recent) && ms[j].step.AtStep?
    requires !IsProtected(ms[j], recent) && ms[0].step != ms[j].step && ms[1].step != ms[j].step
    ensures SameSteps(ms, other) && Protected(keep, other) == recent
    ensures Protected(keep, Run(Phase1, keep, chars, other)) != recent
  {
    SameStepsSame(ms, other);
    LateStepBreaks(keep, chars, ms, i, j);
  }

  lemma LosesLike(keep: int, chars: nat, ms: seq<Message>, other: seq<Message>, recent: set<int>, i: nat, j: nat)
    requires SameSteps(ms, other) && Protected(keep, other) == recent
    requires i < |ms| && IsProtected(ms[i], recent)
    requires j < |ms| && ms[j].step.AtStep? && !IsProtected(ms[j], recent)
    requires Protected(keep, Run(Phase1, keep, chars, other)) != recent
    requires AllResults(other, recent)
    ensures !KeepsRecent(keep, chars, other, 2)
  {
    LosesFrom(keep, chars, other, i, j);
  }

  lemma LosesFrom(keep: int, chars: nat, ms: seq<Message>, i: nat, j: nat)
    requires i < |ms| && IsProtected(ms[i], Protected(keep, ms))
    requires j < |ms| && ms[j].step.AtStep? && !IsProtected(ms[j], Protected(keep, ms))
    requires Protected(keep, Run(Phase1, keep, chars, ms)) != Protected(keep, ms)
    requires AllResults(ms, Protected(keep, ms))
    ensures !KeepsRecent(keep, chars, ms, 2)
  {
    var s, r := ms[j].step.index, Run(Phase1, keep, chars, ms);
    assert s in Steps(ms) by { StepsExact(ms); }
    var p := RecentDropped(keep, ms, r, i, s);
    TwoPhasesLose(keep, chars, ms, r, p);
  }

  lemma TwoPhasesLose(keep: int, chars: nat, ms: seq<Message>, r: seq<Message>, p: int)
    requires r == Run(Phase1, keep, chars, ms) && OnlyResults(ms, p)
    requires p in Protected(keep, ms) && p !in Protected(keep, r)
    ensures !KeepsRecent(keep, chars, ms, 2)
  {
    ResultsAfterPhase1(chars, Protected(keep, ms), ms, p);
    Phase2DropsStep(chars, Protected(keep, r), r, p);
    assert Stage(1, keep, chars, ms) == r;
    StepLost(keep, chars, ms, p);
  }

  lemma RecentAreResults(keep: int, ms: seq<Message>, other: seq<Message>, recent: set<int>, j: nat)
    requires 1 < j < |ms| && ms[j].step.AtStep? && recent == Protected(keep, ms) && other == Nudged(ms, recent, j)
    requires !IsProtected(ms[j], recent) && ms[0].step != ms[j].step
    ensures AllResults(other, recent)
  {
    assert ms[j].step.index in Steps(ms) by { StepsExact(ms); }
    OlderComesFirst(keep, ms, ms[j].step.index);
    ResultsIn(ms, other, recent, j, ms[j].step.index);
  }

  lemma ResultsIn(ms: seq<Message>, other: seq<Message>, recent: set<int>, j: nat, s: int)
    requires ComesFirst(ms, recent, s) && |ms| > 1 && ms[0].step != AtStep(s) && other == Nudged(ms, recent, j)
    ensures AllResults(other, recent)
  {
    assert IsProtected(ms[0], recent) ==> OccursBefore(ms, 0, s);
    assert IsProtected(ms[1], recent) ==> OccursBefore(ms, 1, s);
    forall p, k | p in recent && 0 <= k < |ms| && other[k].step == AtStep(p)
      ensures k >= 2 && other[k].kind.ToolResult?
    {
      assert IsProtected(ms[k], recent);
    }
  }

  lemma StepLost(keep: int, chars: nat, ms: seq<Message>, p: int)
    requires p in Protected(keep, ms) && forall m :: m in Stage(2, keep, chars, ms) ==> m.step != AtStep(p)
    ensures !KeepsRecent(keep, chars, ms, 2)
  {
    var recent := Protected(keep, ms);
    StepsExact(ms);
    assert p in Steps(ms);
    var i :| 0 <= i < |ms| && ms[i].step == AtStep(p);
    OfHas(recent, ms, i);
    OfFrom(recent, Stage(2, keep, chars, ms));
  }

  lemma DoneKeepsRecent(keep: int, chars: nat, ms: seq<Message>, other: seq<Message>, k: nat)
    requires OldStepsDone(keep, ms) && SameSteps(ms, other) && k <= 3
    ensures KeepsRecent(keep, chars, other, k)
  {
    SameStepsSame(ms, other);
    StageKeepsRecent(k, keep, chars, other);
  }

  lemma NotDoneLoses(keep: int, chars: nat, ms: seq<Message>) returns (other: seq<Message>)
    requires !OldStepsDone(keep, ms)
    ensures SameSteps(ms, other) && !KeepsRecent(keep, chars, other, 2)
  {
    var i, j :| 0 <= i < j < |ms| && IsProtected(ms[i], Protected(keep, ms)) && ms[j].step.AtStep?
      && !IsProtected(ms[j], Protected(keep, ms)) && ms[0].step != ms[j].step && ms[1].step != ms[j].step;
    other := LateStepLoses(keep, chars, ms, i, j);
  }

  /** The exact condition, on the step indices alone: whatever the messages are, every message
      of a recent step survives any number of phases verbatim and in order, if and only if no
      older step resumes after a recent one began, but for the steps of the first two
      messages. */
  lemma SurvivesExactly(keep: int, chars: nat, ms: seq<Message>)
    ensures OldStepsDone(keep, ms) <==>
            forall other, k :: SameSteps(ms, other) && 0 <= k <= 3 ==> KeepsRecent(keep, chars, other, k)
  {
    if OldStepsDone(keep, ms) {
      forall other, k | SameSteps(ms, other) && 0 <= k <= 3 ensures KeepsRecent(keep, chars, other, k) {
        DoneKeepsRecent(keep, chars, ms, other, k);
      }
    } else {
      var other := NotDoneLoses(keep, chars, ms);
    }
  }

  // ---- A conversation that loses a recent message ----

  lemma StepsThen(ms: seq<Message>, m: Message)
    ensures Steps(ms + [m]) ==
            if m.step.NoStep? || m.step.index in Steps(ms) then Steps(ms) else Steps(ms) + [m.step.index]
  {
    assert (ms + [m])[..|ms|] == ms;
  }

  lemma KeptThen(phase: Phase, chars: nat, recent: set<int>, ms: seq<Message>, m: Message)
    ensures var rest, r := Kept(phase, chars, recent, ms), Rule(phase, chars, recent, |ms|, m);
            Kept(phase, chars, recent, ms + [m]) == if r.Some? then rest + [r.value] else rest
  {
    assert (ms + [m])[..|ms|] == ms;
  }

  /** Prompt, question, nudge of step 1, reasoning of step 2, answer of step 1. */
  ghost predicate Interleaved(a: Message, b: Message, c: Message, d: Message, e: Message) {
    && a.step.NoStep? && b.step.NoStep? && c.kind.StepNudge? && c.step == AtStep(1)
    && d.kind.Reasoning? && d.step == AtStep(2) && e.kind.UserInput? && e.step == AtStep(1)
  }

  lemma InterleavedSteps(a: Message, b: Message, c: Message, d: Message, e: Message)
    requires Interleaved(a, b, c, d, e)
    ensures Steps([a] + [b] + [c] + [d] + [e]) == [1, 2] && Steps([a] + [b] + [d] + [e]) == [2, 1]
  {
    StepsThen([], a);
    assert [] + [a] == [a];
    StepsThen([a], b);
    TwoThen([a] + [b], d, e, 2, 1);
    TwoThen([a] + [b], c, d, 1, 2);
    StepsThen([a] + [b] + [c] + [d], e);
  }

  lemma TwoThen(ms: seq<Message>, d: Message, e: Message, x: int, y: int)
    requires Steps(ms) == [] && d.step == AtStep(x) && e.step == AtStep(y) && x != y
    ensures Steps(ms + [d] + [e]) == [x, y]
  {
    StepsThen(ms, d);
    assert [] + [x] == [x];
    StepsThen(ms + [d], e);
    assert [x] + [y] == [x, y];
  }

  lemma HeadKept(phase: Phase, chars: nat, recent: set<int>, a: Message, b: Message)
    ensures Kept(phase, chars, recent, [a] + [b]) == [a] + [b]
  {
    KeptThen(phase, chars, recent, [], a);
    assert [] + [a] == [a];
    KeptThen(phase, chars, recent, [a], b);
  }

  lemma InterleavedPhase1(chars: nat, a: Message, b: Message, c: Message, d: Message, e: Message)
    requires Interleaved(a, b, c, d, e)
    ensures Kept(Phase1, chars, {2}, [a] + [b] + [c] + [d] + [e]) == [a] + [b] + [d] + [e]
  {
    HeadKept(Phase1, chars, {2}, a, b);
    TailPhase1(chars, [a] + [b], c, d, e);
  }

  lemma TailPhase1(chars: nat, head: seq<Message>, c: Message, d: Message, e: Message)
    requires |head| == 2 && Kept(Phase1, chars, {2}, head) == head && Interleaved(head[0], head[1], c, d, e)
    ensures Kept(Phase1, chars, {2}, head + [c] + [d] + [e]) == head + [d] + [e]
  {
    KeptThen(Phase1, chars, {2}, head, c);
    KeptThen(Phase1, chars, {2}, head + [c], d);
    KeptThen(Phase1, chars, {2}, head + [c] + [d], e);
  }

  lemma InterleavedLater(phase: Phase, chars: nat, a: Message, b: Message, c: Message, d: Message, e: Message)
    requires Interleaved(a, b, c, d, e) && phase != Phase1
    ensures Kept(phase, chars, {1}, [a] + [b] + [d] + [e]) ==
            if phase == Phase2 then [a] + [b] + [d] + [e] else [a] + [b] + [e]
  {
    HeadKept(phase, chars, {1}, a, b);
    KeptThen(phase, chars, {1}, [a] + [b], d);
    KeptThen(phase, chars, {1}, [a] + [b] + [d], e);
  }

  /** With one recent step to keep, step 2 of that conversation is recent, and three phases
      of compaction lose its message. */
  lemma RecentMayBeLost(chars: nat, a: Message, b: Message, c: Message, d: Message, e: Message)
    requires Interleaved(a, b, c, d, e)
    ensures var ms := [a] + [b] + [c] + [d] + [e];
            IsProtected(d, Protected(1, ms)) && Stage(3, 1, chars, ms) == [a] + [b] + [e]
  {
    var ms, r := [a] + [b] + [c] + [d] + [e], [a] + [b] + [d] + [e];
    InterleavedSteps(a, b, c, d, e);
    LastOne(ms, 1, 2);
    LastOne(r, 2, 1);
    InterleavedPhase1(chars, a, b, c, d, e);
    InterleavedLater(Phase2, chars, a, b, c, d, e);
    InterleavedLater(Phase3, chars, a, b, c, d, e);
    assert Stage(1, 1, chars, ms) == r;
    assert Stage(2, 1, chars, ms) == r;
  }

  lemma LastOne(ms: seq<Message>, x: int, y: int)
    requires Steps(ms) == [x, y]
    ensures Protected(1, ms) == {y}
  {
    assert LastOf([x, y], 1) == [y];
  }
}
