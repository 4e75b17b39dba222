/** What compaction keeps: an order-preserving sub-list of the conversation, its first two
    messages, and every message of the recent steps, although each phase works out for
    itself which steps those are. */
module CompactionGuarantees {
  import opened Bytes
  import opened Options
  import opened Compaction

  // ---- An order-preserving sub-list ----

  /** The positions a phase keeps. */
  function Indices(phase: Phase, chars: nat, recent: set<int>, ms: seq<Message>): seq<nat> {
    if ms == [] then []
    else
      var n := |ms| - 1;
      var rest := Indices(phase, chars, recent, ms[..n]);
      if Rule(phase, chars, recent, n, ms[n]).Some? then rest + [n] else rest
  }

  /** Positions below a bound, in order. */
  ghost predicate Positions(idx: seq<nat>, bound: nat) {
    && (forall i, j :: 0 <= i < j < |idx| ==> idx[i] < idx[j])
    && (forall i :: 0 <= i < |idx| ==> idx[i] < bound)
  }

  /** r lists the messages of ms at the positions idx, the first two among them and
      unchanged, others changed at most by cutting a tool result short. */
  ghost predicate Sublist(chars: nat, ms: seq<Message>, r: seq<Message>, idx: seq<nat>) {
    && Positions(idx, |ms|) && |idx| == |r|
    && (forall j :: 0 <= j < |r| ==>
          r[j] == ms[idx[j]] || (ms[idx[j]].kind.ToolResult? && r[j] == Truncated(ms[idx[j]], chars)))
    && (|ms| > 0 ==> |r| > 0 && idx[0] == 0 && r[0] == ms[0])
    && (|ms| > 1 ==> |r| > 1 && idx[1] == 1 && r[1] == ms[1])
  }

  lemma {:induction false} IndicesIncrease(phase: Phase, chars: nat, recent: set<int>, ms: seq<Message>)
    ensures var r, idx := Kept(phase, chars, recent, ms), Indices(phase, chars, recent, ms);
            && Positions(idx, |ms|) && |idx| == |r|
            && (|ms| > 0 ==> |r| > 0 && idx[0] == 0) && (|ms| > 1 ==> |r| > 1 && idx[1] == 1)
  {
    if ms != [] { IndicesIncrease(phase, chars, recent, ms[..|ms| - 1]); }
  }

  lemma {:induction false} KeptByRule(phase: Phase, chars: nat, recent: set<int>, ms: seq<Message>)
    ensures var r, idx := Kept(phase, chars, recent, ms), Indices(phase, chars, recent, ms);
            && |idx| == |r|
            && forall j :: 0 <= j < |r| ==>
                 idx[j] < |ms| && Rule(phase, chars, recent, idx[j], ms[idx[j]]) == Some(r[j])
  {
    if ms != [] { KeptByRule(phase, chars, recent, ms[..|ms| - 1]); }
  }

  lemma KeptAt(phase: Phase, chars: nat, recent: set<int>, ms: seq<Message>)
    ensures var r, idx := Kept(phase, chars, recent, ms), Indices(phase, chars, recent, ms);
            && Positions(idx, |ms|) && |idx| == |r|
            && (forall j :: 0 <= j < |r| ==> Rule(phase, chars, recent, idx[j], ms[idx[j]]) == Some(r[j]))
            && (|ms| > 0 ==> |r| > 0 && idx[0] == 0) && (|ms| > 1 ==> |r| > 1 && idx[1] == 1)
  {
    IndicesIncrease(phase, chars, recent, ms);
    KeptByRule(phase, chars, recent, ms);
  }

  lemma KeptIsSublist(phase: Phase, chars: nat, recent: set<int>, ms: seq<Message>)
    ensures Sublist(chars, ms, Kept(phase, chars, recent, ms), Indices(phase, chars, recent, ms))
  {
    KeptAt(phase, chars, recent, ms);
    var r, idx := Kept(phase, chars, recent, ms), Indices(phase, chars, recent, ms);
    forall j | 0 <= j < |r|
      ensures r[j] == ms[idx[j]] || (ms[idx[j]].kind.ToolResult? && r[j] == Truncated(ms[idx[j]], chars))
      ensures idx[j] < 2 ==> r[j] == ms[idx[j]]
    {
      assert Rule(phase, chars, recent, idx[j], ms[idx[j]]) == Some(r[j]);
    }
  }

  function Through(outer: seq<nat>, inner: seq<nat>): seq<nat>
    requires forall i :: 0 <= i < |inner| ==> inner[i] < |outer|
  {
    seq(|inner|, i requires 0 <= i < |inner| => outer[inner[i]])
  }

  /** A sub-list of a sub-list is a sub-list: truncating twice is truncating once. */
  lemma SublistTrans(chars: nat, a: seq<Message>, b: seq<Message>, c: seq<Message>, ab: seq<nat>, bc: seq<nat>)
    requires Sublist(chars, a, b, ab) && Sublist(chars, b, c, bc)
    ensures Sublist(chars, a, c, Through(ab, bc))
  {
    var ac := Through(ab, bc);
    forall j | 0 <= j < |c|
      ensures c[j] == a[ac[j]] || (a[ac[j]].kind.ToolResult? && c[j] == Truncated(a[ac[j]], chars))
    {
      var m, m' := a[ac[j]], b[bc[j]];
      assert m' == m || (m.kind.ToolResult? && m' == Truncated(m, chars));
      assert c[j] == m' || (m'.kind.ToolResult? && c[j] == Truncated(m', chars));
      assert Truncated(Truncated(m, chars), chars) == Truncated(m, chars);
    }
  }

  function Same(n: nat): seq<nat> {
    seq(n, i => i)
  }

  function PhaseOf(k: nat): Phase
    requires 1 <= k <= 3
  {
    if k == 1 then Phase1 else if k == 2 then Phase2 else Phase3
  }

  /** Whatever the step indices are, the result of any number of phases is an
      order-preserving sub-list changed only by truncating tool results, and the first two
      messages survive verbatim. */
  lemma {:induction false} StageIsSublist(k: nat, keep: int, chars: nat, ms: seq<Message>) returns (idx: seq<nat>)
    requires k <= 3
    ensures Sublist(chars, ms, Stage(k, keep, chars, ms), idx)
  {
    if k == 0 {
      idx := Same(|ms|);
    } else {
      var before := StageIsSublist(k - 1, keep, chars, ms);
      var s := Stage(k - 1, keep, chars, ms);
      KeptIsSublist(PhaseOf(k), chars, Protected(keep, s), s);
      var here := Indices(PhaseOf(k), chars, Protected(keep, s), s);
      SublistTrans(chars, ms, s, Stage(k, keep, chars, ms), before, here);
      idx := Through(before, here);
    }
  }

  // ---- The recent steps survive ----

  /** The messages of the given steps, in order. */
  function Of(recent: set<int>, ms: seq<Message>): seq<Message> {
    if ms == [] then []
    else
      var n := |ms| - 1;
      if IsProtected(ms[n], recent) then Of(recent, ms[..n]) + [ms[n]] else Of(recent, ms[..n])
  }

  lemma {:induction false} KeptKeepsRecent(phase: Phase, chars: nat, recent: set<int>, ms: seq<Message>)
    ensures Of(recent, Kept(phase, chars, recent, ms)) == Of(recent, ms)
  {
    if ms != [] {
      var n := |ms| - 1;
      KeptKeepsRecent(phase, chars, recent, ms[..n]);
      var rest, r := Kept(phase, chars, recent, ms[..n]), Rule(phase, chars, recent, n, ms[n]);
      if r.Some? { assert (rest + [r.value])[..|rest|] == rest; }
    }
  }

  /** The step occurs in one of the first two messages, before position i. */
  ghost predicate InHead(ms: seq<Message>, i: nat, s: int) {
    exists k :: 0 <= k < 2 && k < i && k < |ms| && ms[k].step == AtStep(s)
  }

  /** After a message of a recent step, a message of an older step follows only if that step
      occurs in the first two messages, before the recent one. */
  ghost predicate RecentLast(recent: set<int>, ms: seq<Message>) {
    forall i, j :: 0 <= i < j < |ms| && IsProtected(ms[i], recent) && ms[j].step.AtStep? ==>
      IsProtected(ms[j], recent) || InHead(ms, i, ms[j].step.index)
  }

  lemma SublistKeepsRecentLast(recent: set<int>, chars: nat, ms: seq<Message>, r: seq<Message>, idx: seq<nat>)
    requires RecentLast(recent, ms) && Sublist(chars, ms, r, idx)
    ensures RecentLast(recent, r)
  {
    forall i, j | 0 <= i < j < |r| && IsProtected(r[i], recent) && r[j].step.AtStep?
      ensures IsProtected(r[j], recent) || InHead(r, i, r[j].step.index)
    {
      assert ms[idx[i]].step == r[i].step && ms[idx[j]].step == r[j].step;
      if !IsProtected(r[j], recent) {
        var k :| 0 <= k < 2 && k < idx[i] && ms[k].step == r[j].step;
        assert r[k] == ms[k] && idx[k] == k && k < i;
      }
    }
  }

  /** Older steps, then the steps of the recent messages. */
  lemma {:induction false} StepsSplit(recent: set<int>, ms: seq<Message>) returns (older: seq<int>)
    requires RecentLast(recent, ms)
    ensures Steps(ms) == older + Steps(Of(recent, ms))
    ensures forall s :: s in older ==> s !in recent
    ensures forall s :: s in Steps(Of(recent, ms)) ==> s in recent
  {
    if ms == [] {
      older := [];
    } else {
      var n := |ms| - 1;
      PrefixRecentLast(recent, ms, n);
      older := StepsSplit(recent, ms[..n]);
      older := SplitSnoc(recent, ms, older);
    }
  }

  lemma SplitSnoc(recent: set<int>, ms: seq<Message>, older: seq<int>) returns (older': seq<int>)
    requires ms != [] && RecentLast(recent, ms)
    requires Steps(ms[..|ms| - 1]) == older + Steps(Of(recent, ms[..|ms| - 1]))
    requires forall s :: s in older ==> s !in recent
    requires forall s :: s in Steps(Of(recent, ms[..|ms| - 1])) ==> s in recent
    ensures Steps(ms) == older' + Steps(Of(recent, ms))
    ensures forall s :: s in older' ==> s !in recent
    ensures forall s :: s in Steps(Of(recent, ms)) ==> s in recent
  {
    var n := |ms| - 1;
    var m := ms[n];
    assert ms[..n + 1] == ms;
    StepsSnoc(ms, n);
    older' := older;
    if IsProtected(m, recent) {
      OfSnoc(recent, ms);
      assert m.step.index !in older;
    } else if m.step.AtStep? && m.step.index !in Steps(ms[..n]) {
      NewOldStep(recent, ms);
      assert Steps([]) == [];
      older' := older + [m.step.index];
    }
  }

  lemma PrefixRecentLast(recent: set<int>, ms: seq<Message>, n: nat)
    requires RecentLast(recent, ms) && n <= |ms|
    ensures RecentLast(recent, ms[..n])
  {
    var p := ms[..n];
    forall i, j | 0 <= i < j < |p| && IsProtected(p[i], recent) && p[j].step.AtStep?
      ensures IsProtected(p[j], recent) || InHead(p, i, p[j].step.index)
    {
      assert p[i] == ms[i] && p[j] == ms[j];
      if !IsProtected(p[j], recent) {
        var k :| 0 <= k < 2 && k < i && ms[k].step == AtStep(p[j].step.index);
        assert p[k] == ms[k];
      }
    }
  }

  lemma OfSnoc(recent: set<int>, ms: seq<Message>)
    requires ms != [] && IsProtected(ms[|ms| - 1], recent)
    ensures var n := |ms| - 1;
            var steps, s := Steps(Of(recent, ms[..n])), ms[n].step.index;
            Steps(Of(recent, ms)) == if s in steps then steps else steps + [s]
  {
    var n := |ms| - 1;
    var mine := Of(recent, ms[..n]);
    var all := mine + [ms[n]];
    assert all[..|mine|] == mine && all[..|mine| + 1] == all;
    StepsSnoc(all, |mine|);
  }

  /** An older step that is new at the end has no recent message before it. */
  lemma NewOldStep(recent: set<int>, ms: seq<Message>)
    requires RecentLast(recent, ms) && ms != []
    requires var m := ms[|ms| - 1];
             m.step.AtStep? && !IsProtected(m, recent) && m.step.index !in Steps(ms[..|ms| - 1])
    ensures Of(recent, ms[..|ms| - 1]) == [] && Of(recent, ms) == []
  {
    var n := |ms| - 1;
    var p := ms[..n];
    var s := ms[n].step.index;
    assert forall k :: 0 <= k < n ==> p[k] == ms[k];
    StepsExact(p);
    forall i | 0 <= i < n ensures !IsProtected(p[i], recent) {
      assert InHead(ms, i, s) ==> s in Steps(p);
    }
    NoneRecent(recent, p);
  }

  lemma {:induction false} NoneRecent(recent: set<int>, ms: seq<Message>)
    requires forall i :: 0 <= i < |ms| ==> !IsProtected(ms[i], recent)
    ensures Of(recent, ms) == []
  {
    if ms != [] { NoneRecent(recent, ms[..|ms| - 1]); }
  }

  lemma LastOfSuffix(older: seq<int>, mine: seq<int>, keep: int)
    requires keep == |mine| || (older == [] && keep >= |mine|)
    ensures LastOf(older + mine, keep) == mine
  {
    if keep <= 0 { assert mine == []; }
    assert older == [] ==> older + mine == mine;
    assert (older + mine)[|older|..] == mine;
  }

  /** The recent steps are a suffix of the steps: its length is `keep`, unless all steps
      are recent. */
  lemma RecentSuffix(keep: int, ms: seq<Message>, older: seq<int>, mine: seq<int>)
    requires Steps(ms) == older + mine
    requires forall s :: s in older ==> s !in Protected(keep, ms)
    requires forall s :: s in mine ==> s in Protected(keep, ms)
    ensures mine == LastOf(Steps(ms), keep)
    ensures keep > 0 ==> keep == |mine| || (older == [] && keep >= |mine|)
    ensures keep <= 0 ==> mine == []
  {
    var steps, last := Steps(ms), LastOf(Steps(ms), keep);
    var k := |steps| - |last|;
    assert last == steps[k..];
    StepsDistinct(ms);
    forall i | 0 <= i < |steps| ensures steps[i] in last <==> k <= i {
      if k <= i { assert last[i - k] == steps[i]; }
    }
    forall i | 0 <= i < |steps| ensures steps[i] in Protected(keep, ms) <==> |older| <= i {
      if i < |older| { assert steps[i] == older[i]; } else { assert steps[i] == mine[i - |older|]; }
    }
    SameCut(steps, Protected(keep, ms), k, |older|);
  }

  lemma SameCut(steps: seq<int>, recent: set<int>, k: nat, o: nat)
    requires k <= |steps| && o <= |steps|
    requires forall i :: 0 <= i < |steps| ==> (steps[i] in recent <==> k <= i)
    requires forall i :: 0 <= i < |steps| ==> (steps[i] in recent <==> o <= i)
    ensures k == o
  {
    if k < |steps| { assert steps[k] in recent; }
    if o < |steps| { assert steps[o] in recent; }
  }

  /** Then a phase leaves the recent steps as they were: recomputing them gives the same
      set, and their messages all survive. */
  lemma RecentStable(phase: Phase, keep: int, chars: nat, ms: seq<Message>)
    requires RecentLast(Protected(keep, ms), ms)
    ensures var r := Run(phase, keep, chars, ms);
            && Protected(keep, r) == Protected(keep, ms) && RecentLast(Protected(keep, r), r)
            && Of(Protected(keep, ms), r) == Of(Protected(keep, ms), ms)
  {
    var recent := Protected(keep, ms);
    var r, idx := Run(phase, keep, chars, ms), Indices(phase, chars, recent, ms);
    KeptIsSublist(phase, chars, recent, ms);
    SublistKeepsRecentLast(recent, chars, ms, r, idx);
    KeptKeepsRecent(phase, chars, recent, ms);
    SameRecent(keep, chars, ms, r, idx, recent);
  }

  lemma SameRecent(keep: int, chars: nat, ms: seq<Message>, r: seq<Message>, idx: seq<nat>, recent: set<int>)
    requires recent == Protected(keep, ms) && RecentLast(recent, ms) && RecentLast(recent, r)
    requires Sublist(chars, ms, r, idx) && Of(recent, r) == Of(recent, ms)
    ensures Protected(keep, r) == recent
  {
    var older := StepsSplit(recent, ms);
    var older' := StepsSplit(recent, r);
    var mine := Steps(Of(recent, ms));
    RecentSuffix(keep, ms, older, mine);
    if keep > 0 {
      if older == [] { NoOlder(keep, chars, ms, r, idx, older'); }
      LastOfSuffix(older', mine, keep);
    }
  }

  lemma NoOlder(keep: int, chars: nat, ms: seq<Message>, r: seq<Message>, idx: seq<nat>, older: seq<int>)
    requires Sublist(chars, ms, r, idx) && (forall s :: s in older ==> s in Steps(r) && s !in Protected(keep, ms))
    requires forall s :: s in Steps(ms) ==> s in Protected(keep, ms)
    ensures older == []
  {
    StepsExact(r);
    StepsExact(ms);
    forall s | s in Steps(r) ensures s in Steps(ms) {
      var i :| 0 <= i < |r| && r[i].step == AtStep(s);
      assert ms[idx[i]].step == AtStep(s);
    }
    HasMember(older);
  }

  lemma HasMember(s: seq<int>)
    ensures s == [] || exists x :: x in s
  {
    if s != [] { var x: int := s[0]; assert x in s; }
  }

  // ---- Exactly when the recent steps are recomputed alike ----

  lemma {:induction false} StepsGrow(ms: seq<Message>, a: nat)
    requires a <= |ms|
    ensures Steps(ms[..a]) <= Steps(ms)
  {
    if a == |ms| {
      assert ms[..a] == ms;
    } else {
      var n := |ms| - 1;
      StepsGrow(ms[..n], a);
      assert ms[..n][..a] == ms[..a] && ms[..n + 1] == ms;
      StepsSnoc(ms, n);
    }
  }

  /** Steps that are not recent occur before the recent ones first occur. */
  lemma OlderFirst(keep: int, ms: seq<Message>, i: nat, s: int) returns (k: nat)
    requires i < |ms| && IsProtected(ms[i], Protected(keep, ms))
    requires s in Steps(ms) && s !in Protected(keep, ms)
    ensures k < i && ms[k].step == AtStep(s)
  {
    StepsGrow(ms, i + 1);
    StepsDistinct(ms);
    StepAtEnd(ms, i);
    var p := ms[i].step.index;
    assert p in LastOf(Steps(ms), keep) && s !in LastOf(Steps(ms), keep);
    OlderInPrefix(Steps(ms), Steps(ms[..i + 1]), keep, p, s);
    k := StepOccurs(ms, i + 1, s);
    assert ms[i].step == AtStep(p);
    assert k != i;
  }

  lemma StepAtEnd(ms: seq<Message>, i: nat)
    requires i < |ms| && ms[i].step.AtStep?
    ensures ms[i].step.index in Steps(ms[..i + 1])
  {
    StepsExact(ms[..i + 1]);
    assert ms[..i + 1][i].step == AtStep(ms[i].step.index);
  }

  lemma OlderInPrefix(steps: seq<int>, early: seq<int>, keep: int, p: int, s: int)
    requires forall i, j :: 0 <= i < j < |steps| ==> steps[i] != steps[j]
    requires early <= steps && p in early && p in LastOf(steps, keep)
    requires s in steps && s !in LastOf(steps, keep)
    ensures s in early
  {
    var a :| 0 <= a < |early| && early[a] == p;
    var b :| 0 <= b < |steps| && steps[b] == s;
    LaterIsRecent(steps, keep, a, b);
    assert early[b] == s;
  }

  lemma StepOccurs(ms: seq<Message>, n: nat, s: int) returns (k: nat)
    requires n <= |ms| && s in Steps(ms[..n])
    ensures k < n && ms[k].step == AtStep(s)
  {
    StepsExact(ms[..n]);
    k :| 0 <= k < |ms[..n]| && ms[..n][k].step == AtStep(s);
    assert ms[k].step == AtStep(s);
  }

  lemma LaterIsRecent(steps: seq<int>, keep: int, a: nat, b: nat)
    requires a < |steps| && b < |steps| && steps[a] in LastOf(steps, keep)
    requires forall i, j :: 0 <= i < j < |steps| ==> steps[i] != steps[j]
    ensures a <= b ==> steps[b] in LastOf(steps, keep)
  {
    var last := LastOf(steps, keep);
    var k := |steps| - |last|;
    assert last == steps[k..];
    var c :| 0 <= c < |last| && last[c] == steps[a];
    assert steps[k + c] == steps[a];
    if a <= b { assert last[b - k] == steps[b]; }
  }

  /** An older step goes on after a recent one began only if it is the step of one of the
      first two messages, which no phase drops. */
  ghost predicate OldStepsDone(keep: int, ms: seq<Message>) {
    forall i, j :: 0 <= i < j < |ms| && IsProtected(ms[i], Protected(keep, ms)) && ms[j].step.AtStep? ==>
      || IsProtected(ms[j], Protected(keep, ms))
      || (|ms| > 0 && ms[0].step == ms[j].step) || (|ms| > 1 && ms[1].step == ms[j].step)
  }

  lemma OldStepsDoneMeans(keep: int, ms: seq<Message>)
    ensures OldStepsDone(keep, ms) <==> RecentLast(Protected(keep, ms), ms)
  {
    var recent := Protected(keep, ms);
    StepsExact(ms);
    if OldStepsDone(keep, ms) {
      forall i, j | 0 <= i < j < |ms| && IsProtected(ms[i], recent) && ms[j].step.AtStep?
        ensures IsProtected(ms[j], recent) || InHead(ms, i, ms[j].step.index)
      {
        if !IsProtected(ms[j], recent) {
          assert ms[j].step.index in Steps(ms);
          var k := OlderFirst(keep, ms, i, ms[j].step.index);
          if ms[0].step == ms[j].step { assert ms[0].step == AtStep(ms[j].step.index); }
          else if i > 1 { assert ms[1].step == AtStep(ms[j].step.index); }
        }
      }
    }
  }

  ghost predicate SameSteps(ms: seq<Message>, other: seq<Message>) {
    |ms| == |other| && forall i :: 0 <= i < |ms| ==> ms[i].step == other[i].step
  }

  lemma {:induction false} SameStepsSame(ms: seq<Message>, other: seq<Message>)
    requires SameSteps(ms, other)
    ensures Steps(ms) == Steps(other)
  {
    if ms != [] { SameStepsSame(ms[..|ms| - 1], other[..|ms| - 1]); }
  }

  /** The message types that show the condition necessary: tool results in the recent steps,
      nudges in the older ones up to position j. */
  function Nudged(ms: seq<Message>, recent: set<int>, j: nat): seq<Message> {
    seq(|ms|, i requires 0 <= i < |ms| =>
      ms[i].(kind := if IsProtected(ms[i], recent) then ToolResult else if 2 <= i < j then StepNudge else UserInput))
  }

  /** If an older step resumes too late, then for some choice of message types the first
      phase changes which steps count as recent. */
  lemma LateStepBreaks(keep: int, chars: nat, ms: seq<Message>, i: nat, j: nat)
    requires i < j < |ms| && IsProtected(ms[i], Protected(keep, ms)) && ms[j].step.AtStep?
    requires !IsProtected(ms[j], Protected(keep, ms)) && ms[0].step != ms[j].step && ms[1].step != ms[j].step
    ensures var other := Nudged(ms, Protected(keep, ms), j);
            SameSteps(ms, other) && Protected(keep, Run(Phase1, keep, chars, other)) != Protected(keep, other)
  {
    var recent, other := Protected(keep, ms), Nudged(ms, Protected(keep, ms), j);
    SameStepsSame(ms, other);
    var i', j' := LateStepKept(chars, recent, ms, i, j);
    OldAfterRecent(keep, Kept(Phase1, chars, recent, other), recent, i', j', ms[j].step.index);
  }

  /** The first phase keeps the recent message and the late one, and nothing of the late
      one's step before them. */
  lemma LateStepKept(chars: nat, recent: set<int>, ms: seq<Message>, i: nat, j: nat) returns (i': nat, j': nat)
    requires i < j < |ms| && IsProtected(ms[i], recent) && ms[j].step.AtStep?
    requires !IsProtected(ms[j], recent) && ms[0].step != ms[j].step && ms[1].step != ms[j].step
    ensures var r := Kept(Phase1, chars, recent, Nudged(ms, recent, j));
            && i' < |r| && r[i'].step == ms[i].step && j' < |r| && r[j'].step == ms[j].step
            && forall k :: 0 <= k < i' ==> r[k].step != ms[j].step
  {
    var other := Nudged(ms, recent, j);
    var idx := Indices(Phase1, chars, recent, other);
    KeptAt(Phase1, chars, recent, other);
    i' := KeptPosition(Phase1, chars, recent, other, i);
    j' := KeptPosition(Phase1, chars, recent, other, j);
    KeptSteps(chars, recent, other);
    NudgesGone(chars, recent, ms, j);
    assert forall k :: 0 <= k < i' ==> idx[k] < idx[i'];
  }

  lemma OldAfterRecent(keep: int, r: seq<Message>, recent: set<int>, i: nat, j: nat, s: int)
    requires i < |r| && IsProtected(r[i], recent) && j < |r| && r[j].step == AtStep(s) && s !in recent
    requires forall k :: 0 <= k < i ==> r[k].step != AtStep(s)
    ensures Protected(keep, r) != recent
  {
    StepsExact(r);
    if Protected(keep, r) == recent { var k := OlderFirst(keep, r, i, s); }
  }

  lemma KeptSteps(chars: nat, recent: set<int>, ms: seq<Message>)
    ensures var r, idx := Kept(Phase1, chars, recent, ms), Indices(Phase1, chars, recent, ms);
            |r| == |idx| && forall k :: 0 <= k < |r| ==> idx[k] < |ms| && r[k].step == ms[idx[k]].step
  {
    KeptIsSublist(Phase1, chars, recent, ms);
  }

  lemma NudgesGone(chars: nat, recent: set<int>, ms: seq<Message>, j: nat)
    requires 1 < j < |ms| && ms[j].step.AtStep? && !IsProtected(ms[j], recent)
    requires ms[0].step != ms[j].step && ms[1].step != ms[j].step
    ensures var other := Nudged(ms, recent, j);
            var r, idx := Kept(Phase1, chars, recent, other), Indices(Phase1, chars, recent, other);
            |r| == |idx| && forall k :: 0 <= k < |r| && idx[k] < j ==> r[k].step != ms[j].step
  {
    var other := Nudged(ms, recent, j);
    var r, idx := Kept(Phase1, chars, recent, other), Indices(Phase1, chars, recent, other);
    KeptAt(Phase1, chars, recent, other);
    KeptSteps(chars, recent, other);
    forall k | 0 <= k < |r| && idx[k] < j ensures r[k].step != ms[j].step {
      assert Rule(Phase1, chars, recent, idx[k], other[idx[k]]) == Some(r[k]);
      assert other[idx[k]].step == ms[idx[k]].step;
    }
  }

  /** Where a kept message ends up. */
  lemma {:induction false} KeptPosition(phase: Phase, chars: nat, recent: set<int>, ms: seq<Message>, i: nat)
    returns (k: nat)
    requires i < |ms| && Rule(phase, chars, recent, i, ms[i]).Some?
    ensures var idx := Indices(phase, chars, recent, ms); k < |idx| && idx[k] == i
  {
    var n := |ms| - 1;
    if i == n {
      k := |Indices(phase, chars, recent, ms)| - 1;
    } else {
      k := KeptPosition(phase, chars, recent, ms[..n], i);
    }
  }

  /** The exact condition, on the step indices alone: whatever the messages are, every phase
      recomputes the recent steps alike, if and only if no older step resumes after a recent
      one began, but for the steps of the first two messages. */
  lemma RecomputedAlike(keep: int, chars: nat, ms: seq<Message>)
    ensures OldStepsDone(keep, ms) <==>
            forall phase, other :: SameSteps(ms, other) ==>
              Protected(keep, Run(phase, keep, chars, other)) == Protected(keep, other)
  {
    if OldStepsDone(keep, ms) {
      forall phase, other | SameSteps(ms, other)
        ensures Protected(keep, Run(phase, keep, chars, other)) == Protected(keep, other)
      {
        SameStepsSame(ms, other);
        OldStepsDoneMeans(keep, other);
        RecentStable(phase, keep, chars, other);
      }
    } else {
      var i, j :| 0 <= i < j < |ms| && IsProtected(ms[i], Protected(keep, ms)) && ms[j].step.AtStep?
        && !IsProtected(ms[j], Protected(keep, ms)) && ms[0].step != ms[j].step && ms[1].step != ms[j].step;
      LateStepBreaks(keep, chars, ms, i, j);
    }
  }

  ghost predicate NonDecreasing(ms: seq<Message>) {
    forall i, j :: 0 <= i < j < |ms| && ms[i].step.AtStep? && ms[j].step.AtStep? ==>
      ms[i].step.index <= ms[j].step.index
  }

  lemma {:induction false} NonDecreasingSteps(ms: seq<Message>)
    requires NonDecreasing(ms)
    ensures forall i, j :: 0 <= i < j < |Steps(ms)| ==> Steps(ms)[i] < Steps(ms)[j]
  {
    if ms != [] {
      var n := |ms| - 1;
      NonDecreasingSteps(ms[..n]);
      StepsExact(ms[..n]);
      var steps := Steps(ms[..n]);
      forall i | 0 <= i < |steps| && ms[n].step.AtStep? && ms[n].step.index !in steps
        ensures steps[i] < ms[n].step.index
      {
        assert steps[i] in steps;
      }
    }
  }

  /** Step indices that never fall along the conversation meet the condition. */
  lemma NonDecreasingIsDone(keep: int, ms: seq<Message>)
    requires NonDecreasing(ms)
    ensures OldStepsDone(keep, ms)
  {
    NonDecreasingSteps(ms);
    StepsExact(ms);
    StepsDistinct(ms);
    var steps := Steps(ms);
    forall i, j | 0 <= i < j < |ms| && IsProtected(ms[i], Protected(keep, ms)) && ms[j].step.AtStep?
      ensures IsProtected(ms[j], Protected(keep, ms))
    {
      var p, u := ms[i].step.index, ms[j].step.index;
      assert p in steps && u in steps;
      var a :| 0 <= a < |steps| && steps[a] == p;
      var b :| 0 <= b < |steps| && steps[b] == u;
      LaterIsRecent(steps, keep, a, b);
    }
  }

  // ---- Whole compactions ----

  lemma {:induction false} StageKeepsRecent(k: nat, keep: int, chars: nat, ms: seq<Message>)
    requires k <= 3 && OldStepsDone(keep, ms)
    ensures var r := Stage(k, keep, chars, ms);
            && Protected(keep, r) == Protected(keep, ms) && RecentLast(Protected(keep, r), r)
            && Of(Protected(keep, ms), r) == Of(Protected(keep, ms), ms)
  {
    if k == 0 {
      OldStepsDoneMeans(keep, ms);
    } else {
      StageKeepsRecent(k - 1, keep, chars, ms);
      RecentStable(PhaseOf(k), keep, chars, Stage(k - 1, keep, chars, ms));
    }
  }

  /** Every message of the last `keep` distinct steps survives verbatim, in order, and so do
      the first two messages. */
  lemma RecentSurvives(keep: int, chars: nat, ms: seq<Message>, target: int, counter: seq<Message> -> int,
                       r: seq<Message>, phase: int)
    requires OldStepsDone(keep, ms) && Compacts(keep, chars, ms, target, counter, r, phase)
    ensures Of(Protected(keep, ms), r) == Of(Protected(keep, ms), ms)
    ensures |ms| > 0 ==> |r| > 0 && r[0] == ms[0]
    ensures |ms| > 1 ==> |r| > 1 && r[1] == ms[1]
  {
    StageKeepsRecent(phase, keep, chars, ms);
    var idx := StageIsSublist(phase, keep, chars, ms);
  }

  /** What a phase has dropped and no later phase brings back. */
  predicate Dropped(k: nat, kind: MessageType) {
    || (k >= 1 && IsNudge(kind)) || (k >= 2 && kind.ToolResult?)
    || (k >= 3 && (kind.Reasoning? || kind.TextResponse?))
  }

  ghost predicate Clean(k: nat, recent: set<int>, ms: seq<Message>) {
    forall i :: 2 <= i < |ms| && Dropped(k, ms[i].kind) ==> IsProtected(ms[i], recent)
  }

  lemma PhaseCleans(k: nat, chars: nat, recent: set<int>, ms: seq<Message>)
    requires 1 <= k <= 3 && Clean(k - 1, recent, ms)
    ensures Clean(k, recent, Kept(PhaseOf(k), chars, recent, ms))
  {
    var r, idx := Kept(PhaseOf(k), chars, recent, ms), Indices(PhaseOf(k), chars, recent, ms);
    KeptAt(PhaseOf(k), chars, recent, ms);
    forall j | 2 <= j < |r| && Dropped(k, r[j].kind) ensures IsProtected(r[j], recent) {
      assert Rule(PhaseOf(k), chars, recent, idx[j], ms[idx[j]]) == Some(r[j]);
      assert idx[1] < idx[j] && |ms| > 1;
    }
  }

  /** After the last phase no unprotected nudge, tool result, reasoning or text message is
      left past the first two. */
  lemma {:induction false} StageIsClean(k: nat, keep: int, chars: nat, ms: seq<Message>)
    requires k <= 3 && OldStepsDone(keep, ms)
    ensures Clean(k, Protected(keep, ms), Stage(k, keep, chars, ms))
  {
    if k > 0 {
      StageIsClean(k - 1, keep, chars, ms);
      StageKeepsRecent(k - 1, keep, chars, ms);
      PhaseCleans(k, chars, Protected(keep, ms), Stage(k - 1, keep, chars, ms));
    }
  }

  lemma {:induction false} NothingToDrop(phase: Phase, chars: nat, recent: set<int>, ms: seq<Message>)
    requires Clean(3, recent, ms)
    ensures Kept(phase, chars, recent, ms) == ms
  {
    if ms != [] {
      NothingToDrop(phase, chars, recent, ms[..|ms| - 1]);
    }
  }

  lemma {:induction false} CleanStays(k: nat, keep: int, chars: nat, ms: seq<Message>)
    requires k <= 3 && Clean(3, Protected(keep, ms), ms)
    ensures Stage(k, keep, chars, ms) == ms
  {
    if k > 0 {
      CleanStays(k - 1, keep, chars, ms);
      NothingToDrop(PhaseOf(k), chars, Protected(keep, ms), ms);
    }
  }

  /** Compacting a compacted conversation with the same target returns it unchanged. */
  lemma CompactTwice(keep: int, chars: nat, ms: seq<Message>, target: int, counter: seq<Message> -> int,
                     r: seq<Message>, phase: int, r': seq<Message>, phase': int)
    requires OldStepsDone(keep, ms)
    requires Compacts(keep, chars, ms, target, counter, r, phase)
    requires Compacts(keep, chars, r, target, counter, r', phase')
    ensures r' == r
  {
    if phase == 3 {
      StageIsClean(3, keep, chars, ms);
      StageKeepsRecent(3, keep, chars, ms);
      CleanStays(phase', keep, chars, r);
    }
  }

  // ---- Tokens ----

  function NamesCost(names: seq<Text>): nat {
    if names == [] then 0 else NamesCost(names[..|names| - 1]) + |names[|names| - 1]| + 1
  }

  function Cost(m: Message): nat {
    |m.content| / 4 + |m.role| + 4 + NamesCost(m.toolNames)
  }

  function Tokens(ms: seq<Message>): nat {
    if ms == [] then 0 else Tokens(ms[..|ms| - 1]) + Cost(ms[|ms| - 1])
  }

  function Joined(names: seq<Text>): Text {
    if names == [] then [] else names[0] + Joined(names[1..])
  }

  lemma {:induction false} NamesCostSplits(names: seq<Text>)
    requires names != []
    ensures NamesCost(names) == |names[0]| + 1 + NamesCost(names[1..])
  {
    var n := |names| - 1;
    if n > 0 {
      NamesCostSplits(names[..n]);
      assert names[..n][1..] == names[1..][..n - 1];
    } else {
      assert names[1..] == [];
    }
  }

  lemma {:induction false} NamesCostExactly(names: seq<Text>)
    ensures NamesCost(names) == |names| + |Joined(names)|
  {
    if names != [] {
      NamesCostSplits(names);
      NamesCostExactly(names[1..]);
    }
  }

  /** The default count adds up over messages; one message counts a token for every four bytes
      of content, four, and one for every byte of its role and of its tool names and for every
      tool call. */
  lemma {:induction false} TokensAdd(before: seq<Message>, m: Message)
    ensures Tokens(before + [m]) ==
            Tokens(before) + |m.content| / 4 + 4 + |m.role| + |m.toolNames| + |Joined(m.toolNames)|
  {
    assert (before + [m])[..|before|] == before;
    NamesCostExactly(m.toolNames);
  }

  method DefaultCounter(messages: seq<Message>) returns (total: nat)
    ensures total == Tokens(messages)
  {
    total := 0;
    for i := 0 to |messages|
      invariant total == Tokens(messages[..i])
    {
      var m := messages[i];
      var overhead := |m.role| + 4;
      for j := 0 to |m.toolNames|
        invariant overhead == |m.role| + 4 + NamesCost(m.toolNames[..j])
      {
        assert m.toolNames[..j + 1][..j] == m.toolNames[..j];
        overhead := overhead + |m.toolNames[j]| + 1;
      }
      assert m.toolNames[..|m.toolNames|] == m.toolNames;
      assert messages[..i + 1][..i] == messages[..i];
      total := total + |m.content| / 4 + overhead;
    }
    assert messages[..|messages|] == messages;
  }

  lemma {:induction false} KeptCostsNoMore(phase: Phase, chars: nat, recent: set<int>, ms: seq<Message>)
    ensures Tokens(Kept(phase, chars, recent, ms)) <= Tokens(ms)
  {
    if ms != [] {
      var n := |ms| - 1;
      KeptCostsNoMore(phase, chars, recent, ms[..n]);
      var rest, r := Kept(phase, chars, recent, ms[..n]), Rule(phase, chars, recent, n, ms[n]);
      if r.Some? {
        assert (rest + [r.value])[..|rest|] == rest;
        assert Cost(r.value) <= Cost(ms[n]);
      }
    }
  }

  /** Compaction never raises the default count. */
  lemma {:induction false} StageCostsNoMore(k: nat, keep: int, chars: nat, ms: seq<Message>)
    requires k <= 3
    ensures Tokens(Stage(k, keep, chars, ms)) <= Tokens(ms)
  {
    if k > 0 {
      var s := Stage(k - 1, keep, chars, ms);
      StageCostsNoMore(k - 1, keep, chars, ms);
      RunCostsNoMore(PhaseOf(k), keep, chars, s);
    }
  }

  lemma RunCostsNoMore(phase: Phase, keep: int, chars: nat, ms: seq<Message>)
    ensures Tokens(Run(phase, keep, chars, ms)) <= Tokens(ms)
  {
    KeptCostsNoMore(phase, chars, Protected(keep, ms), ms);
  }
}
