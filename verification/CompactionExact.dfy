/** Exactly what a compaction leaves, message by message of the original conversation. */
module CompactionExact {
  import opened Bytes
  import opened Options
  import opened Sorting
  import opened Compaction
  import opened CompactionGuarantees

  // ---- Which steps are recent ----

  /** The message is the first of its step. */
  predicate IsFirst(ms: seq<Message>, i: int) {
    && 0 <= i < |ms| && ms[i].step.AtStep?
    && forall k :: 0 <= k < i ==> ms[k].step != ms[i].step
  }

  /** The steps that begin after position i. */
  function BegunAfter(ms: seq<Message>, i: int): set<int> {
    set j | i < j < |ms| && IsFirst(ms, j) :: ms[j].step.index
  }

  lemma {:induction false} FirstOf(ms: seq<Message>, s: int) returns (i: nat)
    requires exists k :: 0 <= k < |ms| && ms[k].step == AtStep(s)
    ensures IsFirst(ms, i) && ms[i].step == AtStep(s)
  {
    var n := |ms| - 1;
    if exists k :: 0 <= k < n && ms[..n][k].step == AtStep(s) {
      i := FirstOf(ms[..n], s);
      assert forall k :: 0 <= k < i ==> ms[..n][k] == ms[k];
    } else {
      i := n;
      assert forall k :: 0 <= k < n ==> ms[..n][k] == ms[k];
    }
  }

  /** Where a step stands in the list is decided by where it begins. */
  lemma FirstListed(ms: seq<Message>, i: nat)
    requires IsFirst(ms, i)
    ensures var n := |Steps(ms[..i])|;
            && n < |Steps(ms)| && Steps(ms)[n] == ms[i].step.index
            && Elements(Steps(ms)[n + 1..]) == BegunAfter(ms, i)
  {
    var steps, n, s := Steps(ms), |Steps(ms[..i])|, ms[i].step.index;
    NotYet(ms, i, s);
    StepsSnoc(ms, i);
    StepsGrow(ms, i + 1);
    assert Steps(ms[..i + 1])[n] == s;
    assert steps[..n + 1] == Steps(ms[..i + 1]);
    StepsDistinct(ms);
    forall u ensures u in steps[n + 1..] <==> u in BegunAfter(ms, i) {
      LaterExactly(ms, i, steps, n, u);
    }
  }

  lemma NotYet(ms: seq<Message>, i: nat, s: int)
    requires i <= |ms| && forall k :: 0 <= k < i ==> ms[k].step != AtStep(s)
    ensures s !in Steps(ms[..i])
  {
    StepsExact(ms[..i]);
  }

  lemma LaterExactly(ms: seq<Message>, i: nat, steps: seq<int>, n: nat, u: int)
    requires i < |ms| && steps == Steps(ms) && n < |steps| && steps[..n + 1] == Steps(ms[..i + 1]) && Distinct(steps)
    ensures u in steps[n + 1..] <==> u in BegunAfter(ms, i)
  {
    if u in steps[n + 1..] {
      SplitDistinct(steps, n + 1, u);
      LateIsBegun(ms, i, u);
    }
    if u in BegunAfter(ms, i) {
      BegunIsLate(ms, i, u);
      assert steps == steps[..n + 1] + steps[n + 1..];
    }
  }

  lemma LateIsBegun(ms: seq<Message>, i: nat, u: int)
    requires i < |ms| && u in Steps(ms) && u !in Steps(ms[..i + 1])
    ensures u in BegunAfter(ms, i)
  {
    StepsExact(ms);
    var j := FirstOf(ms, u);
    NotEarly(ms, i, u, j);
  }

  lemma BegunIsLate(ms: seq<Message>, i: nat, u: int)
    requires i < |ms| && u in BegunAfter(ms, i)
    ensures u in Steps(ms) && u !in Steps(ms[..i + 1])
  {
    var j :| i < j < |ms| && IsFirst(ms, j) && ms[j].step.index == u;
    assert ms[j].step == AtStep(u);
    NotYet(ms, i + 1, u);
    StepsExact(ms);
  }

  lemma NotEarly(ms: seq<Message>, i: nat, u: int, j: nat)
    requires i < |ms| && u !in Steps(ms[..i + 1]) && j < |ms| && ms[j].step == AtStep(u)
    ensures i < j
  {
    StepsExact(ms[..i + 1]);
    assert forall k :: 0 <= k <= i ==> ms[..i + 1][k] == ms[k];
  }

  lemma SplitDistinct(steps: seq<int>, n: nat, u: int)
    requires Distinct(steps) && n <= |steps| && u in steps[n..]
    ensures u !in steps[..n]
  {
    var k :| 0 <= k < |steps[n..]| && steps[n..][k] == u;
    assert steps[n + k] == u;
  }

  /** A step is recent exactly when fewer than `keep` steps begin after it. */
  lemma RecentExactly(keep: int, ms: seq<Message>, i: nat)
    requires IsFirst(ms, i)
    ensures ms[i].step.index in Protected(keep, ms) <==> |BegunAfter(ms, i)| < keep
  {
    var steps, n := Steps(ms), |Steps(ms[..i])|;
    FirstListed(ms, i);
    StepsDistinct(ms);
    assert Distinct(steps[n + 1..]);
    DistinctCounts(steps[n + 1..]);
    LastFrom(steps, keep, n);
  }

  lemma LastFrom(steps: seq<int>, keep: int, n: nat)
    requires Distinct(steps) && n < |steps|
    ensures steps[n] in LastOf(steps, keep) <==> |steps| - n - 1 < keep
  {
    if 0 < keep < |steps| {
      var k := |steps| - keep;
      if n >= k { assert steps[k..][n - k] == steps[n]; }
      if steps[n] in steps[k..] { SplitDistinct(steps, k, steps[n]); }
      assert n < k ==> steps[..k][n] == steps[n];
    }
  }

  // ---- What is left, by position ----

  /** The message is past the first two and of no recent step. */
  predicate Open(recent: set<int>, p: nat, m: Message) {
    p >= 2 && !(m.step.AtStep? && m.step.index in recent)
  }

  /** The kinds that are gone after k phases. */
  predicate Gone(k: nat, kind: MessageType) {
    || (k >= 1 && (kind == StepNudge || kind == PrerequisiteNudge || kind == RetryNudge))
    || (k >= 2 && kind == ToolResult)
    || (k >= 3 && (kind == Reasoning || kind == TextResponse))
  }

  /** The message with at most its first `chars` bytes. */
  function Cut(m: Message, chars: nat): Message {
    m.(content := m.content[..if |m.content| < chars then |m.content| else chars])
  }

  function Survivor(k: nat, chars: nat, recent: set<int>, p: nat, m: Message): Message {
    if k >= 1 && Open(recent, p, m) && m.kind == ToolResult then Cut(m, chars) else m
  }

  predicate Stays(k: nat, recent: set<int>, p: nat, m: Message) {
    !(Open(recent, p, m) && Gone(k, m.kind))
  }

  function Left(k: nat, chars: nat, recent: set<int>, ms: seq<Message>): seq<Message> {
    if ms == [] then []
    else
      var n := |ms| - 1;
      var rest := Left(k, chars, recent, ms[..n]);
      if Stays(k, recent, n, ms[n]) then rest + [Survivor(k, chars, recent, n, ms[n])] else rest
  }

  function Places(k: nat, recent: set<int>, ms: seq<Message>): seq<nat> {
    if ms == [] then []
    else
      var n := |ms| - 1;
      var rest := Places(k, recent, ms[..n]);
      if Stays(k, recent, n, ms[n]) then rest + [n] else rest
  }

  /** The first two messages keep their places. */
  lemma {:induction false} LeftCounts(k: nat, chars: nat, recent: set<int>, ms: seq<Message>)
    ensures |ms| <= 2 ==> |Left(k, chars, recent, ms)| == |ms|
    ensures |ms| > 2 ==> |Left(k, chars, recent, ms)| >= 2
  {
    if ms != [] { LeftCounts(k, chars, recent, ms[..|ms| - 1]); }
  }

  lemma {:induction false} NothingYet(chars: nat, recent: set<int>, ms: seq<Message>)
    ensures Left(0, chars, recent, ms) == ms
  {
    if ms != [] {
      var n := |ms| - 1;
      NothingYet(chars, recent, ms[..n]);
      assert ms == ms[..n] + [ms[n]];
      assert Stays(0, recent, n, ms[n]) && Survivor(0, chars, recent, n, ms[n]) == ms[n];
    }
  }

  /** The next phase on what is left of one message. */
  lemma PhaseOnOne(k: nat, chars: nat, recent: set<int>, p: nat, i: nat, m: Message)
    requires k < 3 && Stays(k, recent, p, m) && (p < 2 <==> i < 2)
    ensures Rule(PhaseOf(k + 1), chars, recent, i, Survivor(k, chars, recent, p, m)) ==
            if Stays(k + 1, recent, p, m) then Some(Survivor(k + 1, chars, recent, p, m)) else None
  {
    assert |m.content| <= chars ==> m.content[..|m.content|] == m.content;
  }

  lemma {:induction false} PhaseOnLeft(k: nat, chars: nat, recent: set<int>, ms: seq<Message>)
    requires k < 3
    ensures Kept(PhaseOf(k + 1), chars, recent, Left(k, chars, recent, ms)) == Left(k + 1, chars, recent, ms)
  {
    if ms != [] {
      var n := |ms| - 1;
      var rest := Left(k, chars, recent, ms[..n]);
      PhaseOnLeft(k, chars, recent, ms[..n]);
      LeftCounts(k, chars, recent, ms[..n]);
      if Stays(k, recent, n, ms[n]) {
        PhaseOnOne(k, chars, recent, n, |rest|, ms[n]);
        KeptOneMore(PhaseOf(k + 1), chars, recent, rest, Survivor(k, chars, recent, n, ms[n]));
      }
    }
  }

  lemma KeptOneMore(phase: Phase, chars: nat, recent: set<int>, ms: seq<Message>, m: Message)
    ensures var rest, r := Kept(phase, chars, recent, ms), Rule(phase, chars, recent, |ms|, m);
            Kept(phase, chars, recent, ms + [m]) == if r.Some? then rest + [r.value] else rest
  {
    assert (ms + [m])[..|ms|] == ms;
  }

  lemma {:induction false} StageIsLeft(k: nat, keep: int, chars: nat, ms: seq<Message>)
    requires k <= 3 && OldStepsDone(keep, ms)
    ensures Stage(k, keep, chars, ms) == Left(k, chars, Protected(keep, ms), ms)
  {
    if k == 0 {
      NothingYet(chars, Protected(keep, ms), ms);
    } else {
      StageIsLeft(k - 1, keep, chars, ms);
      StageKeepsRecent(k - 1, keep, chars, ms);
      PhaseOnLeft(k - 1, chars, Protected(keep, ms), ms);
    }
  }

  lemma {:induction false} LeftAtPlaces(k: nat, chars: nat, recent: set<int>, ms: seq<Message>)
    ensures var r, idx := Left(k, chars, recent, ms), Places(k, recent, ms);
            && |r| == |idx| && Positions(idx, |ms|)
            && forall j :: 0 <= j < |r| ==> r[j] == Survivor(k, chars, recent, idx[j], ms[idx[j]])
  {
    if ms != [] { LeftAtPlaces(k, chars, recent, ms[..|ms| - 1]); }
  }

  lemma {:induction false} PlacesExactly(k: nat, recent: set<int>, ms: seq<Message>, p: nat)
    requires p < |ms|
    ensures p in Places(k, recent, ms) <==> Stays(k, recent, p, ms[p])
  {
    var n := |ms| - 1;
    PlacesBelow(k, recent, ms[..n]);
    if p < n { PlacesExactly(k, recent, ms[..n], p); }
  }

  lemma {:induction false} PlacesBelow(k: nat, recent: set<int>, ms: seq<Message>)
    ensures forall p :: p in Places(k, recent, ms) ==> p < |ms|
  {
    if ms != [] { PlacesBelow(k, recent, ms[..|ms| - 1]); }
  }

  /** What a compaction that stopped at a phase returns, under the condition on the steps: the
      messages at certain positions of the conversation, in order. A position is missing
      exactly if it is past the first two, its step is not recent, and its kind is a nudge
      from phase 1 on, a tool result from phase 2 on, or reasoning or text at phase 3. At
      phase 1 a tool result of an older step has its first bytes only; every other message is
      verbatim. */
  lemma CompactsExactly(keep: int, chars: nat, ms: seq<Message>, target: int, counter: seq<Message> -> int,
                        r: seq<Message>, phase: int)
    returns (idx: seq<nat>)
    requires OldStepsDone(keep, ms) && Compacts(keep, chars, ms, target, counter, r, phase)
    ensures |idx| == |r| && (forall i, j :: 0 <= i < j < |idx| ==> idx[i] < idx[j])
    ensures forall j :: 0 <= j < |idx| ==> idx[j] < |ms|
    ensures forall p :: 0 <= p < |ms| ==>
              (p !in idx <==>
                 && p >= 2 && !(ms[p].step.AtStep? && ms[p].step.index in Protected(keep, ms))
                 && match ms[p].kind
                    case StepNudge => phase >= 1
                    case PrerequisiteNudge => phase >= 1
                    case RetryNudge => phase >= 1
                    case ToolResult => phase >= 2
                    case Reasoning => phase >= 3
                    case TextResponse => phase >= 3
                    case _ => false)
    ensures forall j :: 0 <= j < |r| ==>
              var m := ms[idx[j]];
              r[j] == if && phase == 1 && m.kind == ToolResult && idx[j] >= 2
                         && !(m.step.AtStep? && m.step.index in Protected(keep, ms)) && |m.content| > chars
                      then m.(content := m.content[..chars]) else m
  {
    var recent := Protected(keep, ms);
    StageIsLeft(phase, keep, chars, ms);
    idx := Places(phase, recent, ms);
    LeftAtPlaces(phase, chars, recent, ms);
    forall p | 0 <= p < |ms| ensures p in idx <==> Stays(phase, recent, p, ms[p]) {
      PlacesExactly(phase, recent, ms, p);
    }
    forall j | 0 <= j < |r| ensures Stays(phase, recent, idx[j], ms[idx[j]]) { assert idx[j] in idx; }
    SurvivorsAre(phase, chars, recent, ms, r, idx);
  }

  lemma SurvivorsAre(k: nat, chars: nat, recent: set<int>, ms: seq<Message>, r: seq<Message>, idx: seq<nat>)
    requires |r| == |idx| && forall j :: 0 <= j < |r| ==> idx[j] < |ms| && Stays(k, recent, idx[j], ms[idx[j]])
    requires forall j :: 0 <= j < |r| ==> r[j] == Survivor(k, chars, recent, idx[j], ms[idx[j]])
    ensures forall j :: 0 <= j < |r| ==>
              var m := ms[idx[j]];
              r[j] == if && k == 1 && m.kind == ToolResult && idx[j] >= 2
                         && !(m.step.AtStep? && m.step.index in recent) && |m.content| > chars
                      then m.(content := m.content[..chars]) else m
  {
    forall j | 0 <= j < |r|
      ensures var m := ms[idx[j]];
              r[j] == if && k == 1 && m.kind == ToolResult && idx[j] >= 2
                         && !(m.step.AtStep? && m.step.index in recent) && |m.content| > chars
                      then m.(content := m.content[..chars]) else m
    {
      var m := ms[idx[j]];
      assert m.content[..|m.content|] == m.content;
    }
  }
}
