/** Tiered conversation compaction (go/llm/compact.go): three phases, each of which drops
    more and each of which recomputes for itself which steps are recent. */
module Compaction {
  import opened Bytes
  import opened Options

  datatype StepIndex = NoStep | AtStep(index: int)

  datatype MessageType =
    | SystemPrompt | UserInput | ToolCalled | ToolResult | Reasoning | TextResponse
    | StepNudge | PrerequisiteNudge | RetryNudge | ContextWarning | Summary
    | OtherType(name: Text)

  datatype Message = Message(role: Text, content: Text, toolCallID: Text, toolNames: seq<Text>,
                             kind: MessageType, step: StepIndex)

  // ---- Which steps are recent ----

  /** The step indices in the order they first occur. */
  function Steps(ms: seq<Message>): seq<int> {
    if ms == [] then []
    else
      var n := |ms| - 1;
      var r := Steps(ms[..n]);
      if ms[n].step.NoStep? || ms[n].step.index in r then r else r + [ms[n].step.index]
  }

  lemma {:induction false} StepsDistinct(ms: seq<Message>)
    ensures forall i, j :: 0 <= i < j < |Steps(ms)| ==> Steps(ms)[i] != Steps(ms)[j]
  {
    if ms != [] { StepsDistinct(ms[..|ms| - 1]); }
  }

  /** The step indices of the messages are listed, and nothing else is. */
  lemma {:induction false} StepsExact(ms: seq<Message>)
    ensures forall s :: s in Steps(ms) <==> exists i :: 0 <= i < |ms| && ms[i].step == AtStep(s)
  {
    if ms != [] {
      var n := |ms| - 1;
      StepsExact(ms[..n]);
      assert forall i :: 0 <= i < n ==> ms[..n][i] == ms[i];
    }
  }

  lemma StepsSnoc(ms: seq<Message>, i: nat)
    requires i < |ms|
    ensures var r, s := Steps(ms[..i]), ms[i].step;
            Steps(ms[..i + 1]) == if s.NoStep? || s.index in r then r else r + [s.index]
  {
    assert ms[..i + 1][..i] == ms[..i];
  }

  function LastOf(steps: seq<int>, keep: int): seq<int> {
    if keep <= 0 then [] else if keep >= |steps| then steps else steps[|steps| - keep..]
  }

  /** The last `keep` distinct steps. */
  function Protected(keep: int, ms: seq<Message>): set<int> {
    set s | s in LastOf(Steps(ms), keep)
  }

  predicate IsProtected(m: Message, recent: set<int>) {
    m.step.AtStep? && m.step.index in recent
  }

  predicate IsNudge(kind: MessageType) {
    kind.StepNudge? || kind.RetryNudge? || kind.PrerequisiteNudge?
  }

  // ---- The phases ----

  datatype Phase = Phase1 | Phase2 | Phase3

  function Truncated(m: Message, chars: nat): Message {
    if |m.content| > chars then m.(content := m.content[..chars]) else m
  }

  /** What a phase makes of one message. */
  function Rule(phase: Phase, chars: nat, recent: set<int>, i: nat, m: Message): Option<Message> {
    if i < 2 || IsProtected(m, recent) then Some(m)
    else
      match phase
      case Phase1 =>
        if IsNudge(m.kind) then None
        else if m.kind.ToolResult? then Some(Truncated(m, chars)) else Some(m)
      case Phase2 => if m.kind.ToolResult? then None else Some(m)
      case Phase3 => if m.kind.Reasoning? || m.kind.TextResponse? then None else Some(m)
  }

  function Kept(phase: Phase, chars: nat, recent: set<int>, ms: seq<Message>): seq<Message> {
    if ms == [] then []
    else
      var n := |ms| - 1;
      var rest := Kept(phase, chars, recent, ms[..n]);
      var r := Rule(phase, chars, recent, n, ms[n]);
      if r.Some? then rest + [r.value] else rest
  }

  function Run(phase: Phase, keep: int, chars: nat, ms: seq<Message>): seq<Message> {
    Kept(phase, chars, Protected(keep, ms), ms)
  }

  /** The conversation after the first k phases. */
  function Stage(k: nat, keep: int, chars: nat, ms: seq<Message>): seq<Message>
    requires k <= 3
  {
    if k == 0 then ms
    else Run(if k == 1 then Phase1 else if k == 2 then Phase2 else Phase3, keep, chars, Stage(k - 1, keep, chars, ms))
  }

  // ---- The code ----

  datatype Result = Ok(messages: seq<Message>) | EmptyMessages

  class TieredCompact {
    var keepRecent: int
    var truncateChars: nat
    var lastPhase: int

    constructor ()
      ensures keepRecent == 2 && truncateChars == 200 && lastPhase == 0
    {
      keepRecent, truncateChars, lastPhase := 2, 200, 0;
    }

    method ProtectedSteps(messages: seq<Message>) returns (protected: set<int>)
      ensures protected == Protected(keepRecent, messages)
    {
      protected := {};
      if keepRecent <= 0 { return; }
      var steps: seq<int> := [];
      var stepSet: set<int> := {};
      for i := 0 to |messages|
        invariant steps == Steps(messages[..i])
        invariant forall s :: s in stepSet <==> s in steps
      {
        StepsSnoc(messages, i);
        var step := messages[i].step;
        if step.AtStep? && step.index !in stepSet {
          steps := steps + [step.index];
          stepSet := stepSet + {step.index};
        }
      }
      assert messages[..|messages|] == messages;
      var start := if keepRecent >= |steps| then 0 else |steps| - keepRecent;
      for i := start to |steps|
        invariant protected == set s | s in steps[start..i]
      {
        assert steps[start..i + 1] == steps[start..i] + [steps[i]];
        protected := protected + {steps[i]};
      }
      assert steps[start..] == steps[start..|steps|];
    }

    method Phase1Compact(messages: seq<Message>) returns (result: seq<Message>)
      ensures result == Run(Phase1, keepRecent, truncateChars, messages)
    {
      result := [];
      var protected := ProtectedSteps(messages);
      for i := 0 to |messages|
        invariant result == Kept(Phase1, truncateChars, protected, messages[..i])
      {
        assert messages[..i + 1][..i] == messages[..i];
        var m := messages[i];
        if i == 0 || i == 1 { result := result + [m]; continue; }
        if IsProtected(m, protected) { result := result + [m]; continue; }
        if IsNudge(m.kind) { continue; }
        if m.kind.ToolResult? && |m.content| > truncateChars {
          result := result + [m.(content := m.content[..truncateChars])];
          continue;
        }
        result := result + [m];
      }
      assert messages[..|messages|] == messages;
    }

    method Phase2Compact(messages: seq<Message>) returns (result: seq<Message>)
      ensures result == Run(Phase2, keepRecent, truncateChars, messages)
    {
      result := [];
      var protected := ProtectedSteps(messages);
      for i := 0 to |messages|
        invariant result == Kept(Phase2, truncateChars, protected, messages[..i])
      {
        assert messages[..i + 1][..i] == messages[..i];
        var m := messages[i];
        if i == 0 || i == 1 { result := result + [m]; continue; }
        if IsProtected(m, protected) { result := result + [m]; continue; }
        if m.kind.ToolResult? { continue; }
        result := result + [m];
      }
      assert messages[..|messages|] == messages;
    }

    method Phase3Compact(messages: seq<Message>) returns (result: seq<Message>)
      ensures result == Run(Phase3, keepRecent, truncateChars, messages)
    {
      result := [];
      var protected := ProtectedSteps(messages);
      for i := 0 to |messages|
        invariant result == Kept(Phase3, truncateChars, protected, messages[..i])
      {
        assert messages[..i + 1][..i] == messages[..i];
        var m := messages[i];
        if i == 0 || i == 1 { result := result + [m]; continue; }
        if IsProtected(m, protected) { result := result + [m]; continue; }
        if m.kind.Reasoning? || m.kind.TextResponse? { continue; }
        result := result + [m];
      }
      assert messages[..|messages|] == messages;
    }

    /** The reported phase is the first whose output meets the target, else 3. */
    method Compact(messages: seq<Message>, targetTokens: int, counter: seq<Message> -> int) returns (r: Result)
      modifies this`lastPhase
      ensures messages == [] <==> r.EmptyMessages?
      ensures messages == [] ==> lastPhase == old(lastPhase)
      ensures messages != [] ==>
                Compacts(keepRecent, truncateChars, messages, targetTokens, counter, r.messages, lastPhase)
    {
      if |messages| == 0 { return EmptyMessages; }
      var result := messages;
      if counter(result) <= targetTokens {
        lastPhase := 0;
        return Ok(result);
      }
      result := Phase1Compact(result);
      assert result == Stage(1, keepRecent, truncateChars, messages);
      if counter(result) <= targetTokens {
        lastPhase := 1;
        return Ok(result);
      }
      result := Phase2Compact(result);
      assert result == Stage(2, keepRecent, truncateChars, messages);
      if counter(result) <= targetTokens {
        lastPhase := 2;
        return Ok(result);
      }
      result := Phase3Compact(result);
      lastPhase := 3;
      return Ok(result);
    }
  }

  /** r is the output of the first phase that meets the target, or of the last one. */
  ghost predicate Compacts(keep: int, chars: nat, ms: seq<Message>, target: int, counter: seq<Message> -> int,
                           r: seq<Message>, phase: int)
  {
    && 0 <= phase <= 3 && r == Stage(phase, keep, chars, ms)
    && (phase < 3 ==> counter(r) <= target)
    && (phase > 0 ==> counter(ms) > target)
    && (phase > 1 ==> counter(Stage(1, keep, chars, ms)) > target)
    && (phase > 2 ==> counter(Stage(2, keep, chars, ms)) > target)
  }
}
