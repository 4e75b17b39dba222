/** The guardrails facade (go/middleware/guardrails/facade.go, step_enforcer.go): per
    session, which calls were recorded, which steps are complete, and how often
    prerequisites were violated. */
module Guardrails {

  type Value(==, !new)

  datatype ToolCall = ToolCall(tool: string, args: map<string, Value>)

  datatype Prerequisite = Prerequisite(tool: string, requires_: string, matchArg: string)

  datatype Config = Config(version: int, toolNames: seq<string>, requiredSteps: seq<string>, terminalTool: string,
                           prerequisites: seq<Prerequisite>, maxPrereqViolations: int, stepNudgeTier: int)

  datatype Outcome = Execute | Retry | StepBlocked | Fatal

  datatype CheckResult = CheckResult(outcome: Outcome, toolCalls: seq<ToolCall>, missingSteps: seq<string>,
                                     missingPrerequisites: seq<string>, prereqViolations: int)

  /** What one session has done so far. */
  datatype View = View(completed: set<string>, recorded: seq<ToolCall>, violations: int)

  // ---- The checks ----

  /** A recorded call satisfies a rule for a later call. */
  predicate Satisfies(prior: ToolCall, rule: Prerequisite, call: ToolCall) {
    && prior.tool == rule.requires_
    && (rule.matchArg == "" ||
        (&& rule.matchArg in prior.args && rule.matchArg in call.args
         && prior.args[rule.matchArg] == call.args[rule.matchArg]))
  }

  predicate HasRecorded(recorded: seq<ToolCall>, rule: Prerequisite, call: ToolCall) {
    exists i :: 0 <= i < |recorded| && Satisfies(recorded[i], rule, call)
  }

  /** The unmet prerequisites of a call, each once, in the order of the rules. */
  function MissingPrerequisites(rules: seq<Prerequisite>, recorded: seq<ToolCall>, call: ToolCall): seq<string> {
    if rules == [] then []
    else
      var n := |rules| - 1;
      var missing := MissingPrerequisites(rules[..n], recorded, call);
      var rule := rules[n];
      if rule.tool != call.tool || HasRecorded(recorded, rule, call) || rule.requires_ in missing
      then missing else missing + [rule.requires_]
  }

  function MissingSteps(steps: seq<string>, completed: set<string>): seq<string> {
    if steps == [] then []
    else
      var n := |steps| - 1;
      MissingSteps(steps[..n], completed) + if steps[n] in completed then [] else [steps[n]]
  }

  datatype Verdict = Clear | Blocked(steps: seq<string>) | Lacking(prerequisites: seq<string>)

  function JudgeOne(cfg: Config, v: View, call: ToolCall): Verdict {
    var steps := MissingSteps(cfg.requiredSteps, v.completed);
    var missing := MissingPrerequisites(cfg.prerequisites, v.recorded, call);
    if cfg.terminalTool != "" && call.tool == cfg.terminalTool && steps != [] then Blocked(steps)
    else if missing != [] then Lacking(missing)
    else Clear
  }

  /** The first call that is not clear decides. */
  function Judge(cfg: Config, v: View, calls: seq<ToolCall>): Verdict {
    if calls == [] then Clear
    else if JudgeOne(cfg, v, calls[0]).Clear? then Judge(cfg, v, calls[1..])
    else JudgeOne(cfg, v, calls[0])
  }

  lemma JudgeFrom(cfg: Config, v: View, calls: seq<ToolCall>, i: nat)
    requires i < |calls|
    ensures Judge(cfg, v, calls[i..]) ==
            if JudgeOne(cfg, v, calls[i]).Clear? then Judge(cfg, v, calls[i + 1..]) else JudgeOne(cfg, v, calls[i])
  {
    assert calls[i..][0] == calls[i] && calls[i..][1..] == calls[i + 1..];
  }

  predicate Known(cfg: Config, calls: seq<ToolCall>) {
    forall i :: 0 <= i < |calls| ==> calls[i].tool in cfg.toolNames
  }

  predicate Violates(cfg: Config, v: View, calls: seq<ToolCall>) {
    calls != [] && Known(cfg, calls) && Judge(cfg, v, calls).Lacking?
  }

  function Checked(cfg: Config, v: View, calls: seq<ToolCall>): CheckResult {
    if calls == [] || !Known(cfg, calls) then CheckResult(Retry, [], [], [], 0)
    else
      match Judge(cfg, v, calls)
      case Clear => CheckResult(Execute, calls, [], [], 0)
      case Blocked(steps) => CheckResult(StepBlocked, [], steps, [], 0)
      case Lacking(missing) =>
        var count := v.violations + 1;
        CheckResult(if count > cfg.maxPrereqViolations then Fatal else Retry, [], [], missing, count)
  }

  function AfterCheck(cfg: Config, v: View, calls: seq<ToolCall>): View {
    if Violates(cfg, v, calls) then v.(violations := v.violations + 1) else v
  }

  function AfterRecord(v: View, call: ToolCall, failed: bool): View {
    if failed then v else v.(completed := v.completed + {call.tool}, recorded := v.recorded + [call])
  }

  // ---- The facade ----

  class Facade {
    var config: Config
    var completedSteps: map<string, set<string>>
    var recorded: map<string, seq<ToolCall>>
    var prereqViolations: map<string, int>

    constructor (config: Config)
      ensures this.config == config && forall session :: ViewOf(session) == View({}, [], 0)
    {
      this.config := config;
      completedSteps, recorded, prereqViolations := map[], map[], map[];
    }

    /** What the three maps say about one session. */
    function ViewOf(session: string): View
      reads this
    {
      View(if session in completedSteps then completedSteps[session] else {},
           if session in recorded then recorded[session] else [],
           if session in prereqViolations then prereqViolations[session] else 0)
    }

    method HasRecordedPrerequisite(session: string, rule: Prerequisite, call: ToolCall) returns (r: bool)
      ensures r <==> HasRecorded(ViewOf(session).recorded, rule, call)
      ensures r <==> exists prior ::
                       && prior in ViewOf(session).recorded && prior.tool == rule.requires_
                       && (rule.matchArg != "" ==>
                             && rule.matchArg in prior.args && rule.matchArg in call.args
                             && prior.args[rule.matchArg] == call.args[rule.matchArg])
    {
      var priors := if session in recorded then recorded[session] else [];
      for i := 0 to |priors|
        invariant forall k :: 0 <= k < i ==> !Satisfies(priors[k], rule, call)
      {
        var prior := priors[i];
        if prior.tool != rule.requires_ { continue; }
        if rule.matchArg == "" { return true; }
        if rule.matchArg in prior.args && rule.matchArg in call.args
           && prior.args[rule.matchArg] == call.args[rule.matchArg] { return true; }
      }
      return false;
    }

    method FindMissing(session: string, call: ToolCall) returns (missing: seq<string>)
      ensures missing == MissingPrerequisites(config.prerequisites, ViewOf(session).recorded, call)
    {
      missing := [];
      for i := 0 to |config.prerequisites|
        invariant missing == MissingPrerequisites(config.prerequisites[..i], ViewOf(session).recorded, call)
      {
        assert config.prerequisites[..i + 1][..i] == config.prerequisites[..i];
        var rule := config.prerequisites[i];
        var has := HasRecordedPrerequisite(session, rule, call);
        if rule.tool != call.tool || has { continue; }
        var found := false;
        for j := 0 to |missing|
          invariant found <==> rule.requires_ in missing[..j]
        {
          if missing[j] == rule.requires_ { found := true; }
        }
        assert missing[..|missing|] == missing;
        if !found { missing := missing + [rule.requires_]; }
      }
      assert config.prerequisites[..|config.prerequisites|] == config.prerequisites;
    }

    /** The steps of the terminal tool that are not complete. */
    method CanExecute(session: string) returns (missing: seq<string>)
      ensures missing == MissingSteps(config.requiredSteps, ViewOf(session).completed)
    {
      var completed := if session in completedSteps then completedSteps[session] else {};
      missing := [];
      for i := 0 to |config.requiredSteps|
        invariant missing == MissingSteps(config.requiredSteps[..i], completed)
      {
        assert config.requiredSteps[..i + 1][..i] == config.requiredSteps[..i];
        if config.requiredSteps[i] !in completed { missing := missing + [config.requiredSteps[i]]; }
      }
      assert config.requiredSteps[..|config.requiredSteps|] == config.requiredSteps;
    }

    method AllKnown(calls: seq<ToolCall>) returns (known: bool)
      ensures known <==> Known(config, calls)
    {
      known := true;
      for i := 0 to |calls|
        invariant known <==> forall k :: 0 <= k < i ==> calls[k].tool in config.toolNames
      {
        if calls[i].tool !in config.toolNames { known := false; }
      }
    }

    /** The terminal tool's steps first, then the prerequisites. */
    method JudgeCall(session: string, call: ToolCall) returns (v: Verdict)
      ensures v == JudgeOne(config, ViewOf(session), call)
    {
      if config.terminalTool != "" && call.tool == config.terminalTool {
        var steps := CanExecute(session);
        if |steps| > 0 { return Blocked(steps); }
      }
      var missing := FindMissing(session, call);
      if |missing| > 0 { return Lacking(missing); }
      return Clear;
    }

    /** The loop of the check: it ends at the first call that is not clear. */
    method JudgeCalls(session: string, calls: seq<ToolCall>) returns (v: Verdict)
      ensures v == Judge(config, ViewOf(session), calls)
    {
      for i := 0 to |calls|
        invariant Judge(config, ViewOf(session), calls) == Judge(config, ViewOf(session), calls[i..])
      {
        JudgeFrom(config, ViewOf(session), calls, i);
        v := JudgeCall(session, calls[i]);
        if !v.Clear? { return; }
      }
      return Clear;
    }

    method Check(session: string, calls: seq<ToolCall>) returns (r: CheckResult)
      modifies this`prereqViolations
      ensures r == Checked(config, old(ViewOf(session)), calls)
      ensures ViewOf(session) == AfterCheck(config, old(ViewOf(session)), calls)
      ensures forall other :: other != session ==> ViewOf(other) == old(ViewOf(other))
    {
      if |calls| == 0 { return CheckResult(Retry, [], [], [], 0); }
      var known := AllKnown(calls);
      if !known { return CheckResult(Retry, [], [], [], 0); }
      var verdict := JudgeCalls(session, calls);
      if verdict.Blocked? { return CheckResult(StepBlocked, [], verdict.steps, [], 0); }
      if verdict.Lacking? {
        var count := (if session in prereqViolations then prereqViolations[session] else 0) + 1;
        prereqViolations := prereqViolations[session := count];
        var outcome := if count > config.maxPrereqViolations then Fatal else Retry;
        return CheckResult(outcome, [], [], verdict.prerequisites, count);
      }
      return CheckResult(Execute, calls, [], [], 0);
    }

    method Record(session: string, call: ToolCall, failed: bool)
      modifies this`completedSteps, this`recorded
      ensures ViewOf(session) == AfterRecord(old(ViewOf(session)), call, failed)
      ensures forall other :: other != session ==> ViewOf(other) == old(ViewOf(other))
    {
      if failed { return; }
      var steps := if session in completedSteps then completedSteps[session] else {};
      completedSteps := completedSteps[session := steps + {call.tool}];
      var calls := if session in recorded then recorded[session] else [];
      recorded := recorded[session := calls + [call]];
    }
  }
}
