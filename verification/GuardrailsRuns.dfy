/** What the guardrails facade guarantees over whole runs of Check and Record by any number
    of sessions. */
module GuardrailsRuns {
  import opened Guardrails

  datatype Op = Check(session: string, calls: seq<ToolCall>) | Record(session: string, call: ToolCall, failed: bool)

  /** One operation changes the view of its own session as the facade's methods do, and of
      no other. */
  function Step(cfg: Config, views: string -> View, op: Op): string -> View {
    var v := views(op.session);
    var v' := match op
      case Check(_, calls) => AfterCheck(cfg, v, calls)
      case Record(_, call, failed) => AfterRecord(v, call, failed);
    session => if session == op.session then v' else views(session)
  }

  function Views(cfg: Config, ops: seq<Op>): string -> View {
    if ops == [] then session => View({}, [], 0)
    else Step(cfg, Views(cfg, ops[..|ops| - 1]), ops[|ops| - 1])
  }

  /** The result of the i-th operation of a run. */
  function ResultAt(cfg: Config, ops: seq<Op>, i: nat): CheckResult
    requires i < |ops| && ops[i].Check?
  {
    Checked(cfg, Views(cfg, ops[..i])(ops[i].session), ops[i].calls)
  }

  // ---- The view is the history ----

  /** The calls a session recorded as successful, in order. */
  function Successes(ops: seq<Op>, session: string): seq<ToolCall> {
    if ops == [] then []
    else
      var rest, op := Successes(ops[..|ops| - 1], session), ops[|ops| - 1];
      if op.Record? && op.session == session && !op.failed then rest + [op.call] else rest
  }

  lemma {:induction false} RecordedIsHistory(cfg: Config, ops: seq<Op>, session: string)
    ensures var v := Views(cfg, ops)(session);
            && v.recorded == Successes(ops, session)
            && (forall t :: t in v.completed <==> exists i :: 0 <= i < |v.recorded| && v.recorded[i].tool == t)
  {
    if ops != [] {
      var before, op := ops[..|ops| - 1], ops[|ops| - 1];
      RecordedIsHistory(cfg, before, session);
      var v, v' := Views(cfg, before)(session), Views(cfg, ops)(session);
      if op.Record? && op.session == session && !op.failed {
        forall t ensures t in v'.completed <==> exists i :: 0 <= i < |v'.recorded| && v'.recorded[i].tool == t {
          if t in v.completed {
            var i :| 0 <= i < |v.recorded| && v.recorded[i].tool == t;
            assert v'.recorded[i].tool == t;
          } else if t == op.call.tool {
            assert v'.recorded[|v.recorded|].tool == t;
          }
        }
      }
    }
  }

  /** A successful record of the session before the i-th operation. */
  ghost predicate RecordedBefore(ops: seq<Op>, i: nat, session: string, j: int)
    requires i <= |ops|
  {
    0 <= j < i && ops[j].Record? && ops[j].session == session && !ops[j].failed
  }

  lemma {:induction false} SuccessesExact(ops: seq<Op>, session: string, call: ToolCall)
    ensures call in Successes(ops, session) <==>
            exists j :: RecordedBefore(ops, |ops|, session, j) && ops[j].call == call
  {
    if ops != [] {
      var n := |ops| - 1;
      var before := ops[..n];
      SuccessesExact(before, session, call);
      assert forall j :: 0 <= j < n ==> before[j] == ops[j];
      if exists j :: RecordedBefore(before, n, session, j) && before[j].call == call {
        var j :| RecordedBefore(before, n, session, j) && before[j].call == call;
        assert RecordedBefore(ops, n + 1, session, j);
      }
      if exists j :: RecordedBefore(ops, n + 1, session, j) && ops[j].call == call {
        var j :| RecordedBefore(ops, n + 1, session, j) && ops[j].call == call;
        if j < n { assert RecordedBefore(before, n, session, j); }
      }
    }
  }

  // ---- What a call needs, on the history alone ----

  /** A rule is met for a call: the tool it requires succeeded earlier in the session and,
      when the rule names an argument, both calls carry it with the same value. */
  ghost predicate RuleMet(ops: seq<Op>, i: nat, session: string, rule: Prerequisite, call: ToolCall)
    requires i <= |ops|
  {
    exists j :: RecordedBefore(ops, i, session, j) && ops[j].call.tool == rule.requires_ &&
                (rule.matchArg != "" ==>
                   && rule.matchArg in ops[j].call.args && rule.matchArg in call.args
                   && ops[j].call.args[rule.matchArg] == call.args[rule.matchArg])
  }

  ghost predicate StepDone(ops: seq<Op>, i: nat, session: string, step: string)
    requires i <= |ops|
  {
    exists j :: RecordedBefore(ops, i, session, j) && ops[j].call.tool == step
  }

  /** The k-th rule is about the call's tool and is not met. */
  ghost predicate Unmet(cfg: Config, ops: seq<Op>, i: nat, session: string, call: ToolCall, k: int)
    requires i <= |ops|
  {
    && 0 <= k < |cfg.prerequisites| && cfg.prerequisites[k].tool == call.tool
    && !RuleMet(ops, i, session, cfg.prerequisites[k], call)
  }

  /** The k-th required step has not succeeded yet. */
  ghost predicate Undone(cfg: Config, ops: seq<Op>, i: nat, session: string, k: int)
    requires i <= |ops|
  {
    0 <= k < |cfg.requiredSteps| && !StepDone(ops, i, session, cfg.requiredSteps[k])
  }

  /** A call of the terminal tool with a required step undone. */
  ghost predicate TooEarly(cfg: Config, ops: seq<Op>, i: nat, session: string, call: ToolCall)
    requires i <= |ops|
  {
    cfg.terminalTool != "" && call.tool == cfg.terminalTool && exists k :: Undone(cfg, ops, i, session, k)
  }

  /** A call with a rule that is not met. */
  ghost predicate Deprived(cfg: Config, ops: seq<Op>, i: nat, session: string, call: ToolCall)
    requires i <= |ops|
  {
    exists k :: Unmet(cfg, ops, i, session, call, k)
  }

  ghost predicate CallReady(cfg: Config, ops: seq<Op>, i: nat, session: string, call: ToolCall)
    requires i <= |ops|
  {
    !TooEarly(cfg, ops, i, session, call) && !Deprived(cfg, ops, i, session, call)
  }

  /** The c-th call of the i-th operation is the first that is not ready. */
  ghost predicate FirstUnready(cfg: Config, ops: seq<Op>, i: nat, c: int)
    requires i < |ops| && ops[i].Check?
  {
    && 0 <= c < |ops[i].calls| && !CallReady(cfg, ops, i, ops[i].session, ops[i].calls[c])
    && forall b :: 0 <= b < c ==> CallReady(cfg, ops, i, ops[i].session, ops[i].calls[b])
  }

  /** The i-th operation is a check of known tools with a call. */
  ghost predicate Proper(cfg: Config, ops: seq<Op>, i: nat)
    requires i < |ops|
  {
    && ops[i].Check? && ops[i].calls != []
    && forall k :: 0 <= k < |ops[i].calls| ==> ops[i].calls[k].tool in cfg.toolNames
  }

  /** The i-th operation is a check of the session whose first call that is not ready lacks a
      prerequisite and no required step. */
  ghost predicate ViolatesAt(cfg: Config, ops: seq<Op>, i: nat, session: string)
    requires i < |ops|
  {
    && Proper(cfg, ops, i) && ops[i].session == session
    && exists c :: FirstUnready(cfg, ops, i, c) && !TooEarly(cfg, ops, i, session, ops[i].calls[c])
  }

  /** How many of a session's checks violated prerequisites. */
  ghost function Violations(cfg: Config, ops: seq<Op>, session: string): nat {
    if ops == [] then 0
    else Violations(cfg, ops[..|ops| - 1], session) + if ViolatesAt(cfg, ops, |ops| - 1, session) then 1 else 0
  }

  // ---- Which names are listed ----

  ghost predicate Increasing(at: seq<nat>) {
    forall m, n :: 0 <= m < n < |at| ==> at[m] < at[n]
  }

  lemma {:induction false} StepsAt(steps: seq<string>, completed: set<string>, n: nat) returns (at: seq<nat>)
    requires n <= |steps|
    ensures var missing := MissingSteps(steps[..n], completed);
            && |at| == |missing| && Increasing(at)
            && (forall m :: 0 <= m < |at| ==> at[m] < n && missing[m] == steps[at[m]])
            && (forall k: nat :: k in at <==> k < n && steps[k] !in completed)
  {
    if n == 0 {
      at := [];
    } else {
      at := StepsAt(steps, completed, n - 1);
      assert steps[..n][..n - 1] == steps[..n - 1];
      if steps[n - 1] !in completed { at := at + [n - 1]; }
    }
  }

  /** The k-th rule is about the call's tool and no recorded call satisfies it. */
  ghost predicate Lacks(rules: seq<Prerequisite>, recorded: seq<ToolCall>, call: ToolCall, k: int) {
    0 <= k < |rules| && rules[k].tool == call.tool && !HasRecorded(recorded, rules[k], call)
  }

  ghost predicate FirstLacks(rules: seq<Prerequisite>, recorded: seq<ToolCall>, call: ToolCall, k: int) {
    && Lacks(rules, recorded, call, k)
    && forall j :: j < k && Lacks(rules, recorded, call, j) ==> rules[j].requires_ != rules[k].requires_
  }

  /** The rules at the given places are the first of the first n that lack each name. */
  ghost predicate Listing(rules: seq<Prerequisite>, recorded: seq<ToolCall>, call: ToolCall, n: nat,
                          missing: seq<string>, at: seq<nat>)
    requires n <= |rules|
  {
    && |at| == |missing| && Increasing(at)
    && (forall m :: 0 <= m < |at| ==> at[m] < n && missing[m] == rules[at[m]].requires_)
    && (forall k: nat :: k in at <==> k < n && FirstLacks(rules, recorded, call, k))
    && (forall k: nat :: k < n && Lacks(rules, recorded, call, k) ==> rules[k].requires_ in missing)
  }

  lemma ListingSkips(rules: seq<Prerequisite>, recorded: seq<ToolCall>, call: ToolCall, n: nat,
                     missing: seq<string>, at: seq<nat>)
    requires n < |rules| && Listing(rules, recorded, call, n, missing, at) && !Lacks(rules, recorded, call, n)
    ensures Listing(rules, recorded, call, n + 1, missing, at)
  {
  }

  lemma ListingRepeats(rules: seq<Prerequisite>, recorded: seq<ToolCall>, call: ToolCall, n: nat,
                       missing: seq<string>, at: seq<nat>)
    requires n < |rules| && Listing(rules, recorded, call, n, missing, at)
    requires Lacks(rules, recorded, call, n) && rules[n].requires_ in missing
    ensures Listing(rules, recorded, call, n + 1, missing, at)
  {
    var m :| 0 <= m < |missing| && missing[m] == rules[n].requires_;
    assert at[m] in at && Lacks(rules, recorded, call, at[m]);
    assert !FirstLacks(rules, recorded, call, n);
  }

  lemma ListingGrows(rules: seq<Prerequisite>, recorded: seq<ToolCall>, call: ToolCall, n: nat,
                     missing: seq<string>, at: seq<nat>)
    requires n < |rules| && Listing(rules, recorded, call, n, missing, at)
    requires Lacks(rules, recorded, call, n) && rules[n].requires_ !in missing
    ensures Listing(rules, recorded, call, n + 1, missing + [rules[n].requires_], at + [n])
  {
    assert FirstLacks(rules, recorded, call, n);
  }

  lemma {:induction false} PrerequisitesAt(rules: seq<Prerequisite>, recorded: seq<ToolCall>, call: ToolCall, n: nat)
    returns (at: seq<nat>)
    requires n <= |rules|
    ensures Listing(rules, recorded, call, n, MissingPrerequisites(rules[..n], recorded, call), at)
  {
    if n == 0 {
      at := [];
    } else {
      at := PrerequisitesAt(rules, recorded, call, n - 1);
      var before := MissingPrerequisites(rules[..n - 1], recorded, call);
      assert rules[..n][..n - 1] == rules[..n - 1];
      if !Lacks(rules, recorded, call, n - 1) {
        ListingSkips(rules, recorded, call, n - 1, before, at);
      } else if rules[n - 1].requires_ in before {
        ListingRepeats(rules, recorded, call, n - 1, before, at);
      } else {
        ListingGrows(rules, recorded, call, n - 1, before, at);
        at := at + [n - 1];
      }
    }
  }

  // ---- The state says what the history says ----

  lemma HistoryBefore(cfg: Config, ops: seq<Op>, i: nat, session: string, call: ToolCall)
    requires i <= |ops|
    ensures call in Views(cfg, ops[..i])(session).recorded <==>
            exists j :: RecordedBefore(ops, i, session, j) && ops[j].call == call
  {
    RecordedIsHistory(cfg, ops[..i], session);
    SuccessesExact(ops[..i], session, call);
    assert forall j :: 0 <= j < i ==> ops[..i][j] == ops[j];
    if exists j :: RecordedBefore(ops[..i], i, session, j) && ops[..i][j].call == call {
      var j :| RecordedBefore(ops[..i], i, session, j) && ops[..i][j].call == call;
      assert RecordedBefore(ops, i, session, j);
    }
    if exists j :: RecordedBefore(ops, i, session, j) && ops[j].call == call {
      var j :| RecordedBefore(ops, i, session, j) && ops[j].call == call;
      assert RecordedBefore(ops[..i], i, session, j);
    }
  }

  lemma RuleMetExact(cfg: Config, ops: seq<Op>, i: nat, session: string, rule: Prerequisite, call: ToolCall)
    requires i <= |ops|
    ensures HasRecorded(Views(cfg, ops[..i])(session).recorded, rule, call) <==> RuleMet(ops, i, session, rule, call)
  {
    var recorded := Views(cfg, ops[..i])(session).recorded;
    if HasRecorded(recorded, rule, call) {
      var k :| 0 <= k < |recorded| && Satisfies(recorded[k], rule, call);
      HistoryBefore(cfg, ops, i, session, recorded[k]);
      var j :| RecordedBefore(ops, i, session, j) && ops[j].call == recorded[k];
    }
    if RuleMet(ops, i, session, rule, call) {
      var j :| RecordedBefore(ops, i, session, j) && ops[j].call.tool == rule.requires_ &&
        (rule.matchArg != "" ==>
           && rule.matchArg in ops[j].call.args && rule.matchArg in call.args
           && ops[j].call.args[rule.matchArg] == call.args[rule.matchArg]);
      HistoryBefore(cfg, ops, i, session, ops[j].call);
      assert Satisfies(ops[j].call, rule, call);
    }
  }

  lemma StepDoneExact(cfg: Config, ops: seq<Op>, i: nat, session: string, step: string)
    requires i <= |ops|
    ensures step in Views(cfg, ops[..i])(session).completed <==> StepDone(ops, i, session, step)
  {
    var v := Views(cfg, ops[..i])(session);
    RecordedIsHistory(cfg, ops[..i], session);
    if step in v.completed {
      var k :| 0 <= k < |v.recorded| && v.recorded[k].tool == step;
      HistoryBefore(cfg, ops, i, session, v.recorded[k]);
    }
    if StepDone(ops, i, session, step) {
      var j :| RecordedBefore(ops, i, session, j) && ops[j].call.tool == step;
      HistoryBefore(cfg, ops, i, session, ops[j].call);
      var k :| 0 <= k < |v.recorded| && v.recorded[k] == ops[j].call;
    }
  }

  /** The missing steps of a session are the required steps it has not done, in order. */
  lemma StepsListed(cfg: Config, ops: seq<Op>, i: nat, session: string) returns (at: seq<nat>)
    requires i <= |ops|
    ensures var missing := MissingSteps(cfg.requiredSteps, Views(cfg, ops[..i])(session).completed);
            && |at| == |missing| && Increasing(at)
            && (forall m :: 0 <= m < |at| ==> at[m] < |cfg.requiredSteps| && missing[m] == cfg.requiredSteps[at[m]])
            && (forall k: nat :: k in at <==> Undone(cfg, ops, i, session, k))
  {
    var v := Views(cfg, ops[..i])(session);
    at := StepsAt(cfg.requiredSteps, v.completed, |cfg.requiredSteps|);
    assert cfg.requiredSteps[..|cfg.requiredSteps|] == cfg.requiredSteps;
    forall k | 0 <= k < |cfg.requiredSteps|
      ensures cfg.requiredSteps[k] in v.completed <==> StepDone(ops, i, session, cfg.requiredSteps[k])
    {
      StepDoneExact(cfg, ops, i, session, cfg.requiredSteps[k]);
    }
  }

  /** The k-th rule is not met, and no unmet rule before it requires the same tool. */
  ghost predicate FirstUnmet(cfg: Config, ops: seq<Op>, i: nat, session: string, call: ToolCall, k: int)
    requires i <= |ops|
  {
    && Unmet(cfg, ops, i, session, call, k)
    && forall j :: j < k && Unmet(cfg, ops, i, session, call, j) ==>
                     cfg.prerequisites[j].requires_ != cfg.prerequisites[k].requires_
  }

  lemma UnmetExact(cfg: Config, ops: seq<Op>, i: nat, session: string, call: ToolCall)
    requires i <= |ops|
    ensures var recorded := Views(cfg, ops[..i])(session).recorded;
            forall k :: Lacks(cfg.prerequisites, recorded, call, k) <==> Unmet(cfg, ops, i, session, call, k)
  {
    var recorded := Views(cfg, ops[..i])(session).recorded;
    forall k ensures Lacks(cfg.prerequisites, recorded, call, k) <==> Unmet(cfg, ops, i, session, call, k) {
      if 0 <= k < |cfg.prerequisites| { RuleMetExact(cfg, ops, i, session, cfg.prerequisites[k], call); }
    }
  }

  /** The missing prerequisites of a call are the tools its unmet rules require, each once, in
      the order of the first such rule. */
  lemma PrerequisitesListed(cfg: Config, ops: seq<Op>, i: nat, session: string, call: ToolCall) returns (at: seq<nat>)
    requires i <= |ops|
    ensures var missing := MissingPrerequisites(cfg.prerequisites, Views(cfg, ops[..i])(session).recorded, call);
            && |at| == |missing| && Increasing(at)
            && (forall m :: 0 <= m < |at| ==>
                  at[m] < |cfg.prerequisites| && missing[m] == cfg.prerequisites[at[m]].requires_)
            && (forall k: nat :: k in at <==> FirstUnmet(cfg, ops, i, session, call, k))
            && (missing == [] <==> !Deprived(cfg, ops, i, session, call))
  {
    var recorded := Views(cfg, ops[..i])(session).recorded;
    at := PrerequisitesAt(cfg.prerequisites, recorded, call, |cfg.prerequisites|);
    assert cfg.prerequisites[..|cfg.prerequisites|] == cfg.prerequisites;
    UnmetExact(cfg, ops, i, session, call);
    forall k: nat
      ensures FirstLacks(cfg.prerequisites, recorded, call, k) <==> FirstUnmet(cfg, ops, i, session, call, k)
    {
    }
    if at != [] { assert at[0] in at; }
  }

  lemma VerdictExact(cfg: Config, ops: seq<Op>, i: nat, session: string, call: ToolCall)
    requires i <= |ops|
    ensures var verdict := JudgeOne(cfg, Views(cfg, ops[..i])(session), call);
            && (verdict.Blocked? <==> TooEarly(cfg, ops, i, session, call))
            && (verdict.Clear? <==> CallReady(cfg, ops, i, session, call))
  {
    var at := StepsListed(cfg, ops, i, session);
    if at != [] { assert at[0] in at; }
    assert (exists k :: Undone(cfg, ops, i, session, k)) <==> at != [] by {
      if k :| Undone(cfg, ops, i, session, k) { assert k in at; }
    }
    var _ := PrerequisitesListed(cfg, ops, i, session, call);
  }

  // ---- Results ----

  /** The verdict on a check is that on its first call that is not clear. */
  lemma {:induction false} JudgeFirst(cfg: Config, v: View, calls: seq<ToolCall>, c: nat)
    requires c < |calls| && !JudgeOne(cfg, v, calls[c]).Clear?
    requires forall b :: 0 <= b < c ==> JudgeOne(cfg, v, calls[b]).Clear?
    ensures Judge(cfg, v, calls) == JudgeOne(cfg, v, calls[c])
  {
    if c > 0 { JudgeFirst(cfg, v, calls[1..], c - 1); }
  }

  lemma {:induction false} JudgeClear(cfg: Config, v: View, calls: seq<ToolCall>)
    requires forall b :: 0 <= b < |calls| ==> JudgeOne(cfg, v, calls[b]).Clear?
    ensures Judge(cfg, v, calls).Clear?
  {
    if calls != [] { JudgeClear(cfg, v, calls[1..]); }
  }

  /** Some call is the first that is not ready, unless all are ready. */
  lemma {:induction false} FindUnready(cfg: Config, ops: seq<Op>, i: nat, n: nat) returns (c: nat)
    requires i < |ops| && ops[i].Check? && n <= |ops[i].calls|
    ensures c <= n && forall b :: 0 <= b < c ==> CallReady(cfg, ops, i, ops[i].session, ops[i].calls[b])
    ensures c < n ==> FirstUnready(cfg, ops, i, c)
  {
    c := 0;
    if n > 0 {
      c := FindUnready(cfg, ops, i, n - 1);
      if c == n - 1 && CallReady(cfg, ops, i, ops[i].session, ops[i].calls[n - 1]) { c := n; }
    }
  }

  lemma ReadyJudged(cfg: Config, ops: seq<Op>, i: nat)
    requires i < |ops| && ops[i].Check?
    requires forall k :: 0 <= k < |ops[i].calls| ==> CallReady(cfg, ops, i, ops[i].session, ops[i].calls[k])
    ensures Judge(cfg, Views(cfg, ops[..i])(ops[i].session), ops[i].calls).Clear?
  {
    var v := Views(cfg, ops[..i])(ops[i].session);
    forall k | 0 <= k < |ops[i].calls| ensures JudgeOne(cfg, v, ops[i].calls[k]).Clear? {
      VerdictExact(cfg, ops, i, ops[i].session, ops[i].calls[k]);
    }
    JudgeClear(cfg, v, ops[i].calls);
  }

  lemma UnreadyJudged(cfg: Config, ops: seq<Op>, i: nat, c: nat)
    requires i < |ops| && ops[i].Check? && FirstUnready(cfg, ops, i, c)
    ensures var v := Views(cfg, ops[..i])(ops[i].session);
            && Judge(cfg, v, ops[i].calls) == JudgeOne(cfg, v, ops[i].calls[c])
            && !JudgeOne(cfg, v, ops[i].calls[c]).Clear?
            && (JudgeOne(cfg, v, ops[i].calls[c]).Blocked? <==>
                  TooEarly(cfg, ops, i, ops[i].session, ops[i].calls[c]))
  {
    var v := Views(cfg, ops[..i])(ops[i].session);
    forall b | 0 <= b <= c
      ensures JudgeOne(cfg, v, ops[i].calls[b]).Clear? <==> CallReady(cfg, ops, i, ops[i].session, ops[i].calls[b])
    {
      VerdictExact(cfg, ops, i, ops[i].session, ops[i].calls[b]);
    }
    VerdictExact(cfg, ops, i, ops[i].session, ops[i].calls[c]);
    JudgeFirst(cfg, v, ops[i].calls, c);
  }

  /** A check says execute exactly when it has calls, all of known tools, and for each of
      them every rule is met, match argument included, and for the terminal tool every
      required step is done, all by earlier successes of the same session. */
  lemma ExecuteExactly(cfg: Config, ops: seq<Op>, i: nat)
    requires i < |ops| && ops[i].Check?
    ensures ResultAt(cfg, ops, i).outcome.Execute? <==>
            && Proper(cfg, ops, i)
            && forall k :: 0 <= k < |ops[i].calls| ==> CallReady(cfg, ops, i, ops[i].session, ops[i].calls[k])
    ensures ResultAt(cfg, ops, i).toolCalls == if ResultAt(cfg, ops, i).outcome.Execute? then ops[i].calls else []
  {
    var c := FindUnready(cfg, ops, i, |ops[i].calls|);
    if c < |ops[i].calls| { UnreadyJudged(cfg, ops, i, c); } else { ReadyJudged(cfg, ops, i); }
  }

  /** A check is blocked exactly when its first call that is not ready is one of the terminal
      tool with a required step undone; only then does it list steps. */
  lemma BlockedExactly(cfg: Config, ops: seq<Op>, i: nat)
    requires i < |ops| && ops[i].Check?
    ensures ResultAt(cfg, ops, i).outcome.StepBlocked? <==>
            && Proper(cfg, ops, i)
            && exists c :: FirstUnready(cfg, ops, i, c) && TooEarly(cfg, ops, i, ops[i].session, ops[i].calls[c])
    ensures ResultAt(cfg, ops, i).missingSteps ==
            if ResultAt(cfg, ops, i).outcome.StepBlocked?
            then MissingSteps(cfg.requiredSteps, Views(cfg, ops[..i])(ops[i].session).completed) else []
  {
    var c := FindUnready(cfg, ops, i, |ops[i].calls|);
    if c < |ops[i].calls| {
      UnreadyJudged(cfg, ops, i, c);
      assert forall d :: FirstUnready(cfg, ops, i, d) ==> d == c;
    } else {
      ReadyJudged(cfg, ops, i);
    }
  }

  /** A check lists prerequisites exactly when its first call that is not ready lacks some and
      no required step: those of that call. */
  lemma LackingExactly(cfg: Config, ops: seq<Op>, i: nat, c: nat)
    requires i < |ops| && Proper(cfg, ops, i) && FirstUnready(cfg, ops, i, c)
    ensures var r, call := ResultAt(cfg, ops, i), ops[i].calls[c];
            r.missingPrerequisites ==
              if TooEarly(cfg, ops, i, ops[i].session, call) then []
              else MissingPrerequisites(cfg.prerequisites, Views(cfg, ops[..i])(ops[i].session).recorded, call)
    ensures ResultAt(cfg, ops, i).missingPrerequisites != [] <==> ViolatesAt(cfg, ops, i, ops[i].session)
  {
    UnreadyJudged(cfg, ops, i, c);
    assert forall d :: FirstUnready(cfg, ops, i, d) ==> d == c;
  }

  // ---- Fatal ----

  lemma ViolatesExact(cfg: Config, ops: seq<Op>, i: nat)
    requires i < |ops| && ops[i].Check?
    ensures Violates(cfg, Views(cfg, ops[..i])(ops[i].session), ops[i].calls) <==>
            ViolatesAt(cfg, ops, i, ops[i].session)
  {
    var c := FindUnready(cfg, ops, i, |ops[i].calls|);
    if c < |ops[i].calls| {
      UnreadyJudged(cfg, ops, i, c);
      assert forall d :: FirstUnready(cfg, ops, i, d) ==> d == c;
    } else {
      ReadyJudged(cfg, ops, i);
      assert forall d :: !FirstUnready(cfg, ops, i, d);
    }
  }

  /** The count of a session is the number of its violating checks. */
  lemma {:induction false} ViolationsCounted(cfg: Config, ops: seq<Op>, session: string)
    ensures Views(cfg, ops)(session).violations == Violations(cfg, ops, session)
  {
    if ops != [] {
      ViolationsCounted(cfg, ops[..|ops| - 1], session);
      if ops[|ops| - 1].Check? { ViolatesExact(cfg, ops, |ops| - 1); }
    }
  }

  /** After every run the state of a session is its history: its successes in order, their
      tools, and the number of its violating checks. */
  lemma ViewIsHistory(cfg: Config, ops: seq<Op>, session: string)
    ensures var v := Views(cfg, ops)(session);
            && v.recorded == Successes(ops, session)
            && (forall t :: t in v.completed <==> exists i :: 0 <= i < |v.recorded| && v.recorded[i].tool == t)
            && v.violations == Violations(cfg, ops, session)
  {
    RecordedIsHistory(cfg, ops, session);
    ViolationsCounted(cfg, ops, session);
  }

  /** A check is fatal exactly when it violates prerequisites and, with it, the session's
      violating checks exceed the limit; the result carries their number. */
  lemma FatalExactly(cfg: Config, ops: seq<Op>, i: nat)
    requires i < |ops| && ops[i].Check?
    ensures ResultAt(cfg, ops, i).outcome.Fatal? <==>
            && ViolatesAt(cfg, ops, i, ops[i].session)
            && Violations(cfg, ops[..i + 1], ops[i].session) > cfg.maxPrereqViolations
    ensures ResultAt(cfg, ops, i).prereqViolations ==
            if ViolatesAt(cfg, ops, i, ops[i].session) then Violations(cfg, ops[..i + 1], ops[i].session) else 0
  {
    ViolatesExact(cfg, ops, i);
    ViolationsCounted(cfg, ops[..i + 1], ops[i].session);
    assert ops[..i + 1][..i] == ops[..i];
  }

  // ---- Sessions do not interfere ----

  function Only(ops: seq<Op>, session: string): seq<Op> {
    if ops == [] then []
    else
      var rest, op := Only(ops[..|ops| - 1], session), ops[|ops| - 1];
      if op.session == session then rest + [op] else rest
  }

  /** Whatever other sessions do, a session's view, and so every result it gets, is the one
      it would have alone. */
  lemma {:induction false} SessionsIsolated(cfg: Config, ops: seq<Op>, session: string)
    ensures Views(cfg, ops)(session) == Views(cfg, Only(ops, session))(session)
  {
    if ops != [] {
      var before, op := ops[..|ops| - 1], ops[|ops| - 1];
      SessionsIsolated(cfg, before, session);
      var rest := Only(before, session);
      assert (rest + [op])[..|rest|] == rest;
    }
  }

  // ---- Prerequisite cycles ----

  /** Only calls that a check of the session let execute are recorded. */
  ghost predicate Disciplined(cfg: Config, ops: seq<Op>) {
    forall i :: 0 <= i < |ops| && ops[i].Record? && !ops[i].failed ==> Permitted(cfg, ops, i)
  }

  ghost predicate Permitted(cfg: Config, ops: seq<Op>, i: nat)
    requires i < |ops| && ops[i].Record?
  {
    exists j :: 0 <= j < i && ops[j].Check? && ops[j].session == ops[i].session
                && ResultAt(cfg, ops, j).outcome.Execute? && ops[i].call in ops[j].calls
  }

  /** A rule says that the first tool requires the second. */
  ghost predicate Requires(cfg: Config, tool: string, other: string) {
    exists k :: 0 <= k < |cfg.prerequisites|
                && cfg.prerequisites[k].tool == tool && cfg.prerequisites[k].requires_ == other
  }

  /** Every tool of the set requires a tool of the set. */
  ghost predicate Circular(cfg: Config, tools: set<string>) {
    forall t :: CircularAt(cfg, tools, t)
  }

  ghost predicate CircularAt(cfg: Config, tools: set<string>, t: string) {
    t in tools ==> exists u :: u in tools && Requires(cfg, t, u)
  }

  /** A recorded call has every tool it requires recorded before it in its session. */
  lemma RequiredFirst(cfg: Config, ops: seq<Op>, i: nat, other: string) returns (m: nat)
    requires Disciplined(cfg, ops) && i < |ops| && ops[i].Record? && !ops[i].failed
    requires Requires(cfg, ops[i].call.tool, other)
    ensures m < i && RecordedBefore(ops, i, ops[i].session, m) && ops[m].call.tool == other
  {
    var call := ops[i].call;
    assert Permitted(cfg, ops, i);
    var j :| 0 <= j < i && ops[j].Check? && ops[j].session == ops[i].session
             && ResultAt(cfg, ops, j).outcome.Execute? && call in ops[j].calls;
    ExecuteExactly(cfg, ops, j);
    var n :| 0 <= n < |ops[j].calls| && ops[j].calls[n] == call;
    assert CallReady(cfg, ops, j, ops[j].session, ops[j].calls[n]);
    var k :| 0 <= k < |cfg.prerequisites|
      && cfg.prerequisites[k].tool == call.tool && cfg.prerequisites[k].requires_ == other;
    assert !Unmet(cfg, ops, j, ops[j].session, call, k);
    m :| RecordedBefore(ops, j, ops[j].session, m) && ops[m].call.tool == cfg.prerequisites[k].requires_;
  }

  ghost predicate RecordedTool(ops: seq<Op>, i: int, tool: string) {
    0 <= i < |ops| && ops[i].Record? && !ops[i].failed && ops[i].call.tool == tool
  }

  /** Whatever is recorded has what it requires recorded before. */
  ghost predicate Grounded(cfg: Config, ops: seq<Op>) {
    forall i: int, tool, other :: GroundedAt(cfg, ops, i, tool, other)
  }

  ghost predicate GroundedAt(cfg: Config, ops: seq<Op>, i: int, tool: string, other: string) {
    RecordedTool(ops, i, tool) && Requires(cfg, tool, other) ==> exists m :: m < i && RecordedTool(ops, m, other)
  }

  lemma DisciplinedIsGrounded(cfg: Config, ops: seq<Op>)
    requires Disciplined(cfg, ops)
    ensures Grounded(cfg, ops)
  {
    forall i: int, tool, other ensures GroundedAt(cfg, ops, i, tool, other) {
      if RecordedTool(ops, i, tool) && Requires(cfg, tool, other) {
        var m := RequiredFirst(cfg, ops, i, other);
        assert RecordedTool(ops, m, other);
      }
    }
  }

  lemma {:induction false} GroundedAvoids(cfg: Config, ops: seq<Op>, tools: set<string>, i: int, tool: string)
    requires Grounded(cfg, ops) && Circular(cfg, tools) && RecordedTool(ops, i, tool)
    ensures tool !in tools
    decreases i
  {
    if tool in tools {
      assert CircularAt(cfg, tools, tool);
      var other :| other in tools && Requires(cfg, tool, other);
      assert GroundedAt(cfg, ops, i, tool, other);
      var m :| m < i && RecordedTool(ops, m, other);
      GroundedAvoids(cfg, ops, tools, m, other);
    }
  }

  /** If only executed calls are recorded, no tool of a circular set is ever recorded. */
  lemma CircularNeverRecorded(cfg: Config, ops: seq<Op>, tools: set<string>, i: nat)
    requires Disciplined(cfg, ops) && Circular(cfg, tools) && i < |ops| && ops[i].Record? && !ops[i].failed
    ensures ops[i].call.tool !in tools
  {
    DisciplinedIsGrounded(cfg, ops);
    GroundedAvoids(cfg, ops, tools, i, ops[i].call.tool);
  }

  function NextIn(cycle: seq<string>, i: nat): string
    requires i < |cycle|
  {
    if i + 1 < |cycle| then cycle[i + 1] else cycle[0]
  }

  /** A cycle of rules: each tool requires the next and the last the first. */
  ghost predicate Cycle(cfg: Config, cycle: seq<string>) {
    cycle != [] && forall i :: 0 <= i < |cycle| ==> Requires(cfg, cycle[i], NextIn(cycle, i))
  }

  lemma CycleNeverRecorded(cfg: Config, ops: seq<Op>, cycle: seq<string>, i: nat)
    requires Disciplined(cfg, ops) && Cycle(cfg, cycle) && i < |ops| && ops[i].Record? && !ops[i].failed
    ensures ops[i].call.tool !in cycle
  {
    var tools := set t | t in cycle;
    forall t ensures CircularAt(cfg, tools, t) {
      if t in tools {
        var n :| 0 <= n < |cycle| && cycle[n] == t;
        assert Requires(cfg, cycle[n], NextIn(cycle, n)) && NextIn(cycle, n) in tools;
      }
    }
    CircularNeverRecorded(cfg, ops, tools, i);
  }
}
