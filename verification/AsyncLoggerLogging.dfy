/** What becomes of each call of Log, over every run: which are dropped, which are accepted,
    and with which record. */
module AsyncLoggerLogging {
  import opened Options
  import opened AsyncLogger

  // ---- Whose record ----

  /** The record of the caller's last call of Log. */
  function LastLogged(steps: seq<Step>, t: nat): Option<AuditRecord> {
    if steps == [] then None
    else
      var last := steps[|steps| - 1];
      if last.LogCheck? && last.caller == t then Some(last.record) else LastLogged(steps[..|steps| - 1], t)
  }

  /** A caller that got past the check of Log keeps its record until the send. */
  lemma StillChecked(cfg: Config, s: State, step: Step, t: nat)
    requires Enabled(s, step) && At(Apply(cfg, s, step), t).LogChecked?
    ensures At(Apply(cfg, s, step), t) == At(s, t) || step == LogCheck(t, At(Apply(cfg, s, step), t).record)
    ensures step.LogCheck? && step.caller == t ==> At(Apply(cfg, s, step), t).record == step.record
  {
    CheckedBefore(cfg, s, step, t);
    if OfDrain(step) { StillCheckedInDrain(cfg, s, step, t); }
    else if OfSync(step) { StillCheckedInSync(cfg, s, step, t); }
    else if OfStop(step) { }
    else if OfLog(step) { }
  }

  lemma StillCheckedInDrain(cfg: Config, s: State, step: Step, t: nat)
    requires Enabled(s, step) && OfDrain(step) && At(Apply(cfg, s, step), t).LogChecked?
    ensures At(Apply(cfg, s, step), t) == At(s, t)
  {
    if step.DrainReceive? { }
    else if step.DrainEmpty? { }
    else if step.DrainFlushRequest? { }
    else if step.DrainWrite? { }
    else if step.DrainAck? { }
  }

  lemma StillCheckedInSync(cfg: Config, s: State, step: Step, t: nat)
    requires Enabled(s, step) && OfSync(step) && At(Apply(cfg, s, step), t).LogChecked?
    ensures At(Apply(cfg, s, step), t) == At(s, t)
  {
    if step.SyncReceive? { }
    else if step.SyncEmpty? { }
    else if step.SyncWrite? { }
  }

  lemma {:induction false} CheckedRecord(cfg: Config, steps: seq<Step>, t: nat)
    requires Run(cfg, steps).Reached? && At(Run(cfg, steps).state, t).LogChecked?
    ensures LastLogged(steps, t) == Some(At(Run(cfg, steps).state, t).record)
  {
    if steps != [] {
      var n := |steps| - 1;
      StillChecked(cfg, Run(cfg, steps[..n]).state, steps[n], t);
      if !(steps[n].LogCheck? && steps[n].caller == t) { CheckedRecord(cfg, steps[..n], t); }
    }
  }

  // ---- Accepted records ----

  /** The last step is a send of Log that finds the buffer open with room in it. */
  ghost predicate FindsRoom(cfg: Config, s: State, step: Step) {
    step.LogSend? && !s.closed && |s.buffer| < cfg.size
  }

  /** The records of the sends that found room, in order. */
  ghost function Admitted(cfg: Config, steps: seq<Step>): seq<Option<AuditRecord>> {
    if steps == [] then []
    else
      var n := |steps| - 1;
      var rest, before := Admitted(cfg, steps[..n]), Run(cfg, steps[..n]);
      if before.Reached? && FindsRoom(cfg, before.state, steps[n])
      then rest + [LastLogged(steps[..n], steps[n].caller)] else rest
  }

  lemma AcceptedStep(cfg: Config, s: State, step: Step)
    requires Enabled(s, step)
    ensures var s' := Apply(cfg, s, step);
            if FindsRoom(cfg, s, step)
            then s'.accepted == s.accepted + [At(s, step.caller).record] && s'.buffer == s.buffer + [|s.accepted|]
            else s'.accepted == s.accepted
  {
    if OfDrain(step) { AcceptedInDrain(cfg, s, step); }
    else if OfSync(step) { AcceptedInSync(cfg, s, step); }
    else if OfStop(step) { AcceptedInStop(cfg, s, step); }
  }

  lemma AcceptedInStop(cfg: Config, s: State, step: Step)
    requires Enabled(s, step) && OfStop(step)
    ensures Apply(cfg, s, step).accepted == s.accepted
  {
    if step.StopCheck? { }
    else if step.StopClose? { }
    else if step.StopSeeDone? { }
    else if step.StopCloseDone? { }
  }

  lemma AcceptedInDrain(cfg: Config, s: State, step: Step)
    requires Enabled(s, step) && OfDrain(step)
    ensures Apply(cfg, s, step).accepted == s.accepted
  {
    if step.DrainReceive? { }
    else if step.DrainEmpty? { }
    else if step.DrainFlushRequest? { }
    else if step.DrainWrite? { }
    else if step.DrainAck? { }
  }

  lemma AcceptedInSync(cfg: Config, s: State, step: Step)
    requires Enabled(s, step) && OfSync(step)
    ensures Apply(cfg, s, step).accepted == s.accepted
  {
    if step.SyncReceive? { }
    else if step.SyncEmpty? { }
    else if step.SyncWrite? { }
  }

  /** Over every run the accepted records are those of the sends that found the buffer open
      with room in it, one after the other: no other call is accepted and none of these is
      dropped. */
  lemma {:induction false} AcceptedExactly(cfg: Config, steps: seq<Step>)
    requires Run(cfg, steps).Reached?
    ensures var s := Run(cfg, steps).state;
            && |s.accepted| == |Admitted(cfg, steps)|
            && forall k :: 0 <= k < |s.accepted| ==> Admitted(cfg, steps)[k] == Some(s.accepted[k])
  {
    if steps != [] {
      var n := |steps| - 1;
      var s := Run(cfg, steps[..n]).state;
      AcceptedExactly(cfg, steps[..n]);
      AcceptedStep(cfg, s, steps[n]);
      if FindsRoom(cfg, s, steps[n]) { CheckedRecord(cfg, steps[..n], steps[n].caller); }
    }
  }

  // ---- Dropped calls ----

  /** The step decides that a call of Log is dropped: its check finds the logger stopped, or
      its send finds the buffer full. */
  ghost predicate Refuses(cfg: Config, s: State, step: Step) {
    (step.LogCheck? && s.stopped) || (step.LogSend? && !s.closed && |s.buffer| == cfg.size)
  }

  ghost function Refusals(cfg: Config, steps: seq<Step>): nat {
    if steps == [] then 0
    else
      var n := |steps| - 1;
      var before := Run(cfg, steps[..n]);
      Refusals(cfg, steps[..n]) + if before.Reached? && Refuses(cfg, before.state, steps[n]) then 1 else 0
  }

  /** The callers that are about to count a drop. */
  function Dropping(pcs: map<nat, Pc>): set<nat> {
    set t | t in pcs && pcs[t].LogDropping?
  }

  lemma DroppingGoto(pcs: map<nat, Pc>, t: nat, pc: Pc)
    ensures |Dropping(pcs[t := pc])| + One(t in pcs && pcs[t].LogDropping?) == |Dropping(pcs)| + One(pc.LogDropping?)
  {
    if pc.LogDropping? {
      assert Dropping(pcs[t := pc]) == Dropping(pcs) + {t};
    } else {
      assert Dropping(pcs[t := pc]) == Dropping(pcs) - {t};
    }
  }

  ghost predicate DropsCounted(s: State, n: int) {
    s.dropped + |Dropping(s.pcs)| == n
  }

  lemma LogStepDrops(cfg: Config, s: State, step: Step, n: int)
    requires Enabled(s, step) && OfLog(step) && |s.buffer| <= cfg.size && DropsCounted(s, n)
    ensures DropsCounted(Apply(cfg, s, step), n + if Refuses(cfg, s, step) then 1 else 0)
  {
    DroppingGoto(s.pcs, step.caller, At(Apply(cfg, s, step), step.caller));
  }

  lemma SyncStepDrops(cfg: Config, s: State, step: Step, n: int)
    requires Enabled(s, step) && OfSync(step) && DropsCounted(s, n)
    ensures DropsCounted(Apply(cfg, s, step), n)
  {
    DroppingGoto(s.pcs, step.caller, At(Apply(cfg, s, step), step.caller));
  }

  lemma StopStepDrops(cfg: Config, s: State, step: Step, n: int)
    requires Enabled(s, step) && OfStop(step) && DropsCounted(s, n)
    ensures DropsCounted(Apply(cfg, s, step), n)
  {
    DroppingGoto(s.pcs, step.caller, At(Apply(cfg, s, step), step.caller));
  }

  lemma CallerStepDrops(cfg: Config, s: State, step: Step, n: int)
    requires Enabled(s, step) && !OfDrain(step) && !OfSync(step) && !OfStop(step) && !OfLog(step) && !step.Start?
    requires DropsCounted(s, n)
    ensures DropsCounted(Apply(cfg, s, step), n)
  {
    DroppingGoto(s.pcs, step.caller, At(Apply(cfg, s, step), step.caller));
  }

  lemma DrainStepDrops(cfg: Config, s: State, step: Step, n: int)
    requires Enabled(s, step) && OfDrain(step) && DropsCounted(s, n)
    requires Acking(s.drain) ==> At(s, s.drain.flusher).FlushAwaitAck?
    ensures DropsCounted(Apply(cfg, s, step), n)
  {
    var t := if step.DrainAck? then s.drain.flusher else if step.DrainFlushRequest? then step.flusher else 0;
    DroppingGoto(s.pcs, t, At(Apply(cfg, s, step), t));
  }

  lemma StepDrops(cfg: Config, s: State, step: Step, n: int)
    requires Inv(cfg, s) && Enabled(s, step) && DropsCounted(s, n)
    ensures DropsCounted(Apply(cfg, s, step), n + if Refuses(cfg, s, step) then 1 else 0)
  {
    assert Acking(s.drain) ==> CallerOk(s, s.drain.flusher);
    if OfDrain(step) { DrainStepDrops(cfg, s, step, n); }
    else if OfLog(step) { LogStepDrops(cfg, s, step, n); }
    else if OfSync(step) { SyncStepDrops(cfg, s, step, n); }
    else if OfStop(step) { StopStepDrops(cfg, s, step, n); }
    else if !step.Start? { CallerStepDrops(cfg, s, step, n); }
  }

  /** Over every run the drop counter, with the callers about to count one, is the number of
      calls of Log whose check found the logger stopped or whose send found the buffer full. */
  lemma {:induction false} DroppedExactly(cfg: Config, steps: seq<Step>)
    requires ValidConfig(cfg) && Run(cfg, steps).Reached?
    ensures var s := Run(cfg, steps).state; s.dropped + |Dropping(s.pcs)| == Refusals(cfg, steps)
  {
    if steps == [] {
      assert Dropping(Initial.pcs) == {};
    } else {
      var n := |steps| - 1;
      DroppedExactly(cfg, steps[..n]);
      RunInv(cfg, steps[..n]);
      StepDrops(cfg, Run(cfg, steps[..n]).state, steps[n], Refusals(cfg, steps[..n]));
    }
  }

  // ---- One call ----

  /** A call of Log that begins is dropped at once exactly when the logger is stopped. */
  lemma CheckDecides(cfg: Config, steps: seq<Step>, t: nat, r: AuditRecord)
    requires Run(cfg, steps).Reached? && Enabled(Run(cfg, steps).state, LogCheck(t, r))
    ensures var s := Run(cfg, steps).state;
            var s' := Apply(cfg, s, LogCheck(t, r));
            && (At(s', t).LogDropping? <==> s.stopped) && (At(s', t).LogChecked? <==> !s.stopped)
            && s'.buffer == s.buffer && s'.accepted == s.accepted && s'.dropped == s.dropped
  {
  }

  /** And one that sends, by the buffer alone: it panics exactly when the buffer is closed, is
      dropped exactly when the buffer is full, and otherwise leaves its own record last. */
  lemma SendDecides(cfg: Config, steps: seq<Step>, t: nat)
    requires ValidConfig(cfg) && Run(cfg, steps).Reached? && Enabled(Run(cfg, steps).state, LogSend(t))
    ensures var s := Run(cfg, steps).state;
            var s' := Apply(cfg, s, LogSend(t));
            && (s'.panicked <==> s.closed)
            && (At(s', t).LogDropping? <==> !s.closed && |s.buffer| == cfg.size)
            && (At(s', t).Idle? <==> !s.closed && |s.buffer| < cfg.size)
            && (At(s', t).Idle? ==>
                  && |s'.accepted| == |s.accepted| + 1 && s'.accepted[..|s.accepted|] == s.accepted
                  && Some(s'.accepted[|s.accepted|]) == LastLogged(steps, t)
                  && s'.buffer == s.buffer + [|s.accepted|])
            && (!At(s', t).Idle? ==> s'.accepted == s.accepted && s'.buffer == s.buffer)
  {
    RunInv(cfg, steps);
    CheckedRecord(cfg, steps, t);
    AcceptedStep(cfg, Run(cfg, steps).state, LogSend(t));
  }
}
