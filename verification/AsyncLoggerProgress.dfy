/** Calls of the asynchronous logger complete: as long as some caller is inside a call, a
    step that is neither a new call nor a tick is enabled, and only boundedly many such
    steps can follow one another. */
module AsyncLoggerProgress {
  import opened AsyncLogger

  /** Every step but new calls, the ticker and the way out of a finished call. */
  predicate Internal(step: Step) {
    !step.Start? && !step.LogCheck? && !step.FlushCheck? && !step.StopCheck? && !step.DrainTick? && !step.Return?
  }

  predicate Finished(pc: Pc) {
    pc.Idle? || pc.FlushReturned? || pc.StopReturned?
  }

  /** What the goroutine can do next, unless it waits at its select. */
  function DrainMove(s: State): Step {
    if s.writing then (if s.batch != [] then DrainWrite else DrainWritten)
    else if Acking(s.drain) then DrainAck
    else if s.drain.Exiting? then DrainExit
    else if s.buffer != [] then DrainReceive
    else DrainEmpty
  }

  lemma DrainNeverStuck(cfg: Config, s: State)
    requires Inv(cfg, s) && !s.panicked && s.started && !s.done
    ensures Enabled(s, DrainMove(s)) || (s.drain.Select? && !s.writing && s.buffer == [] && !s.closed)
  {
  }

  /** The step that brings an unfinished call forward. */
  function NextFor(s: State, t: nat): Step {
    match At(s, t)
    case LogChecked(_) => LogSend(t)
    case LogDropping => LogDrop(t)
    case FlushWaiting(_) =>
      if s.done then FlushSeeDone(t)
      else if s.drain.Select? && !s.writing then DrainFlushRequest(t)
      else DrainMove(s)
    case FlushAwaitAck(_) => DrainMove(s)
    case SyncReading(_, _) => if s.buffer != [] then SyncReceive(t) else SyncEmpty(t)
    case SyncWriting(batch, _) => if batch != [] then SyncWrite(t) else SyncReturn(t)
    case StopClosing(_) => StopClose(t)
    case StopWaiting => if s.done then StopSeeDone(t) else DrainMove(s)
    case StopClosingDone => StopCloseDone(t)
    case _ => Return(t)
  }

  /** No caller is ever left waiting for something that cannot happen. */
  lemma NeverStuck(cfg: Config, s: State, t: nat)
    requires Inv(cfg, s) && !s.panicked && !Finished(At(s, t))
    ensures Enabled(s, NextFor(s, t)) && Internal(NextFor(s, t))
  {
    assert CallerOk(s, t);
    if s.started && !s.done { DrainNeverStuck(cfg, s); }
  }

  // ---- A bound on internal steps ----

  function Weight(pc: Pc): nat {
    match pc
    case LogChecked(_) => 7
    case LogDropping => 1
    case FlushWaiting(_) => 10
    case FlushAwaitAck(_) => 1
    case SyncReading(batch, _) => 4 + 2 * |batch|
    case SyncWriting(batch, _) => 3 + 2 * |batch|
    case StopClosing(_) => 8
    case StopWaiting => 1
    case StopClosingDone => 2
    case _ => 0
  }

  function DrainWeight(d: DrainPc): nat {
    match d
    case Off => 0
    case Select => 8
    case Range => 5
    case Sweep(_) => 13
    case Ack(_) => 10
    case AckExit(_) => 4
    case Exiting => 2
    case Exited => 0
  }

  ghost function Total(pcs: map<nat, Pc>): nat
    decreases |pcs|
  {
    if pcs == map[] then 0
    else
      var t :| t in pcs;
      Weight(pcs[t]) + Total(pcs - {t})
  }

  lemma {:induction false} TotalWithout(pcs: map<nat, Pc>, t: nat)
    requires t in pcs
    ensures Total(pcs) == Weight(pcs[t]) + Total(pcs - {t})
    decreases |pcs|
  {
    var u :| u in pcs && Total(pcs) == Weight(pcs[u]) + Total(pcs - {u});
    if u != t {
      TotalWithout(pcs - {u}, t);
      TotalWithout(pcs - {t}, u);
      assert pcs - {u} - {t} == pcs - {t} - {u};
    }
  }

  lemma TotalUpdate(pcs: map<nat, Pc>, t: nat, pc: Pc)
    ensures Total(pcs[t := pc]) + (if t in pcs then Weight(pcs[t]) else 0) == Total(pcs) + Weight(pc)
  {
    var pcs' := pcs[t := pc];
    TotalWithout(pcs', t);
    if t in pcs {
      TotalWithout(pcs, t);
      assert pcs' - {t} == pcs - {t};
    } else {
      assert pcs' - {t} == pcs;
    }
  }

  lemma TotalGoto(s: State, t: nat, pc: Pc)
    ensures Total(Goto(s, t, pc).pcs) + Weight(At(s, t)) == Total(s.pcs) + Weight(pc)
  {
    TotalUpdate(s.pcs, t, pc);
  }

  ghost function Bound(s: State): nat {
    5 * |s.buffer| + 2 * |s.batch| + (if s.writing then 1 else 0) + DrainWeight(s.drain)
    + Total(s.pcs) + (if s.panicked then 0 else 1)
  }

  lemma DrainStepDescends(cfg: Config, s: State, step: Step)
    requires Inv(cfg, s) && Enabled(s, step) && Internal(step) && OfDrain(step)
    ensures Bound(Apply(cfg, s, step)) < Bound(s)
  {
    var s' := Apply(cfg, s, step);
    if step.DrainFlushRequest? {
      TotalGoto(s, step.flusher, At(s', step.flusher));
    } else if step.DrainAck? {
      assert CallerOk(s, s.drain.flusher);
      TotalGoto(s, s.drain.flusher, At(s', s.drain.flusher));
    }
  }

  lemma SyncStepDescends(cfg: Config, s: State, step: Step)
    requires Enabled(s, step) && OfSync(step)
    ensures Bound(Apply(cfg, s, step)) < Bound(s)
  {
    TotalGoto(s, step.caller, At(Apply(cfg, s, step), step.caller));
  }

  lemma LogStepDescends(cfg: Config, s: State, step: Step)
    requires Enabled(s, step) && (step.LogSend? || step.LogDrop?)
    ensures Bound(Apply(cfg, s, step)) < Bound(s)
  {
    TotalGoto(s, step.caller, At(Apply(cfg, s, step), step.caller));
  }

  lemma StopStepDescends(cfg: Config, s: State, step: Step)
    requires Enabled(s, step)
    requires step.FlushSeeDone? || step.StopClose? || step.StopSeeDone? || step.StopCloseDone?
    ensures Bound(Apply(cfg, s, step)) < Bound(s)
  {
    TotalGoto(s, step.caller, At(Apply(cfg, s, step), step.caller));
  }

  lemma {:induction false} PlayIsBounded(cfg: Config, s: State, more: seq<Step>)
    requires ValidConfig(cfg) && Inv(cfg, s) && Play(cfg, s, more).Reached?
    requires forall i :: 0 <= i < |more| ==> Internal(more[i])
    ensures |more| <= Bound(s) && Inv(cfg, Play(cfg, s, more).state)
    decreases |more|
  {
    if more != [] {
      if OfDrain(more[0]) { DrainStepDescends(cfg, s, more[0]); }
      else if OfSync(more[0]) { SyncStepDescends(cfg, s, more[0]); }
      else if more[0].LogSend? || more[0].LogDrop? { LogStepDescends(cfg, s, more[0]); }
      else { StopStepDescends(cfg, s, more[0]); }
      StepKeepsInv(cfg, s, more[0]);
      PlayIsBounded(cfg, Apply(cfg, s, more[0]), more[1..]);
    }
  }

  /** From every reachable state, when no new call and no tick intervenes, at most Bound
      steps follow, and when none is enabled any more every call has finished, or the
      logger has crashed. So no Flush and no Stop blocks for ever. */
  lemma CallsComplete(cfg: Config, steps: seq<Step>, more: seq<Step>)
    requires ValidConfig(cfg) && Run(cfg, steps).Reached?
    requires Play(cfg, Run(cfg, steps).state, more).Reached?
    requires forall i :: 0 <= i < |more| ==> Internal(more[i])
    ensures |more| <= Bound(Run(cfg, steps).state)
    ensures var s := Play(cfg, Run(cfg, steps).state, more).state;
            (forall step :: Internal(step) ==> !Enabled(s, step)) ==>
              s.panicked || forall t: nat :: Finished(At(s, t))
  {
    RunInv(cfg, steps);
    PlayIsBounded(cfg, Run(cfg, steps).state, more);
    var s := Play(cfg, Run(cfg, steps).state, more).state;
    if !s.panicked && (forall step :: Internal(step) ==> !Enabled(s, step)) {
      forall t: nat ensures Finished(At(s, t)) {
        if !Finished(At(s, t)) { NeverStuck(cfg, s, t); }
      }
    }
  }
}
