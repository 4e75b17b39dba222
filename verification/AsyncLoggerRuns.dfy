/** Particular runs of the asynchronous logger: how a Flush or a Stop can return too early,
    and the one way to crash. */
module AsyncLoggerRuns {
  import opened AsyncLogger
  import opened AsyncLoggerDelivery

  lemma RunExtends(cfg: Config, steps: seq<Step>, step: Step)
    requires Run(cfg, steps).Reached? && Enabled(Run(cfg, steps).state, step)
    ensures Run(cfg, steps + [step]) == Reached(Apply(cfg, Run(cfg, steps).state, step))
  {
    assert (steps + [step])[..|steps|] == steps;
  }

  /** One more step of a run that is being written down. */
  lemma Do(cfg: Config, steps: seq<Step>, s: State, step: Step) returns (steps': seq<Step>, s': State)
    requires Run(cfg, steps) == Reached(s) && Enabled(s, step)
    ensures s' == Apply(cfg, s, step) && Run(cfg, steps') == Reached(s')
  {
    RunExtends(cfg, steps, step);
    steps', s' := steps + [step], Apply(cfg, s, step);
  }

  /** A started logger that accepted one record. */
  lemma OneRecordInBuffer(cfg: Config, r: AuditRecord) returns (steps: seq<Step>, s: State)
    requires ValidConfig(cfg)
    ensures Run(cfg, steps) == Reached(s)
    ensures s == Initial.(started := true, drain := Select, buffer := [0], accepted := [r], place := [InBuffer],
                          calls := 1, pcs := map[0 := Idle])
  {
    steps, s := Do(cfg, [], Initial, Start);
    steps, s := Do(cfg, steps, s, LogCheck(0, r));
    steps, s := Do(cfg, steps, s, LogSend(0));
    assert s.buffer == [0] && s.place == [InBuffer] && s.pcs == map[0 := Idle];
  }

  /** A started logger that accepted one record, now in the goroutine's batch. */
  lemma OneRecordInBatch(cfg: Config, r: AuditRecord) returns (steps: seq<Step>, s: State)
    requires ValidConfig(cfg) && cfg.batchSize > 1
    ensures Run(cfg, steps) == Reached(s)
    ensures s == Initial.(started := true, drain := Select, batch := [0], accepted := [r], place := [InDrain],
                          calls := 1, pcs := map[0 := Idle])
  {
    steps, s := OneRecordInBuffer(cfg, r);
    steps, s := Do(cfg, steps, s, DrainReceive);
    assert s.place == [InDrain];
  }

  /** Flush's own promise fails after Stop has begun: a Flush that sees `stopped` returns
      while the goroutine still holds a record accepted before the call. */
  lemma IdleFlushMayReturnEarly(cfg: Config, r: AuditRecord) returns (steps: seq<Step>)
    requires ValidConfig(cfg) && cfg.batchSize > 1
    ensures Run(cfg, steps).Reached?
    ensures var s := Run(cfg, steps).state; At(s, 2) == FlushReturned(1, ViaIdle) && 0 !in s.shipped
  {
    var s;
    steps, s := OneRecordInBatch(cfg, r);
    steps, s := Do(cfg, steps, s, StopCheck(1));
    steps, s := Do(cfg, steps, s, FlushCheck(2));
    steps, s := Do(cfg, steps, s, SyncEmpty(2));
    steps, s := Do(cfg, steps, s, SyncReturn(2));
  }

  /** Nor does every Stop wait: one that comes while another is under way returns at once,
      with an accepted record still in the goroutine's batch. */
  lemma SecondStopMayReturnEarly(cfg: Config, r: AuditRecord) returns (steps: seq<Step>)
    requires ValidConfig(cfg) && cfg.batchSize > 1
    ensures Run(cfg, steps).Reached?
    ensures var s := Run(cfg, steps).state;
            At(s, 2) == StopReturned(false) && s.batch == [0] && 0 !in s.shipped && !s.done
  {
    var s;
    steps, s := OneRecordInBatch(cfg, r);
    steps, s := Do(cfg, steps, s, StopCheck(1));
    steps, s := Do(cfg, steps, s, StopCheck(2));
  }

  /** Even with nothing left to write a second Stop does not wait for the goroutine. */
  lemma SecondStopMayNotWait(cfg: Config) returns (steps: seq<Step>)
    ensures Run(cfg, steps).Reached?
    ensures var s := Run(cfg, steps).state;
            && At(s, 2) == StopReturned(false) && s.drain == Select && !s.done
            && s.closed && s.buffer == [] && s.batch == []
  {
    var s;
    steps, s := Do(cfg, [], Initial, Start);
    steps, s := Do(cfg, steps, s, StopCheck(1));
    steps, s := Do(cfg, steps, s, StopClose(1));
    steps, s := Do(cfg, steps, s, StopCheck(2));
  }

  /** A stopped logger whose one record was taken by a Flush after the check of Stop. */
  lemma TakenUnderStop(cfg: Config, r: AuditRecord) returns (steps: seq<Step>, s: State)
    requires ValidConfig(cfg)
    ensures Run(cfg, steps) == Reached(s)
    ensures s.started && s.closed && !s.done && !s.panicked && s.drain == Select && !s.writing
    ensures s.buffer == [] && s.batch == [] && s.shipped == [] && |s.accepted| == 1 && At(s, 1) == StopWaiting
  {
    steps, s := OneRecordInBuffer(cfg, r);
    steps, s := Do(cfg, steps, s, StopCheck(1));
    steps, s := Do(cfg, steps, s, FlushCheck(2));
    steps, s := Do(cfg, steps, s, SyncReceive(2));
    steps, s := Do(cfg, steps, s, StopClose(1));
  }

  /** Nor does the closing Stop flush everything: the record can be with that Flush when the
      goroutine is gone and Stop returns. */
  lemma ClosingStopMayReturnEarly(cfg: Config, r: AuditRecord) returns (steps: seq<Step>)
    requires ValidConfig(cfg)
    ensures Run(cfg, steps).Reached?
    ensures var s := Run(cfg, steps).state; At(s, 1) == StopReturned(true) && |s.accepted| == 1 && s.shipped == []
  {
    var s;
    steps, s := TakenUnderStop(cfg, r);
    steps, s := Do(cfg, steps, s, DrainEmpty);
    steps, s := Do(cfg, steps, s, DrainWritten);
    steps, s := Do(cfg, steps, s, DrainEmpty);
    steps, s := Do(cfg, steps, s, DrainWritten);
    steps, s := Do(cfg, steps, s, DrainExit);
    steps, s := Do(cfg, steps, s, StopSeeDone(1));
  }

  /** A logger whose one accepted record is held by a Flush that began before Start. */
  lemma OneRecordHeld(cfg: Config, r: AuditRecord) returns (steps: seq<Step>, s: State)
    requires ValidConfig(cfg)
    ensures Run(cfg, steps) == Reached(s)
    ensures s.started && !s.stopped && !s.closed && !s.panicked && s.drain == Select && !s.writing
    ensures s.buffer == [] && s.batch == [] && s.shipped == [] && |s.accepted| == 1 && At(s, 2) == Idle
  {
    steps, s := Do(cfg, [], Initial, LogCheck(0, r));
    steps, s := Do(cfg, steps, s, LogSend(0));
    steps, s := Do(cfg, steps, s, FlushCheck(1));
    steps, s := Do(cfg, steps, s, SyncReceive(1));
    steps, s := Do(cfg, steps, s, Start);
  }

  /** Nor does the ack path keep it when a Flush that began before Start holds the record. */
  lemma AckedFlushMayReturnEarly(cfg: Config, r: AuditRecord) returns (steps: seq<Step>)
    requires ValidConfig(cfg)
    ensures Run(cfg, steps).Reached?
    ensures var s := Run(cfg, steps).state; At(s, 2) == FlushReturned(1, ViaAck) && 0 !in s.shipped
  {
    var s;
    steps, s := OneRecordHeld(cfg, r);
    steps, s := Do(cfg, steps, s, FlushCheck(2));
    steps, s := Do(cfg, steps, s, DrainFlushRequest(2));
    steps, s := Do(cfg, steps, s, DrainEmpty);
    steps, s := Do(cfg, steps, s, DrainWritten);
    steps, s := Do(cfg, steps, s, DrainAck);
  }

  // ---- The one way to crash ----

  lemma PanicStep(cfg: Config, s: State, step: Step)
    requires Inv(cfg, s) && Enabled(s, step) && Apply(cfg, s, step).panicked
    ensures step.LogSend? && s.closed && At(s, step.caller).LogChecked?
  {
    var t := if step.StopClose? || step.StopCloseDone? then step.caller else 0;
    assert CallerOk(s, t);
  }

  /** Step i closes the buffer while some Log is between its check and its send. */
  ghost predicate ClosesUnderLog(cfg: Config, steps: seq<Step>, i: nat)
    requires i < |steps|
  {
    steps[i].StopClose? && Run(cfg, steps[..i]).Reached? && LogBetween(Run(cfg, steps[..i]).state)
  }

  /** No channel is ever closed twice, and a send meets a closed buffer only in a run in
      which Stop closed it while a Log was between its check and its send. */
  lemma {:induction false} PanicExactly(cfg: Config, steps: seq<Step>)
    requires ValidConfig(cfg) && Run(cfg, steps).Reached?
    requires var s := Run(cfg, steps).state; s.panicked || (s.closed && LogBetween(s))
    ensures exists i :: 0 <= i < |steps| && ClosesUnderLog(cfg, steps, i)
  {
    assert !LogBetween(Initial);
    var n := |steps| - 1;
    var s, s' := Run(cfg, steps[..n]).state, Run(cfg, steps).state;
    RunInv(cfg, steps[..n]);
    if s'.panicked {
      PanicStep(cfg, s, steps[n]);
    } else {
      StillBetween(cfg, s, steps[n]);
    }
    if steps[n].StopClose? {
      assert ClosesUnderLog(cfg, steps, n);
    } else {
      PanicExactly(cfg, steps[..n]);
      var i :| 0 <= i < n && ClosesUnderLog(cfg, steps[..n], i);
      assert steps[..n][..i] == steps[..i];
      assert ClosesUnderLog(cfg, steps, i);
    }
  }

  /** Once the buffer is closed no Log passes its check. */
  lemma StillBetween(cfg: Config, s: State, step: Step)
    requires Inv(cfg, s) && Enabled(s, step)
    requires var s' := Apply(cfg, s, step); !s'.panicked && s'.closed && LogBetween(s')
    ensures LogBetween(s) && (s.closed || step.StopClose?)
  {
    var t: nat :| At(Apply(cfg, s, step), t).LogChecked?;
    CheckedBefore(cfg, s, step, t);
    if !s.closed { ClosesOnce(cfg, s, step); }
  }

  lemma ClosesOnce(cfg: Config, s: State, step: Step)
    requires Inv(cfg, s) && Enabled(s, step) && Apply(cfg, s, step).closed && !s.closed
    ensures step.StopClose? && s.stopped
  {
    if OfDrain(step) { FlagsLastInDrain(cfg, s, step); }
    else if step.StopClose? { assert CallerOk(s, step.caller); }
  }

  /** And such a run does crash if that Log goes on. */
  lemma PanicReachable(cfg: Config, steps: seq<Step>, t: nat)
    requires Run(cfg, steps).Reached?
    requires var s := Run(cfg, steps).state; s.closed && !s.panicked && At(s, t).LogChecked?
    ensures Run(cfg, steps + [LogSend(t)]).Reached? && Run(cfg, steps + [LogSend(t)]).state.panicked
  {
    RunExtends(cfg, steps, LogSend(t));
  }
}
