/** What a Stop guarantees, decided by the state it is called in: exactly when every
    continuation of the call finds buffer and batch empty, the goroutine gone, or every
    record accepted before it in the sink. */
module AsyncLoggerStops {
  import opened AsyncLogger
  import opened AsyncLoggerDelivery
  import opened AsyncLoggerProgress
  import opened AsyncLoggerCalls

  // ---- Buffer and batch ----

  /** If the call of Stop has returned, buffer and batch are empty. */
  ghost predicate EmptyAtReturn(cfg: Config, s: State, t: nat, more: seq<Step>) {
    var r := Play(cfg, s, more);
    r.Reached? && Within(more, t) && At(r.state, t).StopReturned? ==> r.state.buffer == [] && r.state.batch == []
  }

  ghost predicate Closing(s: State, t: nat) {
    Stopping(At(s, t)) || At(s, t) == StopReturned(true)
  }

  lemma ClosingStep(cfg: Config, s: State, step: Step, t: nat)
    requires Inv(cfg, s) && Enabled(s, step) && step != Return(t) && Closing(s, t)
    ensures Closing(Apply(cfg, s, step), t)
  {
    assert CallerOk(s, t);
    if OfDrain(step) { DrainKeepsClosing(cfg, s, step, t); }
    else if OfSync(step) { SyncKeepsClosing(cfg, s, step, t); }
    else if OfStop(step) { StopKeepsClosing(cfg, s, step, t); }
  }

  lemma SyncKeepsClosing(cfg: Config, s: State, step: Step, t: nat)
    requires Enabled(s, step) && OfSync(step) && Closing(s, t)
    ensures Closing(Apply(cfg, s, step), t)
  {
  }

  lemma StopKeepsClosing(cfg: Config, s: State, step: Step, t: nat)
    requires CallerOk(s, t) && Enabled(s, step) && OfStop(step) && Closing(s, t)
    ensures Closing(Apply(cfg, s, step), t)
  {
  }

  lemma DrainKeepsClosing(cfg: Config, s: State, step: Step, t: nat)
    requires CallerOk(s, t) && Enabled(s, step) && OfDrain(step) && Closing(s, t)
    ensures Closing(Apply(cfg, s, step), t)
  {
  }

  lemma {:induction false} ClosingStays(cfg: Config, s: State, t: nat, more: seq<Step>)
    requires ValidConfig(cfg) && Inv(cfg, s) && Play(cfg, s, more).Reached? && Within(more, t) && Closing(s, t)
    ensures Inv(cfg, Play(cfg, s, more).state) && Closing(Play(cfg, s, more).state, t)
    decreases |more|
  {
    if more != [] {
      StepKeepsInv(cfg, s, more[0]);
      ClosingStep(cfg, s, more[0], t);
      ClosingStays(cfg, Apply(cfg, s, more[0]), t, more[1..]);
    }
  }

  lemma DrainedStep(cfg: Config, s: State, step: Step)
    requires Inv(cfg, s) && Enabled(s, step) && s.stopped && Drained(s)
    ensures Apply(cfg, s, step).stopped && Drained(Apply(cfg, s, step))
  {
    if OfDrain(step) { assert Acking(s.drain) ==> CallerOk(s, s.drain.flusher); DrainedDrainStep(cfg, s, step); }
    else { DrainedCallerStep(cfg, s, step); }
  }

  lemma DrainedDrainStep(cfg: Config, s: State, step: Step)
    requires Enabled(s, step) && OfDrain(step) && s.stopped && Drained(s)
    ensures Apply(cfg, s, step).stopped && Drained(Apply(cfg, s, step))
  {
    FlagsLastInDrain(cfg, s, step);
    forall t: nat | At(Apply(cfg, s, step), t).LogChecked? ensures At(s, t).LogChecked? {
      CheckedBeforeInDrain(cfg, s, step, t);
    }
  }

  lemma DrainedCallerStep(cfg: Config, s: State, step: Step)
    requires Enabled(s, step) && !OfDrain(step) && s.stopped && Drained(s)
    ensures Apply(cfg, s, step).stopped && Drained(Apply(cfg, s, step))
  {
    FlagsLast(cfg, s, step);
    forall t: nat | At(Apply(cfg, s, step), t).LogChecked? ensures At(s, t).LogChecked? {
      CheckedBefore(cfg, s, step, t);
    }
  }

  lemma {:induction false} DrainedStays(cfg: Config, s: State, more: seq<Step>)
    requires ValidConfig(cfg) && Inv(cfg, s) && Play(cfg, s, more).Reached? && s.stopped && Drained(s)
    ensures Drained(Play(cfg, s, more).state)
    decreases |more|
  {
    if more != [] {
      StepKeepsInv(cfg, s, more[0]);
      DrainedStep(cfg, s, more[0]);
      DrainedStays(cfg, Apply(cfg, s, more[0]), more[1..]);
    }
  }

  /** A Stop leaves buffer and batch empty, whatever the interleaving, exactly when it is the
      first or nothing was left and nothing can be accepted any more. */
  lemma StopExactly(cfg: Config, steps: seq<Step>, t: nat)
    requires ValidConfig(cfg) && Run(cfg, steps).Reached? && Enabled(Run(cfg, steps).state, StopCheck(t))
    ensures var s := Run(cfg, steps).state;
            (forall more :: EmptyAtReturn(cfg, Apply(cfg, s, StopCheck(t)), t, more)) <==> !s.stopped || Drained(s)
  {
    RunInv(cfg, steps);
    var s := Run(cfg, steps).state;
    var s' := Apply(cfg, s, StopCheck(t));
    StepKeepsInv(cfg, s, StopCheck(t));
    if !s.stopped || Drained(s) {
      forall more ensures EmptyAtReturn(cfg, s', t, more) { StopKeepsPromise(cfg, s, t, more); }
    } else {
      var more := StopBreaksPromise(cfg, s, t);
      assert !EmptyAtReturn(cfg, s', t, more);
    }
  }

  lemma StopKeepsPromise(cfg: Config, s: State, t: nat, more: seq<Step>)
    requires ValidConfig(cfg) && Inv(cfg, s) && Enabled(s, StopCheck(t)) && (!s.stopped || Drained(s))
    ensures EmptyAtReturn(cfg, Apply(cfg, s, StopCheck(t)), t, more)
  {
    var s' := Apply(cfg, s, StopCheck(t));
    StepKeepsInv(cfg, s, StopCheck(t));
    if Play(cfg, s', more).Reached? && Within(more, t) {
      if s.stopped {
        DrainedStep(cfg, s, StopCheck(t));
        DrainedStays(cfg, s', more);
      } else {
        ClosingStays(cfg, s', t, more);
        assert CallerOk(Play(cfg, s', more).state, t);
      }
    }
  }

  lemma StopBreaksPromise(cfg: Config, s: State, t: nat) returns (more: seq<Step>)
    requires ValidConfig(cfg) && Enabled(s, StopCheck(t)) && s.stopped && !Drained(s)
    ensures !EmptyAtReturn(cfg, Apply(cfg, s, StopCheck(t)), t, more)
  {
    var s' := Apply(cfg, s, StopCheck(t));
    more := [];
    if s.buffer == [] && s.batch == [] {
      var u: nat :| At(s, u).LogChecked?;
      more := [LogSend(u)];
      PlayFirst(cfg, s', LogSend(u), []);
      assert [LogSend(u)] + [] == more;
    }
  }

  // ---- The goroutine is gone ----

  /** If the call of Stop has returned, the goroutine has exited, or there is none. */
  ghost predicate GoneAtReturn(cfg: Config, s: State, t: nat, more: seq<Step>) {
    var r := Play(cfg, s, more);
    r.Reached? && Within(more, t) && At(r.state, t).StopReturned? ==> r.state.done
  }

  lemma DoneStep(cfg: Config, s: State, step: Step)
    requires Enabled(s, step) && s.done
    ensures Apply(cfg, s, step).done
  {
    if OfDrain(step) { DoneDrainStep(cfg, s, step); }
    else if OfSync(step) { DoneSyncStep(cfg, s, step); }
    else if OfStop(step) { }
    else if OfLog(step) { }
  }

  lemma DoneDrainStep(cfg: Config, s: State, step: Step)
    requires Enabled(s, step) && OfDrain(step) && s.done
    ensures Apply(cfg, s, step).done
  {
    if step.DrainReceive? { }
    else if step.DrainEmpty? { }
    else if step.DrainFlushRequest? { }
    else if step.DrainWrite? { }
    else if step.DrainAck? { }
  }

  lemma DoneSyncStep(cfg: Config, s: State, step: Step)
    requires Enabled(s, step) && OfSync(step) && s.done
    ensures Apply(cfg, s, step).done
  {
    if step.SyncReceive? { }
    else if step.SyncWrite? { }
  }

  lemma {:induction false} DoneStays(cfg: Config, s: State, more: seq<Step>)
    requires Play(cfg, s, more).Reached? && s.done
    ensures Play(cfg, s, more).state.done
    decreases |more|
  {
    if more != [] {
      DoneStep(cfg, s, more[0]);
      DoneStays(cfg, Apply(cfg, s, more[0]), more[1..]);
    }
  }

  lemma GoneKept(cfg: Config, s: State, t: nat, more: seq<Step>)
    requires ValidConfig(cfg) && Inv(cfg, s) && (Closing(s, t) || s.done)
    ensures GoneAtReturn(cfg, s, t, more)
  {
    if Play(cfg, s, more).Reached? && Within(more, t) {
      if s.done {
        DoneStays(cfg, s, more);
      } else {
        ClosingStays(cfg, s, t, more);
        assert CallerOk(Play(cfg, s, more).state, t);
      }
    }
  }

  /** A Stop waits for the goroutine, whatever the interleaving, exactly when it is the first
      or the goroutine is gone already. */
  lemma StopWaitsExactly(cfg: Config, steps: seq<Step>, t: nat)
    requires ValidConfig(cfg) && Run(cfg, steps).Reached? && Enabled(Run(cfg, steps).state, StopCheck(t))
    ensures var s := Run(cfg, steps).state;
            (forall more :: GoneAtReturn(cfg, Apply(cfg, s, StopCheck(t)), t, more)) <==> !s.stopped || s.done
  {
    RunInv(cfg, steps);
    var s := Run(cfg, steps).state;
    var s' := Apply(cfg, s, StopCheck(t));
    StepKeepsInv(cfg, s, StopCheck(t));
    if !s.stopped || s.done {
      forall more ensures GoneAtReturn(cfg, s', t, more) { GoneKept(cfg, s', t, more); }
    } else {
      assert !GoneAtReturn(cfg, s', t, []);
    }
  }

  // ---- Every record is written ----

  /** If the call of Stop has returned, the records accepted before it are in the sink. */
  ghost predicate FlushedAtReturn(cfg: Config, s: State, t: nat, mark: nat, more: seq<Step>) {
    var r := Play(cfg, s, more);
    r.Reached? && Within(more, t) && At(r.state, t).StopReturned? ==> AllShipped(r.state, mark)
  }

  /** The goroutine and the closing caller bring a Stop to its end, and another caller inside
      drainBufferedSync stays where it is. */
  lemma {:induction false} DriveStop(cfg: Config, s: State, t: nat, u: nat) returns (more: seq<Step>)
    requires ValidConfig(cfg) && Inv(cfg, s) && !s.panicked && Stopping(At(s, t)) && InSync(At(s, u)) && u != t
    ensures Within(more, t) && Play(cfg, s, more).Reached?
    ensures var s' := Play(cfg, s, more).state;
            Inv(cfg, s') && At(s', t) == StopReturned(true) && At(s', u) == At(s, u)
    decreases Bound(s)
  {
    var step := NextFor(s, t);
    NeverStuck(cfg, s, t);
    assert CallerOk(s, t) && CallerOk(s, u);
    StepKeepsInv(cfg, s, step);
    DriveStopStep(cfg, s, t, u, step);
    DriveDescends(cfg, s, step);
    var s1 := Apply(cfg, s, step);
    more := [];
    if !At(s1, t).StopReturned? { more := DriveStop(cfg, s1, t, u); }
    PlayFirst(cfg, s, step, more);
    WithinFirst(step, more, t);
    more := [step] + more;
  }

  /** The steps that bring a Stop forward. */
  predicate BringsStop(step: Step) {
    || OfSync(step) || step.StopClose? || step.StopSeeDone? || step.StopCloseDone?
    || (OfDrain(step) && !step.DrainTick?)
  }

  lemma DriveDescends(cfg: Config, s: State, step: Step)
    requires Inv(cfg, s) && Enabled(s, step) && BringsStop(step)
    ensures Bound(Apply(cfg, s, step)) < Bound(s)
  {
    if OfDrain(step) { DrainStepDescends(cfg, s, step); }
    else if OfSync(step) { SyncStepDescends(cfg, s, step); }
    else { StopStepDescends(cfg, s, step); }
  }

  /** One such step leaves the Stop under way or done, and the other caller alone. */
  ghost predicate BringsOn(s1: State, t: nat, u: nat, pc: Pc) {
    !s1.panicked && At(s1, u) == pc && (Stopping(At(s1, t)) || At(s1, t) == StopReturned(true))
  }

  lemma DriveStopStep(cfg: Config, s: State, t: nat, u: nat, step: Step)
    requires DrainOk(cfg, s) && CallerOk(s, t) && CallerOk(s, u) && Stopping(At(s, t)) && InSync(At(s, u)) && u != t
    requires step == NextFor(s, t) && Enabled(s, step)
    ensures BringsStop(step) && BringsOn(Apply(cfg, s, step), t, u, At(s, u))
  {
    if OfDrain(step) { DriveByDrain(cfg, s, t, u, step); }
    else if OfSync(step) { DriveBySync(cfg, s, t, u, step); }
  }

  lemma DriveByDrain(cfg: Config, s: State, t: nat, u: nat, step: Step)
    requires DrainOk(cfg, s) && CallerOk(s, t) && CallerOk(s, u) && Stopping(At(s, t)) && InSync(At(s, u))
    requires Enabled(s, step) && OfDrain(step) && At(s, t).StopWaiting?
    ensures BringsOn(Apply(cfg, s, step), t, u, At(s, u))
  {
    if step.DrainReceive? { }
    else if step.DrainEmpty? { }
    else if step.DrainFlushRequest? { }
    else if step.DrainWrite? { }
    else if step.DrainAck? { }
  }

  lemma DriveBySync(cfg: Config, s: State, t: nat, u: nat, step: Step)
    requires Stopping(At(s, t)) && u != t && Enabled(s, step) && OfSync(step) && step.caller == t
    ensures BringsOn(Apply(cfg, s, step), t, u, At(s, u))
  {
    if step.SyncReceive? { }
    else if step.SyncEmpty? { }
    else if step.SyncWrite? { }
  }

  /** A Stop returns although another caller holds a record. */
  lemma HolderBreaksStop(cfg: Config, s: State, t: nat, u: nat) returns (more: seq<Step>)
    requires ValidConfig(cfg) && Inv(cfg, s) && !s.panicked && Stopping(At(s, t)) && u != t && Held(At(s, u)) != []
    ensures !FlushedAtReturn(cfg, s, t, |s.place|, more)
  {
    more := DriveStop(cfg, s, t, u);
    HeldIsNotShipped(cfg, s, u);
    HeldIsNotShipped(cfg, Play(cfg, s, more).state, u);
  }

  /** A Flush that comes in after the check of a Stop can take what is in the buffer. */
  lemma ReaderBreaksStop(cfg: Config, s: State, t: nat) returns (more: seq<Step>)
    requires ValidConfig(cfg) && Inv(cfg, s) && !s.panicked && s.stopped && At(s, t).StopClosing? && s.buffer != []
    ensures !FlushedAtReturn(cfg, s, t, |s.place|, more)
  {
    var v := Above(s.pcs.Keys);
    var s1 := Apply(cfg, s, FlushCheck(v));
    StepKeepsInv(cfg, s, FlushCheck(v));
    var s2 := Apply(cfg, s1, SyncReceive(v));
    StepKeepsInv(cfg, s1, SyncReceive(v));
    var rest := HolderBreaksStop(cfg, s2, t, v);
    PlayFirst(cfg, s1, SyncReceive(v), rest);
    WithinFirst(SyncReceive(v), rest, t);
    PlayFirst(cfg, s, FlushCheck(v), [SyncReceive(v)] + rest);
    WithinFirst(FlushCheck(v), [SyncReceive(v)] + rest, t);
    more := [FlushCheck(v)] + ([SyncReceive(v)] + rest);
  }

  /** Tickets that only the goroutine holds are written when the closing Stop returns. */
  lemma SafeIsFlushed(cfg: Config, s: State, t: nat, mark: nat, more: seq<Step>)
    requires ValidConfig(cfg) && Inv(cfg, s) && Closing(s, t) && Safe(s.place, mark)
    ensures FlushedAtReturn(cfg, s, t, mark, more)
  {
    if Play(cfg, s, more).Reached? && Within(more, t) && At(Play(cfg, s, more).state, t).StopReturned? {
      var s' := Play(cfg, s, more).state;
      SafeStays(cfg, s, mark, more);
      ClosingStays(cfg, s, t, more);
      assert CallerOk(s', t);
      SafeWithoutBatch(cfg, s', mark);
    }
  }

  lemma SafeWithoutBatch(cfg: Config, s: State, mark: nat)
    requires Inv(cfg, s) && s.batch == [] && Safe(s.place, mark)
    ensures AllShipped(s, mark)
  {
    assert HoldsExactly(Contents(s, InDrain), s.place, InDrain);
    assert HoldsExactly(Contents(s, InSink), s.place, InSink);
  }

  /** Beginning a Stop moves no record. */
  lemma StopCheckMovesNone(cfg: Config, s: State, t: nat)
    requires Enabled(s, StopCheck(t))
    ensures var s' := Apply(cfg, s, StopCheck(t));
            && s'.buffer == s.buffer && s'.batch == s.batch && s'.place == s.place && s'.shipped == s.shipped
            && forall u: nat :: Held(At(s', u)) == Held(At(s, u))
  {
  }

  lemma StopFlushes(cfg: Config, s: State, t: nat, more: seq<Step>)
    requires ValidConfig(cfg) && Inv(cfg, s) && Enabled(s, StopCheck(t))
    requires NoneHeld(s) && s.buffer == [] && (s.stopped ==> s.batch == [])
    ensures FlushedAtReturn(cfg, Apply(cfg, s, StopCheck(t)), t, |s.place|, more)
  {
    var s' := Apply(cfg, s, StopCheck(t));
    StepKeepsInv(cfg, s, StopCheck(t));
    StopCheckMovesNone(cfg, s, t);
    NowhereElse(cfg, s');
    if s.stopped {
      if Play(cfg, s', more).Reached? { ShippedStays(cfg, s', |s.place|, more); }
    } else {
      SafeIsFlushed(cfg, s', t, |s.place|, more);
    }
  }

  lemma StopMissesOne(cfg: Config, s: State, t: nat) returns (more: seq<Step>)
    requires ValidConfig(cfg) && Inv(cfg, s) && Enabled(s, StopCheck(t))
    requires !(NoneHeld(s) && s.buffer == [] && (s.stopped ==> s.batch == []))
    ensures !FlushedAtReturn(cfg, Apply(cfg, s, StopCheck(t)), t, |s.place|, more)
  {
    var s' := Apply(cfg, s, StopCheck(t));
    StepKeepsInv(cfg, s, StopCheck(t));
    StopCheckMovesNone(cfg, s, t);
    if s.stopped {
      more := [];
      NotAllShipped(cfg, s');
    } else if s.buffer != [] {
      more := ReaderBreaksStop(cfg, s', t);
    } else {
      var u: nat :| Held(At(s, u)) != [];
      more := HolderBreaksStop(cfg, s', t, u);
    }
  }

  lemma NotAllShipped(cfg: Config, s: State)
    requires Inv(cfg, s) && !(NoneHeld(s) && s.buffer == [] && s.batch == [])
    ensures !AllShipped(s, |s.place|)
  {
    NowhereElse(cfg, s);
    assert HoldsExactly(Contents(s, InSink), s.place, InSink);
    var k :| 0 <= k < |s.place| && !s.place[k].InSink?;
    assert k !in s.shipped;
  }

  /** A Stop leaves every record accepted before it in the sink, whatever the interleaving,
      exactly when at its call no caller holds one and the buffer is empty, and, unless it is
      the first, the goroutine holds none either. */
  lemma StopFlushesExactly(cfg: Config, steps: seq<Step>, t: nat)
    requires ValidConfig(cfg) && Run(cfg, steps).Reached? && Enabled(Run(cfg, steps).state, StopCheck(t))
    ensures var s := Run(cfg, steps).state;
            (forall more :: FlushedAtReturn(cfg, Apply(cfg, s, StopCheck(t)), t, |s.accepted|, more))
            <==> NoneHeld(s) && s.buffer == [] && (s.stopped ==> s.batch == [])
  {
    RunInv(cfg, steps);
    var s := Run(cfg, steps).state;
    var s' := Apply(cfg, s, StopCheck(t));
    if NoneHeld(s) && s.buffer == [] && (s.stopped ==> s.batch == []) {
      forall more ensures FlushedAtReturn(cfg, s', t, |s.accepted|, more) { StopFlushes(cfg, s, t, more); }
    } else {
      var more := StopMissesOne(cfg, s, t);
      assert !FlushedAtReturn(cfg, s', t, |s.accepted|, more);
    }
  }
}
