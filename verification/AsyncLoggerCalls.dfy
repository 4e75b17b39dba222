/** What a Flush guarantees, decided by the state it is called in: exactly when every
    continuation of the call keeps the promise. Other callers may begin calls at any time. */
module AsyncLoggerCalls {
  import opened AsyncLogger
  import opened AsyncLoggerDelivery
  import opened AsyncLoggerProgress

  /** The steps do not go beyond the current call of t. */
  predicate Within(more: seq<Step>, t: nat) {
    forall i :: 0 <= i < |more| ==> more[i] != Return(t)
  }

  lemma PlayFirst(cfg: Config, s: State, step: Step, more: seq<Step>)
    requires Enabled(s, step)
    ensures Play(cfg, s, [step] + more) == Play(cfg, Apply(cfg, s, step), more)
  {
    assert ([step] + more)[1..] == more;
  }

  lemma WithinFirst(step: Step, more: seq<Step>, t: nat)
    requires Within(more, t) && step != Return(t)
    ensures Within([step] + more, t)
  {
  }

  // ---- Flush ----

  ghost predicate NoneHeld(s: State) {
    forall u: nat :: Held(At(s, u)) == []
  }

  ghost predicate NoneReading(s: State) {
    forall u: nat :: !At(s, u).SyncReading?
  }

  ghost predicate AllShipped(s: State, mark: nat) {
    forall k :: 0 <= k < mark ==> k in s.shipped
  }

  /** If the call of Flush has returned, the records accepted before it are in the sink. */
  ghost predicate DeliversAtReturn(cfg: Config, s: State, t: nat, mark: nat, more: seq<Step>) {
    var r := Play(cfg, s, more);
    r.Reached? && Within(more, t) && At(r.state, t).FlushReturned? ==> AllShipped(r.state, mark)
  }

  /** The same for runs in which Stop has not been called. */
  ghost predicate DeliversUnlessStopped(cfg: Config, s: State, t: nat, mark: nat, more: seq<Step>) {
    var r := Play(cfg, s, more);
    r.Reached? && Within(more, t) && At(r.state, t).FlushReturned? && !r.state.stopped ==> AllShipped(r.state, mark)
  }

  /** The caller is in a Flush that found the goroutine running. */
  predicate InFlush(pc: Pc, mark: nat) {
    || pc == FlushWaiting(mark) || pc == FlushAwaitAck(mark)
    || (InSync(pc) && pc.after == AfterFlush(mark, ViaDone))
    || (pc.FlushReturned? && pc.mark == mark && pc.path != ViaIdle)
  }

  lemma FlushGoesOn(cfg: Config, s: State, step: Step, t: nat, mark: nat)
    requires CallerOk(s, t) && Enabled(s, step) && step != Return(t) && InFlush(At(s, t), mark)
    ensures InFlush(At(Apply(cfg, s, step), t), mark)
  {
    if OfDrain(step) { DrainKeepsFlush(cfg, s, step, t, mark); }
    else if OfSync(step) { SyncKeepsFlush(cfg, s, step, t, mark); }
    else { OtherKeepsFlush(cfg, s, step, t, mark); }
  }

  lemma DrainKeepsFlush(cfg: Config, s: State, step: Step, t: nat, mark: nat)
    requires CallerOk(s, t) && Enabled(s, step) && OfDrain(step) && InFlush(At(s, t), mark)
    ensures InFlush(At(Apply(cfg, s, step), t), mark)
  {
  }

  lemma SyncKeepsFlush(cfg: Config, s: State, step: Step, t: nat, mark: nat)
    requires Enabled(s, step) && OfSync(step) && InFlush(At(s, t), mark)
    ensures InFlush(At(Apply(cfg, s, step), t), mark)
  {
  }

  lemma OtherKeepsFlush(cfg: Config, s: State, step: Step, t: nat, mark: nat)
    requires Enabled(s, step) && !OfDrain(step) && !OfSync(step) && step != Return(t) && InFlush(At(s, t), mark)
    ensures InFlush(At(Apply(cfg, s, step), t), mark)
  {
  }

  /** A returned Flush of this kind has delivered the tickets that no caller holds. */
  lemma UnheldIsShipped(cfg: Config, s: State, t: nat, mark: nat)
    requires Inv(cfg, s) && InFlush(At(s, t), mark) && At(s, t).FlushReturned?
    requires forall k :: 0 <= k < mark && k < |s.place| ==> !s.place[k].InCaller?
    ensures AllShipped(s, mark)
  {
    assert FlushOk(s, t) && HoldsExactly(Contents(s, InSink), s.place, InSink);
  }

  // ---- With the goroutine running, in any continuation ----

  /** Tickets below the mark are past the buffer and with no caller. */
  predicate Safe(place: seq<Place>, mark: nat) {
    mark <= |place| && forall k :: 0 <= k < mark ==> place[k].InDrain? || place[k].InSink?
  }

  lemma {:induction false} SafeStays(cfg: Config, s: State, mark: nat, more: seq<Step>)
    requires ValidConfig(cfg) && Inv(cfg, s) && Play(cfg, s, more).Reached? && Safe(s.place, mark)
    ensures Inv(cfg, Play(cfg, s, more).state) && Safe(Play(cfg, s, more).state.place, mark)
    decreases |more|
  {
    if more != [] {
      StepKeepsInv(cfg, s, more[0]);
      StepAdvances(cfg, s, more[0]);
      SafeStays(cfg, Apply(cfg, s, more[0]), mark, more[1..]);
    }
  }

  lemma {:induction false} FlushStays(cfg: Config, s: State, t: nat, mark: nat, more: seq<Step>)
    requires ValidConfig(cfg) && Inv(cfg, s) && Play(cfg, s, more).Reached? && Within(more, t)
    requires InFlush(At(s, t), mark)
    ensures InFlush(At(Play(cfg, s, more).state, t), mark)
    decreases |more|
  {
    if more != [] {
      assert CallerOk(s, t);
      StepKeepsInv(cfg, s, more[0]);
      FlushGoesOn(cfg, s, more[0], t, mark);
      FlushStays(cfg, Apply(cfg, s, more[0]), t, mark, more[1..]);
    }
  }

  lemma NowhereElse(cfg: Config, s: State)
    requires Inv(cfg, s)
    ensures NoneHeld(s) <==> forall k :: 0 <= k < |s.place| ==> !s.place[k].InCaller?
    ensures s.buffer == [] <==> forall k :: 0 <= k < |s.place| ==> !s.place[k].InBuffer?
    ensures s.batch == [] <==> forall k :: 0 <= k < |s.place| ==> !s.place[k].InDrain?
  {
    NowhereInCallers(s);
    assert HoldsExactly(Contents(s, InBuffer), s.place, InBuffer);
    assert HoldsExactly(Contents(s, InDrain), s.place, InDrain);
    if s.buffer != [] { assert s.place[s.buffer[0]].InBuffer?; }
    if s.batch != [] { assert s.place[s.batch[0]].InDrain?; }
  }

  lemma NowhereInCallers(s: State)
    requires Located(s)
    ensures NoneHeld(s) <==> forall k :: 0 <= k < |s.place| ==> !s.place[k].InCaller?
  {
    if NoneHeld(s) {
      forall k | 0 <= k < |s.place| ensures !s.place[k].InCaller? {
        assert HoldsExactly(Contents(s, s.place[k]), s.place, s.place[k]);
      }
    } else {
      var u: nat :| Held(At(s, u)) != [];
      assert HoldsExactly(Contents(s, InCaller(u)), s.place, InCaller(u));
      assert s.place[Held(At(s, u))[0]].InCaller?;
    }
  }

  /** Nobody else stands between the goroutine and the sink: t and the goroutine alone bring
      a Flush to its end, and a caller inside drainBufferedSync stays where it is. */
  lemma {:induction false} DriveFlush(cfg: Config, s: State, t: nat, u: nat, mark: nat) returns (more: seq<Step>)
    requires ValidConfig(cfg) && Inv(cfg, s) && !s.panicked && s.started && !s.closed && InSync(At(s, u))
    requires At(s, t) == FlushWaiting(mark) || At(s, t) == FlushAwaitAck(mark)
    ensures Within(more, t) && Play(cfg, s, more).Reached?
    ensures var s' := Play(cfg, s, more).state;
            && Inv(cfg, s') && At(s', t) == FlushReturned(mark, ViaAck)
            && At(s', u) == At(s, u) && s'.stopped == s.stopped
    decreases Bound(s)
  {
    var step := NextFor(s, t);
    NeverStuck(cfg, s, t);
    assert CallerOk(s, t) && CallerOk(s, u);
    StepKeepsInv(cfg, s, step);
    DriveStep(cfg, s, t, u, mark, step);
    DrainStepDescends(cfg, s, step);
    var s1 := Apply(cfg, s, step);
    more := [];
    if !At(s1, t).FlushReturned? { more := DriveFlush(cfg, s1, t, u, mark); }
    PlayFirst(cfg, s, step, more);
    WithinFirst(step, more, t);
    more := [step] + more;
  }

  lemma DriveStep(cfg: Config, s: State, t: nat, u: nat, mark: nat, step: Step)
    requires DrainOk(cfg, s) && CallerOk(s, t) && CallerOk(s, u) && s.started && !s.closed && InSync(At(s, u))
    requires At(s, t) == FlushWaiting(mark) || At(s, t) == FlushAwaitAck(mark)
    requires step == NextFor(s, t) && Enabled(s, step)
    ensures OfDrain(step) && !step.DrainTick?
    ensures var s1 := Apply(cfg, s, step);
            && At(s1, u) == At(s, u) && s1.started && !s1.closed && !s1.panicked && s1.stopped == s.stopped
            && (|| At(s1, t) == FlushWaiting(mark) || At(s1, t) == FlushAwaitAck(mark)
                || At(s1, t) == FlushReturned(mark, ViaAck))
  {
  }

  lemma HeldIsNotShipped(cfg: Config, s: State, u: nat)
    requires Inv(cfg, s) && Held(At(s, u)) != []
    ensures Held(At(s, u))[0] < |s.place| && Held(At(s, u))[0] !in s.shipped
  {
    assert HoldsExactly(Contents(s, InCaller(u)), s.place, InCaller(u));
    assert HoldsExactly(Contents(s, InSink), s.place, InSink);
  }

  /** If a caller holds a record, the Flush can return without it. */
  lemma HolderBreaksFlush(cfg: Config, s: State, t: nat, u: nat) returns (more: seq<Step>)
    requires ValidConfig(cfg) && Inv(cfg, s) && !s.panicked && s.started && !s.closed
    requires At(s, t) == FlushWaiting(|s.place|) && Held(At(s, u)) != []
    ensures Within(more, t) && Play(cfg, s, more).Reached?
    ensures var s' := Play(cfg, s, more).state;
            At(s', t).FlushReturned? && s'.stopped == s.stopped && !AllShipped(s', |s.place|)
  {
    more := DriveFlush(cfg, s, t, u, |s.place|);
    HeldIsNotShipped(cfg, s, u);
    HeldIsNotShipped(cfg, Play(cfg, s, more).state, u);
  }

  /** If a caller is reading and the buffer has a record, that caller can take it first. */
  lemma ReaderBreaksFlush(cfg: Config, s: State, t: nat, u: nat) returns (more: seq<Step>)
    requires ValidConfig(cfg) && Inv(cfg, s) && !s.panicked && s.started && !s.closed
    requires At(s, t) == FlushWaiting(|s.place|) && At(s, u).SyncReading? && s.buffer != []
    ensures Within(more, t) && Play(cfg, s, more).Reached?
    ensures var s' := Play(cfg, s, more).state;
            At(s', t).FlushReturned? && s'.stopped == s.stopped && !AllShipped(s', |s.place|)
  {
    var step := SyncReceive(u);
    StepKeepsInv(cfg, s, step);
    var rest := HolderBreaksFlush(cfg, Apply(cfg, s, step), t, u);
    PlayFirst(cfg, s, step, rest);
    WithinFirst(step, rest, t);
    more := [step] + rest;
  }

  lemma {:induction false} Above(keys: set<nat>) returns (v: nat)
    ensures forall k :: k in keys ==> k < v
  {
    v := 0;
    if keys != {} {
      var k :| k in keys;
      v := Above(keys - {k});
      if v <= k { v := k + 1; }
      assert forall x :: x in keys ==> x in keys - {k} || x == k;
    }
  }

  /** If the buffer has a record, a Stop and then another Flush can come in between. */
  lemma StopBreaksFlush(cfg: Config, s: State, t: nat) returns (more: seq<Step>)
    requires ValidConfig(cfg) && Inv(cfg, s) && !s.panicked && s.started && !s.stopped
    requires At(s, t) == FlushWaiting(|s.place|) && s.buffer != []
    ensures Within(more, t) && Play(cfg, s, more).Reached?
    ensures var s' := Play(cfg, s, more).state; At(s', t).FlushReturned? && !AllShipped(s', |s.place|)
  {
    var v := Above(s.pcs.Keys);
    var s1 := Apply(cfg, s, StopCheck(v));
    StepKeepsInv(cfg, s, StopCheck(v));
    var s2 := Apply(cfg, s1, FlushCheck(v + 1));
    StepKeepsInv(cfg, s1, FlushCheck(v + 1));
    var rest := ReaderBreaksFlush(cfg, s2, t, v + 1);
    PlayFirst(cfg, s1, FlushCheck(v + 1), rest);
    WithinFirst(FlushCheck(v + 1), rest, t);
    PlayFirst(cfg, s, StopCheck(v), [FlushCheck(v + 1)] + rest);
    WithinFirst(StopCheck(v), [FlushCheck(v + 1)] + rest, t);
    more := [StopCheck(v)] + ([FlushCheck(v + 1)] + rest);
  }

  /** A Flush called while the goroutine runs delivers in every continuation exactly when at
      its call no caller holds a record and the buffer is empty: what the goroutine holds it
      does wait for. */
  lemma FlushExactly(cfg: Config, steps: seq<Step>, t: nat)
    requires ValidConfig(cfg) && Run(cfg, steps).Reached? && Enabled(Run(cfg, steps).state, FlushCheck(t))
    requires Run(cfg, steps).state.started && !Run(cfg, steps).state.stopped
    ensures var s := Run(cfg, steps).state;
            (forall more :: DeliversAtReturn(cfg, Apply(cfg, s, FlushCheck(t)), t, |s.accepted|, more))
            <==> NoneHeld(s) && s.buffer == []
  {
    RunInv(cfg, steps);
    var s := Run(cfg, steps).state;
    var s', mark := Apply(cfg, s, FlushCheck(t)), |s.accepted|;
    StepKeepsInv(cfg, s, FlushCheck(t));
    SameHolders(cfg, s, t);
    if NoneHeld(s) && s.buffer == [] {
      NowhereElse(cfg, s');
      forall more ensures DeliversAtReturn(cfg, s', t, mark, more) { FlushKeepsPromise(cfg, s', t, mark, more); }
    } else {
      var more;
      if s.buffer != [] { more := StopBreaksFlush(cfg, s', t); }
      else {
        var u: nat :| Held(At(s', u)) != [];
        more := HolderBreaksFlush(cfg, s', t, u);
      }
      assert !DeliversAtReturn(cfg, s', t, mark, more);
    }
  }

  lemma FlushKeepsPromise(cfg: Config, s: State, t: nat, mark: nat, more: seq<Step>)
    requires ValidConfig(cfg) && Inv(cfg, s) && InFlush(At(s, t), mark) && Safe(s.place, mark)
    ensures DeliversAtReturn(cfg, s, t, mark, more)
  {
    if Play(cfg, s, more).Reached? && Within(more, t) && At(Play(cfg, s, more).state, t).FlushReturned? {
      SafeStays(cfg, s, mark, more);
      FlushStays(cfg, s, t, mark, more);
      UnheldIsShipped(cfg, Play(cfg, s, more).state, t, mark);
    }
  }

  /** Beginning a Flush takes no record and begins no reading while the goroutine runs. */
  lemma SameHolders(cfg: Config, s: State, t: nat)
    requires Enabled(s, FlushCheck(t))
    ensures var s' := Apply(cfg, s, FlushCheck(t));
            && (NoneHeld(s') <==> NoneHeld(s))
            && (s.started && !s.stopped ==> (NoneReading(s') <==> NoneReading(s)))
  {
    var s' := Apply(cfg, s, FlushCheck(t));
    assert forall u: nat :: Held(At(s', u)) == Held(At(s, u));
    if s.started && !s.stopped {
      assert forall u: nat :: At(s', u).SyncReading? <==> At(s, u).SyncReading?;
    }
  }

  // ---- With the goroutine running and Stop not called ----

  /** No caller holds a ticket below the mark, and none can take one. */
  ghost predicate Guarded(s: State, mark: nat) {
    && s.started && !s.stopped && mark <= |s.place|
    && (forall k :: 0 <= k < mark ==> !s.place[k].InCaller?)
    && ((forall k :: 0 <= k < mark ==> !s.place[k].InBuffer?) || NoneReading(s))
  }

  lemma NoneReadingStep(cfg: Config, s: State, step: Step)
    requires Control(cfg, s) && Enabled(s, step) && s.started && !s.stopped && NoneReading(s)
    ensures NoneReading(Apply(cfg, s, step))
  {
    var s' := Apply(cfg, s, step);
    forall u: nat ensures !At(s', u).SyncReading? {
      assert CallerOk(s, u) && !At(s, u).SyncReading?;
    }
  }

  lemma GuardedStep(cfg: Config, s: State, step: Step, mark: nat)
    requires ValidConfig(cfg) && Inv(cfg, s) && Enabled(s, step) && Guarded(s, mark) && !Apply(cfg, s, step).stopped
    ensures Guarded(Apply(cfg, s, step), mark)
  {
    StepAdvances(cfg, s, step);
    if NoneReading(s) { NoneReadingStep(cfg, s, step); }
    if step.SyncReceive? {
      assert HoldsExactly(Contents(s, InBuffer), s.place, InBuffer);
      assert s.place[s.buffer[0]].InBuffer?;
    } else {
      NoNewHolder(cfg, s, step);
    }
    FlagsLast(cfg, s, step);
  }

  lemma NoNewHolder(cfg: Config, s: State, step: Step)
    requires Inv(cfg, s) && Enabled(s, step) && !step.SyncReceive?
    ensures var place' := Apply(cfg, s, step).place;
            |s.place| <= |place'| && forall k :: 0 <= k < |s.place| && place'[k].InCaller? ==> s.place[k].InCaller?
  {
    if !Moves(step) {
      if OfDrain(step) {
        assert Acking(s.drain) ==> CallerOk(s, s.drain.flusher);
        QuietDrainStep(cfg, s, step);
      } else {
        QuietCallerStep(cfg, s, step);
      }
    }
  }

  lemma {:induction false} StoppedStays(cfg: Config, s: State, more: seq<Step>)
    requires Play(cfg, s, more).Reached? && s.stopped
    ensures Play(cfg, s, more).state.stopped
    decreases |more|
  {
    if more != [] {
      FlagsLast(cfg, s, more[0]);
      StoppedStays(cfg, Apply(cfg, s, more[0]), more[1..]);
    }
  }

  lemma {:induction false} GuardedStays(cfg: Config, s: State, t: nat, mark: nat, more: seq<Step>)
    requires ValidConfig(cfg) && Inv(cfg, s) && Play(cfg, s, more).Reached? && Within(more, t)
    requires InFlush(At(s, t), mark) && Guarded(s, mark) && !Play(cfg, s, more).state.stopped
    ensures var s' := Play(cfg, s, more).state; Inv(cfg, s') && InFlush(At(s', t), mark) && Guarded(s', mark)
    decreases |more|
  {
    if more != [] {
      var s1 := Apply(cfg, s, more[0]);
      assert CallerOk(s, t);
      StepKeepsInv(cfg, s, more[0]);
      FlushGoesOn(cfg, s, more[0], t, mark);
      if s1.stopped { StoppedStays(cfg, s1, more[1..]); }
      GuardedStep(cfg, s, more[0], mark);
      GuardedStays(cfg, s1, t, mark, more[1..]);
    }
  }

  /** As long as Stop is not called, it is exactly enough that no caller holds a record and
      that the buffer is empty or no caller is reading it. */
  lemma FlushWithoutStopExactly(cfg: Config, steps: seq<Step>, t: nat)
    requires ValidConfig(cfg) && Run(cfg, steps).Reached? && Enabled(Run(cfg, steps).state, FlushCheck(t))
    requires Run(cfg, steps).state.started && !Run(cfg, steps).state.stopped
    ensures var s := Run(cfg, steps).state;
            (forall more :: DeliversUnlessStopped(cfg, Apply(cfg, s, FlushCheck(t)), t, |s.accepted|, more))
            <==> NoneHeld(s) && (s.buffer == [] || NoneReading(s))
  {
    RunInv(cfg, steps);
    var s := Run(cfg, steps).state;
    var s', mark := Apply(cfg, s, FlushCheck(t)), |s.accepted|;
    StepKeepsInv(cfg, s, FlushCheck(t));
    SameHolders(cfg, s, t);
    NowhereElse(cfg, s');
    if NoneHeld(s) && (s.buffer == [] || NoneReading(s)) {
      forall more ensures DeliversUnlessStopped(cfg, s', t, mark, more) { FlushGuarded(cfg, s', t, mark, more); }
    } else {
      var more;
      if NoneHeld(s) {
        var u: nat :| At(s', u).SyncReading?;
        more := ReaderBreaksFlush(cfg, s', t, u);
      } else {
        var u: nat :| Held(At(s', u)) != [];
        more := HolderBreaksFlush(cfg, s', t, u);
      }
      assert !DeliversUnlessStopped(cfg, s', t, mark, more);
    }
  }

  lemma FlushGuarded(cfg: Config, s: State, t: nat, mark: nat, more: seq<Step>)
    requires ValidConfig(cfg) && Inv(cfg, s) && InFlush(At(s, t), mark) && Guarded(s, mark)
    ensures DeliversUnlessStopped(cfg, s, t, mark, more)
  {
    var r := Play(cfg, s, more);
    if r.Reached? && Within(more, t) && At(r.state, t).FlushReturned? && !r.state.stopped {
      GuardedStays(cfg, s, t, mark, more);
      UnheldIsShipped(cfg, r.state, t, mark);
    }
  }

  // ---- Without the goroutine ----

  /** A caller inside drainBufferedSync finishes alone. */
  lemma {:induction false} DriveSync(cfg: Config, s: State, t: nat, mark: nat) returns (more: seq<Step>)
    requires ValidConfig(cfg) && Inv(cfg, s) && !s.panicked
    requires InSync(At(s, t)) && At(s, t).after == AfterFlush(mark, ViaIdle)
    ensures Within(more, t) && Play(cfg, s, more).Reached?
    ensures var s' := Play(cfg, s, more).state;
            && Inv(cfg, s') && At(s', t) == FlushReturned(mark, ViaIdle) && s'.batch == s.batch
            && forall u: nat :: u != t ==> At(s', u) == At(s, u)
    decreases Bound(s)
  {
    var step := NextFor(s, t);
    StepKeepsInv(cfg, s, step);
    SyncStepDescends(cfg, s, step);
    var s1 := Apply(cfg, s, step);
    SyncStepAlone(cfg, s, t, mark, step);
    more := [];
    if !At(s1, t).FlushReturned? { more := DriveSync(cfg, s1, t, mark); }
    PlayFirst(cfg, s, step, more);
    WithinFirst(step, more, t);
    more := [step] + more;
  }

  lemma SyncStepAlone(cfg: Config, s: State, t: nat, mark: nat, step: Step)
    requires InSync(At(s, t)) && At(s, t).after == AfterFlush(mark, ViaIdle)
    requires step == NextFor(s, t) && Enabled(s, step)
    ensures var s1 := Apply(cfg, s, step);
            && s1.batch == s.batch && !s1.panicked && (forall u: nat :: u != t ==> At(s1, u) == At(s, u))
            && (|| (InSync(At(s1, t)) && At(s1, t).after == AfterFlush(mark, ViaIdle))
                || At(s1, t) == FlushReturned(mark, ViaIdle))
  {
    if step.SyncReceive? { }
    else if step.SyncEmpty? { }
    else if step.SyncWrite? { }
    else { }
  }

  /** It can return while the goroutine or another caller still holds a record. */
  lemma HolderBreaksIdle(cfg: Config, s: State, t: nat, u: nat) returns (more: seq<Step>)
    requires ValidConfig(cfg) && Inv(cfg, s) && !s.panicked
    requires At(s, t) == SyncReading([], AfterFlush(|s.place|, ViaIdle)) && (s.batch != [] || Held(At(s, u)) != [])
    ensures !DeliversAtReturn(cfg, s, t, |s.place|, more)
  {
    more := DriveSync(cfg, s, t, |s.place|);
    var s' := Play(cfg, s, more).state;
    if s.batch != [] {
      assert HoldsExactly(Contents(s, InDrain), s.place, InDrain);
      assert HoldsExactly(Contents(s', InDrain), s'.place, InDrain);
      assert HoldsExactly(Contents(s', InSink), s'.place, InSink);
      assert s.batch[0] < |s.place| && s.batch[0] !in s'.shipped;
    } else {
      HeldIsNotShipped(cfg, s, u);
      HeldIsNotShipped(cfg, s', u);
    }
  }

  /** And another Flush can take what is in the buffer. */
  lemma OtherBreaksIdle(cfg: Config, s: State, t: nat) returns (more: seq<Step>)
    requires ValidConfig(cfg) && Inv(cfg, s) && !s.panicked && !(s.started && !s.stopped) && s.buffer != []
    requires At(s, t) == SyncReading([], AfterFlush(|s.place|, ViaIdle))
    ensures !DeliversAtReturn(cfg, s, t, |s.place|, more)
  {
    var v := Above(s.pcs.Keys);
    var s1 := Apply(cfg, s, FlushCheck(v));
    StepKeepsInv(cfg, s, FlushCheck(v));
    var s2 := Apply(cfg, s1, SyncReceive(v));
    StepKeepsInv(cfg, s1, SyncReceive(v));
    var rest := HolderBreaksIdle(cfg, s2, t, v);
    PlayFirst(cfg, s1, SyncReceive(v), rest);
    WithinFirst(SyncReceive(v), rest, t);
    PlayFirst(cfg, s, FlushCheck(v), [SyncReceive(v)] + rest);
    WithinFirst(FlushCheck(v), [SyncReceive(v)] + rest, t);
    more := [FlushCheck(v)] + ([SyncReceive(v)] + rest);
  }

  lemma {:induction false} ShippedStays(cfg: Config, s: State, mark: nat, more: seq<Step>)
    requires ValidConfig(cfg) && Inv(cfg, s) && Play(cfg, s, more).Reached?
    requires mark <= |s.place| && forall k :: 0 <= k < mark ==> s.place[k].InSink?
    ensures AllShipped(Play(cfg, s, more).state, mark)
    decreases |more|
  {
    if more == [] {
      assert HoldsExactly(Contents(s, InSink), s.place, InSink);
    } else {
      StepKeepsInv(cfg, s, more[0]);
      StepAdvances(cfg, s, more[0]);
      ShippedStays(cfg, Apply(cfg, s, more[0]), mark, more[1..]);
    }
  }

  /** A Flush that finds no goroutine running delivers in every continuation exactly when
      every record was in the sink before the call: anyone else who holds or takes one may
      outlast it. */
  lemma IdleFlushExactly(cfg: Config, steps: seq<Step>, t: nat)
    requires ValidConfig(cfg) && Run(cfg, steps).Reached? && Enabled(Run(cfg, steps).state, FlushCheck(t))
    requires !(Run(cfg, steps).state.started && !Run(cfg, steps).state.stopped)
    ensures var s := Run(cfg, steps).state;
            (forall more :: DeliversAtReturn(cfg, Apply(cfg, s, FlushCheck(t)), t, |s.accepted|, more))
            <==> NoneHeld(s) && s.buffer == [] && s.batch == []
  {
    RunInv(cfg, steps);
    var s := Run(cfg, steps).state;
    var s', mark := Apply(cfg, s, FlushCheck(t)), |s.accepted|;
    StepKeepsInv(cfg, s, FlushCheck(t));
    SameHolders(cfg, s, t);
    if NoneHeld(s) && s.buffer == [] && s.batch == [] {
      NowhereElse(cfg, s');
      forall more ensures DeliversAtReturn(cfg, s', t, mark, more) {
        if Play(cfg, s', more).Reached? { ShippedStays(cfg, s', mark, more); }
      }
    } else {
      var more;
      if s.batch != [] { more := HolderBreaksIdle(cfg, s', t, t); }
      else if s.buffer != [] { more := OtherBreaksIdle(cfg, s', t); }
      else {
        var u: nat :| Held(At(s', u)) != [];
        more := HolderBreaksIdle(cfg, s', t, u);
      }
      assert !DeliversAtReturn(cfg, s', t, mark, more);
    }
  }
}
