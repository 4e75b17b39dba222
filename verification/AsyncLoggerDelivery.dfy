/** What the asynchronous logger delivers, over every run: exactly once, in order, and what
    a returning Flush or Stop can count on. */
module AsyncLoggerDelivery {
  import opened Sorting
  import opened AsyncLogger

  ghost predicate Somewhere(s: State, k: nat) {
    exists p: Place :: k in Contents(s, p)
  }

  /** In every interleaving each accepted record is in exactly one of the buffer, a
      drainer's batch and the sink, once; nothing else is in any of them; and the calls of
      Log are the accepted and the dropped records and the callers still inside it. */
  lemma ExactlyOnce(cfg: Config, steps: seq<Step>)
    requires ValidConfig(cfg) && Run(cfg, steps).Reached?
    ensures var s := Run(cfg, steps).state;
            && |s.buffer| <= cfg.size
            && s.calls == |s.accepted| + s.dropped + |Logging(s.pcs)|
            && (forall p: Place :: Distinct(Contents(s, p)))
            && (forall p: Place, q: Place, k: nat :: k in Contents(s, p) && k in Contents(s, q) ==> p == q)
            && (forall k: nat :: Somewhere(s, k) <==> k < |s.accepted|)
  {
    RunInv(cfg, steps);
    var s := Run(cfg, steps).state;
    forall p: Place, q: Place, k: nat | k in Contents(s, p) && k in Contents(s, q) ensures p == q {
      assert HoldsExactly(Contents(s, p), s.place, p) && HoldsExactly(Contents(s, q), s.place, q);
    }
    forall k: nat ensures Somewhere(s, k) <==> k < |s.accepted| {
      if k < |s.accepted| {
        assert HoldsExactly(Contents(s, s.place[k]), s.place, s.place[k]);
      }
    }
  }

  // ---- Order ----

  function UpTo(n: nat): seq<nat> {
    seq(n, i => i)
  }

  ghost predicate Ordered(s: State) {
    s.shipped + s.batch + s.buffer == UpTo(|s.accepted|) && forall t: nat :: Held(At(s, t)) == []
  }

  lemma UpToGrows(shipped: seq<nat>, batch: seq<nat>, buffer: seq<nat>, n: nat)
    requires shipped + batch + buffer == UpTo(n)
    ensures shipped + batch + (buffer + [n]) == UpTo(n + 1)
  {
    assert shipped + batch + (buffer + [n]) == (shipped + batch + buffer) + [n];
  }

  lemma SendKeepsOrder(cfg: Config, s: State, t: nat)
    requires Ordered(s) && At(s, t).LogChecked?
    ensures Ordered(Send(cfg, s, t, At(s, t).record))
  {
    var s' := Send(cfg, s, t, At(s, t).record);
    forall u: nat ensures Held(At(s', u)) == [] {
      assert u != t ==> At(s', u) == At(s, u);
    }
    UpToGrows(s.shipped, s.batch, s.buffer, |s.accepted|);
  }

  lemma DrainReceiveKeepsOrder(cfg: Config, s: State)
    requires Ordered(s) && s.buffer != []
    ensures Ordered(DrainReceived(cfg, s))
  {
    var s' := DrainReceived(cfg, s);
    assert forall t: nat :: At(s', t) == At(s, t);
    assert s'.shipped + s'.batch + s'.buffer == s.shipped + s.batch + s.buffer;
  }

  lemma DrainWriteKeepsOrder(cfg: Config, s: State)
    requires Ordered(s) && s.batch != []
    ensures Ordered(DrainWrote(cfg, s))
  {
    var s' := DrainWrote(cfg, s);
    assert forall t: nat :: At(s', t) == At(s, t);
    assert s'.shipped + s'.batch == s.shipped + s.batch;
  }

  lemma StepKeepsOrder(cfg: Config, s: State, step: Step)
    requires Enabled(s, step) && !step.SyncReceive? && Ordered(s)
    requires Acking(s.drain) ==> At(s, s.drain.flusher).FlushAwaitAck?
    ensures Ordered(Apply(cfg, s, step))
  {
    if step.LogSend? { SendKeepsOrder(cfg, s, step.caller); }
    else if step.DrainReceive? { DrainReceiveKeepsOrder(cfg, s); }
    else if step.DrainWrite? { DrainWriteKeepsOrder(cfg, s); }
    else if step.SyncWrite? { assert false; }
    else if OfDrain(step) { QuietDrainStep(cfg, s, step); }
    else { QuietCallerStep(cfg, s, step); }
  }

  /** With the goroutine as the only consumer, sink, batch and buffer spell out the
      accepted records in the order of acceptance. */
  lemma {:induction false} InOrder(cfg: Config, steps: seq<Step>)
    requires ValidConfig(cfg) && Run(cfg, steps).Reached?
    requires forall i :: 0 <= i < |steps| ==> !steps[i].SyncReceive?
    ensures Ordered(Run(cfg, steps).state)
  {
    if steps != [] {
      var n := |steps| - 1;
      InOrder(cfg, steps[..n]);
      RunInv(cfg, steps[..n]);
      var s := Run(cfg, steps[..n]).state;
      assert Acking(s.drain) ==> CallerOk(s, s.drain.flusher);
      StepKeepsOrder(cfg, s, steps[n]);
    }
  }

  // ---- Flush and Stop ----

  predicate InSync(pc: Pc) {
    pc.SyncReading? || pc.SyncWriting?
  }

  /** A Flush that returns by its ack, or because it saw the goroutine gone, leaves every
      record accepted before it was called in the sink or in the hands of a caller inside
      drainBufferedSync. So all of them are in the sink exactly when no such caller holds
      one of them, and in particular when no caller is inside drainBufferedSync. */
  lemma FlushDelivers(cfg: Config, steps: seq<Step>, t: nat)
    requires ValidConfig(cfg) && Run(cfg, steps).Reached?
    requires var pc := At(Run(cfg, steps).state, t); pc.FlushReturned? && pc.path != ViaIdle
    ensures var s := Run(cfg, steps).state;
            var mark := At(s, t).mark;
            && mark <= |s.accepted|
            && (forall k :: 0 <= k < mark ==> k in s.shipped || exists u: nat :: k in Held(At(s, u)))
            && ((forall k :: 0 <= k < mark ==> k in s.shipped)
                <==> (forall u: nat, k: nat :: k in Held(At(s, u)) ==> mark <= k))
            && ((forall u: nat :: !InSync(At(s, u))) ==> forall k :: 0 <= k < mark ==> k in s.shipped)
  {
    RunInv(cfg, steps);
    var s := Run(cfg, steps).state;
    assert FlushOk(s, t);
    SettledMeans(s, At(s, t).mark);
  }

  /** A caller inside drainBufferedSync is the only thing between a settled record and the
      sink. */
  lemma SettledMeans(s: State, mark: nat)
    requires Located(s) && Settled(s.place, mark)
    ensures forall k :: 0 <= k < mark ==> k in s.shipped || exists u: nat :: k in Held(At(s, u))
    ensures (forall k :: 0 <= k < mark ==> k in s.shipped)
            <==> (forall u: nat, k: nat :: k in Held(At(s, u)) ==> mark <= k)
  {
    assert HoldsExactly(Contents(s, InSink), s.place, InSink);
    forall k | 0 <= k < mark
      ensures k in s.shipped || exists u: nat :: k in Held(At(s, u))
    {
      if s.place[k].InCaller? {
        var u := s.place[k].caller;
        assert HoldsExactly(Contents(s, InCaller(u)), s.place, InCaller(u));
        assert k in Held(At(s, u));
      }
    }
    forall u: nat, k: nat | k in Held(At(s, u)) ensures k !in s.shipped {
      assert HoldsExactly(Contents(s, InCaller(u)), s.place, InCaller(u));
    }
    if forall k :: 0 <= k < mark ==> k in s.shipped {
      forall u: nat, k: nat | k in Held(At(s, u)) ensures mark <= k {
        assert k < mark ==> k in s.shipped;
      }
    }
  }

  ghost predicate LogBetween(s: State) {
    exists t: nat :: At(s, t).LogChecked?
  }

  /** Nothing is left to write but what callers inside drainBufferedSync hold, and nothing
      more can be accepted once the logger is stopped. */
  ghost predicate Drained(s: State) {
    s.buffer == [] && s.batch == [] && (s.closed || !LogBetween(s))
  }

  /** With buffer and batch empty every accepted record is in the sink, but for callers
      still inside drainBufferedSync; if the goroutine was the only consumer, the sink is
      the accepted sequence, in order. */
  lemma EmptyDelivers(cfg: Config, steps: seq<Step>)
    requires ValidConfig(cfg) && Run(cfg, steps).Reached?
    requires var s := Run(cfg, steps).state; s.buffer == [] && s.batch == []
    ensures var s := Run(cfg, steps).state;
            && ((forall u: nat :: !InSync(At(s, u))) ==>
                  Distinct(s.shipped) && forall k: nat :: k < |s.accepted| <==> k in s.shipped)
            && ((forall i :: 0 <= i < |steps| ==> !steps[i].SyncReceive?) ==> s.shipped == UpTo(|s.accepted|))
  {
    RunInv(cfg, steps);
    var s := Run(cfg, steps).state;
    EmptyBufferTakes(s);
    SettledMeans(s, |s.place|);
    assert HoldsExactly(Contents(s, InSink), s.place, InSink);
    if forall i :: 0 <= i < |steps| ==> !steps[i].SyncReceive? {
      InOrder(cfg, steps);
      assert s.shipped + s.batch + s.buffer == s.shipped;
    }
  }

  /** When the Stop that closed the buffer returns, the goroutine is gone and nothing is
      left in buffer or batch; any Stop that returns to such a state delivered. */
  lemma StopDelivers(cfg: Config, steps: seq<Step>, t: nat)
    requires ValidConfig(cfg) && Run(cfg, steps).Reached?
    requires At(Run(cfg, steps).state, t).StopReturned?
    ensures var s := Run(cfg, steps).state;
            && (At(s, t).closing ==> Drained(s) && s.done && s.closed)
            && (Drained(s) ==>
                  && ((forall u: nat :: !InSync(At(s, u))) ==>
                        Distinct(s.shipped) && forall k: nat :: k < |s.accepted| <==> k in s.shipped)
                  && ((forall i :: 0 <= i < |steps| ==> !steps[i].SyncReceive?) ==> s.shipped == UpTo(|s.accepted|)))
  {
    RunInv(cfg, steps);
    var s := Run(cfg, steps).state;
    assert CallerOk(s, t);
    if Drained(s) { EmptyDelivers(cfg, steps); }
  }

  /** A Flush that found no goroutine running leaves the records accepted before it in the
      sink, in the goroutine's batch or with another caller: all of them are in the sink
      exactly when neither holds one of them. */
  lemma IdleFlushDelivers(cfg: Config, steps: seq<Step>, t: nat)
    requires ValidConfig(cfg) && Run(cfg, steps).Reached?
    requires At(Run(cfg, steps).state, t).FlushReturned?
    ensures var s := Run(cfg, steps).state;
            var mark := At(s, t).mark;
            && (forall k :: 0 <= k < mark ==> k !in s.buffer)
            && ((forall k :: 0 <= k < mark ==> k in s.shipped)
                <==> (forall k: nat :: k in s.batch ==> mark <= k)
                     && (forall u: nat, k: nat :: k in Held(At(s, u)) ==> mark <= k))
  {
    RunInv(cfg, steps);
    var s := Run(cfg, steps).state;
    assert FlushOk(s, t);
    var mark := At(s, t).mark;
    assert HoldsExactly(Contents(s, InBuffer), s.place, InBuffer);
    assert HoldsExactly(Contents(s, InDrain), s.place, InDrain);
    assert HoldsExactly(Contents(s, InSink), s.place, InSink);
    forall u: nat, k: nat | k in Held(At(s, u)) ensures k !in s.shipped {
      assert HoldsExactly(Contents(s, InCaller(u)), s.place, InCaller(u));
    }
    if (forall k: nat :: k in s.batch ==> mark <= k) && (forall u: nat, k: nat :: k in Held(At(s, u)) ==> mark <= k) {
      assert Settled(s.place, mark) by {
        forall k | 0 <= k < mark ensures !s.place[k].InDrain? { assert s.place[k].InDrain? ==> k in s.batch; }
      }
      SettledMeans(s, mark);
    } else if forall k :: 0 <= k < mark ==> k in s.shipped {
      forall k: nat | k in s.batch ensures mark <= k { assert k < mark ==> k in s.shipped; }
      forall u: nat, k: nat | k in Held(At(s, u)) ensures mark <= k { assert k < mark ==> k in s.shipped; }
    }
  }
}
