/** How the drain goroutine batches: when it holds a record back and what one write takes. */
module AsyncLoggerBatches {
  import opened AsyncLogger

  /** Outside a flush the batch is at most the batch size, and the goroutine that is not
      writing has room in it. */
  ghost predicate BatchOk(cfg: Config, s: State) {
    s.drain.Select? || s.drain.Range? ==>
      |s.batch| <= cfg.batchSize && (!s.writing ==> |s.batch| < cfg.batchSize)
  }

  lemma DrainStepKeepsBatch(cfg: Config, s: State, step: Step)
    requires ValidConfig(cfg) && DrainOk(cfg, s) && BatchOk(cfg, s) && Enabled(s, step) && OfDrain(step)
    ensures BatchOk(cfg, Apply(cfg, s, step))
  {
    if step.DrainReceive? { }
    else if step.DrainEmpty? { }
    else if step.DrainWrite? { }
    else if step.DrainAck? { }
  }

  lemma SyncStepKeepsBatch(cfg: Config, s: State, step: Step)
    requires Enabled(s, step) && OfSync(step) && BatchOk(cfg, s)
    ensures BatchOk(cfg, Apply(cfg, s, step))
  {
    if step.SyncReceive? { }
    else if step.SyncEmpty? { }
    else if step.SyncWrite? { }
  }

  lemma StopStepKeepsBatch(cfg: Config, s: State, step: Step)
    requires Enabled(s, step) && OfStop(step) && BatchOk(cfg, s)
    ensures BatchOk(cfg, Apply(cfg, s, step))
  {
    if step.StopCheck? { }
    else if step.StopClose? { }
    else if step.StopSeeDone? { }
    else if step.StopCloseDone? { }
  }

  lemma StepKeepsBatch(cfg: Config, s: State, step: Step)
    requires ValidConfig(cfg) && DrainOk(cfg, s) && BatchOk(cfg, s) && Enabled(s, step)
    ensures BatchOk(cfg, Apply(cfg, s, step))
  {
    if OfDrain(step) { DrainStepKeepsBatch(cfg, s, step); }
    else if OfSync(step) { SyncStepKeepsBatch(cfg, s, step); }
    else if OfStop(step) { StopStepKeepsBatch(cfg, s, step); }
    else if step.Start? { }
    else if OfLog(step) { }
  }

  /** Over every run, outside a flush, no batch exceeds the batch size, and as soon as it has
      that many records the goroutine writes. */
  lemma {:induction false} BatchBounded(cfg: Config, steps: seq<Step>)
    requires ValidConfig(cfg) && Run(cfg, steps).Reached?
    ensures var s := Run(cfg, steps).state;
            s.drain.Select? || s.drain.Range? ==>
              |s.batch| <= cfg.batchSize && (|s.batch| == cfg.batchSize ==> s.writing)
  {
    RunKeepsBatch(cfg, steps);
  }

  lemma {:induction false} RunKeepsBatch(cfg: Config, steps: seq<Step>)
    requires ValidConfig(cfg) && Run(cfg, steps).Reached?
    ensures BatchOk(cfg, Run(cfg, steps).state)
  {
    if steps != [] {
      var n := |steps| - 1;
      RunKeepsBatch(cfg, steps[..n]);
      RunInv(cfg, steps[..n]);
      StepKeepsBatch(cfg, Run(cfg, steps[..n]).state, steps[n]);
    }
  }

  /** A record that the goroutine takes goes behind its batch; outside a flush the batch is
      written exactly when that fills it. */
  lemma ReceiveDecides(cfg: Config, steps: seq<Step>)
    requires ValidConfig(cfg) && Run(cfg, steps).Reached? && Enabled(Run(cfg, steps).state, DrainReceive)
    ensures var s := Run(cfg, steps).state;
            var s' := Apply(cfg, s, DrainReceive);
            && s'.batch == s.batch + [s.buffer[0]] && s'.buffer == s.buffer[1..] && s'.drain == s.drain
            && (s'.writing <==> !s.drain.Sweep? && |s.batch| + 1 == cfg.batchSize)
  {
    RunKeepsBatch(cfg, steps);
  }

  /** A tick, a close of the buffer and the end of a flush's sweep have it written, however
      short it is; until it is empty nothing is received. */
  lemma OthersWrite(cfg: Config, s: State, step: Step)
    requires Enabled(s, step) && (step.DrainTick? || step.DrainEmpty?)
    ensures var s' := Apply(cfg, s, step);
            && s'.batch == s.batch && s'.buffer == s.buffer && s'.writing
            && !Enabled(s', DrainReceive) && (s.batch != [] ==> Enabled(s', DrainWrite) && !Enabled(s', DrainWritten))
  {
  }

  /** One write takes the whole batch to a batching sink, and to any other the first record. */
  lemma WriteExactly(cfg: Config, s: State)
    requires Enabled(s, DrainWrite)
    ensures var s' := Apply(cfg, s, DrainWrite);
            if cfg.batching then s'.shipped == s.shipped + s.batch && s'.batch == []
            else s'.shipped == s.shipped + [s.batch[0]] && s'.batch == s.batch[1..]
  {
    assert s.batch[..|s.batch|] == s.batch && s.batch[|s.batch|..] == [] && s.batch[..1] == [s.batch[0]];
  }
}
