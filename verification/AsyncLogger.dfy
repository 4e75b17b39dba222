/** The asynchronous audit logger (go/middleware/async_logger.go) as a step system.

    Callers run Start, Log, Flush and Stop; one drain goroutine runs beside them. Every
    access to shared state is one step, and a run is any sequence of enabled steps, so a
    statement about all runs covers every interleaving. Each accepted record gets a ticket,
    its position in the order of acceptance, and the places a record can be hold tickets. */
module AsyncLogger {
  import opened Sorting

  type AuditRecord(==, !new)

  const DEFAULT_BUFFER_SIZE: nat := 1024
  const DEFAULT_BATCH_SIZE: nat := 64

  /** `batching` tells whether the sink takes a whole batch in one call. */
  datatype Config = Config(size: nat, batchSize: nat, batching: bool)

  predicate ValidConfig(cfg: Config) {
    0 < cfg.size && 0 < cfg.batchSize
  }

  /** Sizes that are not positive fall back to the defaults, positive ones are kept. */
  function NewConfig(bufferSize: int, batchSize: int, batching: bool): (cfg: Config)
    ensures ValidConfig(cfg) && cfg.batching == batching
    ensures bufferSize > 0 <==> cfg.size == bufferSize
    ensures batchSize > 0 <==> cfg.batchSize == batchSize
    ensures bufferSize <= 0 ==> cfg.size == 1024
    ensures batchSize <= 0 ==> cfg.batchSize == 64
  {
    Config(if bufferSize <= 0 then DEFAULT_BUFFER_SIZE else bufferSize,
           if batchSize <= 0 then DEFAULT_BATCH_SIZE else batchSize, batching)
  }

  /** Where the drain goroutine is: its outer select, the loop over a closed buffer, the
      sweep for a flush request, or about to close that request's ack. */
  datatype DrainPc =
    | Off
    | Select
    | Range
    | Sweep(flusher: nat)
    | Ack(flusher: nat)
    | AckExit(flusher: nat)
    | Exiting
    | Exited

  /** How a Flush returns: its ack was closed, it saw the goroutine gone, or it found no
      goroutine running in the first place. */
  datatype Path = ViaAck | ViaDone | ViaIdle

  /** What a caller inside drainBufferedSync does next. A flush carries as its mark the
      number of records accepted before it was called. */
  datatype After = AfterFlush(mark: nat, path: Path) | AfterStop

  /** A Stop that found the logger stopped already returns at once, without closing. */
  datatype Pc =
    | Idle
    | LogChecked(record: AuditRecord)
    | LogDropping
    | FlushWaiting(mark: nat)
    | FlushAwaitAck(mark: nat)
    | SyncReading(batch: seq<nat>, after: After)
    | SyncWriting(batch: seq<nat>, after: After)
    | FlushReturned(mark: nat, path: Path)
    | StopClosing(wasStarted: bool)
    | StopWaiting
    | StopClosingDone
    | StopReturned(closing: bool)

  datatype Place = InBuffer | InDrain | InSink | InCaller(caller: nat)

  /** `shipped` is what was handed to the sink, in order. `place`, `accepted` and `calls`
      are history: they never influence a step. */
  datatype State = State(
    started: bool, stopped: bool, closed: bool, done: bool, panicked: bool,
    buffer: seq<nat>, drain: DrainPc, batch: seq<nat>, writing: bool, shipped: seq<nat>,
    dropped: nat, pcs: map<nat, Pc>,
    accepted: seq<AuditRecord>, place: seq<Place>, calls: nat)

  const Initial := State(false, false, false, false, false,
                         [], Off, [], false, [], 0, map[], [], [], 0)

  function At(s: State, t: nat): Pc {
    if t in s.pcs then s.pcs[t] else Idle
  }

  function Goto(s: State, t: nat, pc: Pc): State {
    s.(pcs := s.pcs[t := pc])
  }

  function Held(pc: Pc): seq<nat> {
    if pc.SyncReading? || pc.SyncWriting? then pc.batch else []
  }

  function Contents(s: State, p: Place): seq<nat> {
    match p
    case InBuffer => s.buffer
    case InDrain => s.batch
    case InSink => s.shipped
    case InCaller(t) => Held(At(s, t))
  }

  function Relocate(place: seq<Place>, ks: seq<nat>, p: Place): seq<Place> {
    seq(|place|, i requires 0 <= i < |place| => if i in ks then p else place[i])
  }

  datatype Step =
    | Start
    | LogCheck(caller: nat, record: AuditRecord)
    | LogSend(caller: nat)
    | LogDrop(caller: nat)
    | FlushCheck(caller: nat)
    | FlushSeeDone(caller: nat)
    | SyncReceive(caller: nat)
    | SyncEmpty(caller: nat)
    | SyncWrite(caller: nat)
    | SyncReturn(caller: nat)
    | StopCheck(caller: nat)
    | StopClose(caller: nat)
    | StopSeeDone(caller: nat)
    | StopCloseDone(caller: nat)
    | Return(caller: nat)
    | DrainReceive
    | DrainEmpty
    | DrainFlushRequest(flusher: nat)
    | DrainTick
    | DrainWrite
    | DrainWritten
    | DrainAck
    | DrainExit

  predicate Receiving(d: DrainPc) {
    d.Select? || d.Range? || d.Sweep?
  }

  predicate Acking(d: DrainPc) {
    d.Ack? || d.AckExit?
  }

  predicate Enabled(s: State, step: Step) {
    !s.panicked &&
    match step
    case Start => true
    case LogCheck(t, _) => At(s, t).Idle?
    case LogSend(t) => At(s, t).LogChecked?
    case LogDrop(t) => At(s, t).LogDropping?
    case FlushCheck(t) => At(s, t).Idle?
    case FlushSeeDone(t) => At(s, t).FlushWaiting? && s.done
    case SyncReceive(t) => At(s, t).SyncReading? && s.buffer != []
    case SyncEmpty(t) => At(s, t).SyncReading? && s.buffer == []
    case SyncWrite(t) => At(s, t).SyncWriting? && At(s, t).batch != []
    case SyncReturn(t) => At(s, t).SyncWriting? && At(s, t).batch == []
    case StopCheck(t) => At(s, t).Idle?
    case StopClose(t) => At(s, t).StopClosing?
    case StopSeeDone(t) => At(s, t).StopWaiting? && s.done
    case StopCloseDone(t) => At(s, t).StopClosingDone?
    case Return(t) => At(s, t).FlushReturned? || At(s, t).StopReturned?
    case DrainReceive => Receiving(s.drain) && !s.writing && s.buffer != []
    case DrainEmpty => Receiving(s.drain) && !s.writing && s.buffer == [] && (s.closed || s.drain.Sweep?)
    case DrainFlushRequest(t) => s.drain.Select? && !s.writing && At(s, t).FlushWaiting?
    case DrainTick => s.drain.Select? && !s.writing
    case DrainWrite => s.writing && s.batch != []
    case DrainWritten => s.writing && s.batch == []
    case DrainAck => Acking(s.drain) && !s.writing
    case DrainExit => s.drain.Exiting? && !s.writing
  }

  /** Writing goes record by record, or the whole batch at once to a batching sink. */
  function Chunk(cfg: Config, batch: seq<nat>): (n: nat)
    requires batch != []
    ensures 0 < n <= |batch|
  {
    if cfg.batching then |batch| else 1
  }

  function Send(cfg: Config, s: State, t: nat, record: AuditRecord): State {
    if s.closed then s.(panicked := true)
    else if |s.buffer| < cfg.size then
      Goto(s, t, Idle).(buffer := s.buffer + [|s.accepted|],
                        accepted := s.accepted + [record], place := s.place + [InBuffer])
    else Goto(s, t, LogDropping)
  }

  function DrainReceived(cfg: Config, s: State): State
    requires s.buffer != []
  {
    var batch := s.batch + [s.buffer[0]];
    s.(buffer := s.buffer[1..], batch := batch, place := Relocate(s.place, s.buffer[..1], InDrain),
       writing := !s.drain.Sweep? && |batch| >= cfg.batchSize)
  }

  /** The buffer had nothing to give: where the goroutine goes after writing its batch. */
  function AfterEmpty(s: State): DrainPc
    requires Receiving(s.drain)
  {
    match s.drain
    case Select => Range
    case Range => Exiting
    case Sweep(t) => if s.closed then AckExit(t) else Ack(t)
  }

  function DrainWrote(cfg: Config, s: State): State
    requires s.batch != []
  {
    var n := Chunk(cfg, s.batch);
    s.(batch := s.batch[n..], shipped := s.shipped + s.batch[..n],
       place := Relocate(s.place, s.batch[..n], InSink))
  }

  function SyncReceived(s: State, t: nat): State
    requires At(s, t).SyncReading? && s.buffer != []
  {
    var pc := At(s, t);
    Goto(s, t, SyncReading(pc.batch + [s.buffer[0]], pc.after))
      .(buffer := s.buffer[1..], place := Relocate(s.place, s.buffer[..1], InCaller(t)))
  }

  function SyncWrote(cfg: Config, s: State, t: nat): State
    requires At(s, t).SyncWriting? && At(s, t).batch != []
  {
    var pc := At(s, t);
    var n := Chunk(cfg, pc.batch);
    Goto(s, t, SyncWriting(pc.batch[n..], pc.after))
      .(shipped := s.shipped + pc.batch[..n], place := Relocate(s.place, pc.batch[..n], InSink))
  }

  function AfterSync(after: After): Pc {
    match after
    case AfterFlush(mark, path) => FlushReturned(mark, path)
    case AfterStop => StopClosingDone
  }

  function Acked(s: State): State
    requires Acking(s.drain)
  {
    var t := s.drain.flusher;
    var pc := At(s, t);
    Goto(s, t, FlushReturned(if pc.FlushAwaitAck? then pc.mark else 0, ViaAck))
      .(drain := if s.drain.Ack? then Select else Exiting)
  }

  function Apply(cfg: Config, s: State, step: Step): State
    requires Enabled(s, step)
  {
    match step
    case Start => if s.started || s.stopped then s else s.(started := true, drain := Select)
    case LogCheck(t, r) =>
      Goto(s, t, if s.stopped then LogDropping else LogChecked(r)).(calls := s.calls + 1)
    case LogSend(t) => Send(cfg, s, t, At(s, t).record)
    case LogDrop(t) => Goto(s, t, Idle).(dropped := s.dropped + 1)
    case FlushCheck(t) =>
      Goto(s, t, if s.started && !s.stopped then FlushWaiting(|s.accepted|)
                 else SyncReading([], AfterFlush(|s.accepted|, ViaIdle)))
    case FlushSeeDone(t) => Goto(s, t, SyncReading([], AfterFlush(At(s, t).mark, ViaDone)))
    case SyncReceive(t) => SyncReceived(s, t)
    case SyncEmpty(t) => Goto(s, t, SyncWriting(At(s, t).batch, At(s, t).after))
    case SyncWrite(t) => SyncWrote(cfg, s, t)
    case SyncReturn(t) => Goto(s, t, AfterSync(At(s, t).after))
    case StopCheck(t) =>
      if s.stopped then Goto(s, t, StopReturned(false)) else Goto(s, t, StopClosing(s.started)).(stopped := true)
    case StopClose(t) =>
      if s.closed then s.(panicked := true)
      else Goto(s, t, if At(s, t).wasStarted then StopWaiting else SyncReading([], AfterStop)).(closed := true)
    case StopSeeDone(t) => Goto(s, t, StopReturned(true))
    case StopCloseDone(t) => if s.done then s.(panicked := true) else Goto(s, t, StopReturned(true)).(done := true)
    case Return(t) => Goto(s, t, Idle)
    case DrainReceive => DrainReceived(cfg, s)
    case DrainEmpty => s.(drain := AfterEmpty(s), writing := true)
    case DrainFlushRequest(t) => Goto(s, t, FlushAwaitAck(At(s, t).mark)).(drain := Sweep(t))
    case DrainTick => s.(writing := true)
    case DrainWrite => DrainWrote(cfg, s)
    case DrainWritten => s.(writing := false)
    case DrainAck => Acked(s)
    case DrainExit => if s.done then s.(panicked := true) else s.(drain := Exited, done := true)
  }

  datatype Outcome = Blocked | Reached(state: State)

  /** The state a sequence of steps leads to, if each is enabled when its turn comes. */
  function Run(cfg: Config, steps: seq<Step>): Outcome {
    if steps == [] then Reached(Initial)
    else
      var n := |steps| - 1;
      var before := Run(cfg, steps[..n]);
      if before.Reached? && Enabled(before.state, steps[n])
      then Reached(Apply(cfg, before.state, steps[n])) else Blocked
  }

  /** The state after playing `more` from s, if each step is enabled in turn. */
  function Play(cfg: Config, s: State, more: seq<Step>): Outcome
    decreases |more|
  {
    if more == [] then Reached(s)
    else if Enabled(s, more[0]) then Play(cfg, Apply(cfg, s, more[0]), more[1..])
    else Blocked
  }

  // ---- Exactly one place ----

  /** A place with these contents holds each of its tickets once, and holds exactly the
      tickets whose place it is. */
  ghost predicate HoldsExactly(ks: seq<nat>, place: seq<Place>, p: Place) {
    && Distinct(ks)
    && (forall i :: 0 <= i < |ks| ==> ks[i] < |place| && place[ks[i]] == p)
    && (forall k :: 0 <= k < |place| && place[k] == p ==> k in ks)
  }

  ghost predicate Located(s: State) {
    |s.place| == |s.accepted| && forall p: Place :: HoldsExactly(Contents(s, p), s.place, p)
  }

  lemma MoveBetween(place: seq<Place>, from: seq<nat>, into: seq<nat>, p: Place, q: Place, n: nat)
    requires p != q && n <= |from|
    requires HoldsExactly(from, place, p) && HoldsExactly(into, place, q)
    ensures HoldsExactly(from[n..], Relocate(place, from[..n], q), p)
    ensures HoldsExactly(into + from[..n], Relocate(place, from[..n], q), q)
  {
    var moved, kept := from[..n], from[n..];
    var place' := Relocate(place, moved, q);
    assert from == moved + kept;
    forall i | 0 <= i < |kept| ensures kept[i] !in moved {
      assert kept[i] == from[n + i];
    }
    forall i | 0 <= i < |moved| ensures moved[i] !in into {
      assert moved[i] == from[i];
    }
    var grown := into + moved;
    forall i | 0 <= i < |grown| ensures grown[i] < |place'| && place'[grown[i]] == q {
      if i < |into| { assert grown[i] == into[i]; } else { assert grown[i] == moved[i - |into|]; }
    }
    forall k | 0 <= k < |place'| && place'[k] == q ensures k in grown {
      assert k in moved || k in into;
    }
  }

  lemma MoveElsewhere(place: seq<Place>, from: seq<nat>, other: seq<nat>, p: Place, q: Place, r: Place, n: nat)
    requires r != p && r != q && n <= |from|
    requires HoldsExactly(from, place, p) && HoldsExactly(other, place, r)
    ensures HoldsExactly(other, Relocate(place, from[..n], q), r)
  {
    assert forall i :: 0 <= i < |other| ==> other[i] !in from[..n];
  }

  /** Moving the first n tickets of one place to the end of another keeps every ticket in
      exactly one place. */
  lemma MoveKeepsLocated(s: State, s': State, p: Place, q: Place, n: nat)
    requires Located(s) && p != q && n <= |Contents(s, p)|
    requires s'.accepted == s.accepted
    requires s'.place == Relocate(s.place, Contents(s, p)[..n], q)
    requires Contents(s', p) == Contents(s, p)[n..]
    requires Contents(s', q) == Contents(s, q) + Contents(s, p)[..n]
    requires forall r: Place :: r != p && r != q ==> Contents(s', r) == Contents(s, r)
    ensures Located(s')
  {
    MoveBetween(s.place, Contents(s, p), Contents(s, q), p, q, n);
    forall r: Place ensures HoldsExactly(Contents(s', r), s'.place, r) {
      if r != p && r != q {
        MoveElsewhere(s.place, Contents(s, p), Contents(s, r), p, q, r, n);
      }
    }
  }

  lemma AcceptKeepsLocated(cfg: Config, s: State, t: nat, record: AuditRecord)
    requires Located(s) && !s.closed && |s.buffer| < cfg.size && At(s, t) == LogChecked(record)
    ensures Located(Send(cfg, s, t, record))
  {
    var s' := Send(cfg, s, t, record);
    forall p: Place ensures HoldsExactly(Contents(s', p), s'.place, p) {
      assert HoldsExactly(Contents(s, p), s.place, p);
      if p == InBuffer {
        assert Contents(s', p) == Contents(s, p) + [|s.place|];
        assert |s.place| in Contents(s', p) by { assert Contents(s', p)[|s.buffer|] == |s.place|; }
        forall k | 0 <= k < |s.place| && s.place[k] == p ensures k in Contents(s', p) {
          assert k in Contents(s, p);
        }
      } else {
        assert Contents(s', p) == Contents(s, p);
      }
    }
  }

  lemma KeepsLocated(s: State, s': State)
    requires Located(s) && SameTickets(s, s')
    ensures Located(s')
  {
    forall p: Place ensures HoldsExactly(Contents(s', p), s'.place, p) {
      assert Contents(s', p) == Contents(s, p);
    }
  }

  /** The steps that move or add tickets. */
  predicate Moves(step: Step) {
    step.LogSend? || step.SyncReceive? || step.SyncWrite? || step.DrainReceive? || step.DrainWrite?
  }

  lemma SendKeepsLocated(cfg: Config, s: State, t: nat)
    requires Located(s) && At(s, t).LogChecked?
    ensures Located(Send(cfg, s, t, At(s, t).record))
  {
    if !s.closed && |s.buffer| < cfg.size { AcceptKeepsLocated(cfg, s, t, At(s, t).record); }
    else { KeepsLocated(s, Send(cfg, s, t, At(s, t).record)); }
  }

  lemma SyncReceiveKeepsLocated(s: State, t: nat)
    requires Located(s) && At(s, t).SyncReading? && s.buffer != []
    ensures Located(SyncReceived(s, t))
  {
    MoveKeepsLocated(s, SyncReceived(s, t), InBuffer, InCaller(t), 1);
  }

  lemma SyncWriteKeepsLocated(cfg: Config, s: State, t: nat)
    requires Located(s) && At(s, t).SyncWriting? && At(s, t).batch != []
    ensures Located(SyncWrote(cfg, s, t))
  {
    MoveKeepsLocated(s, SyncWrote(cfg, s, t), InCaller(t), InSink, Chunk(cfg, At(s, t).batch));
  }

  lemma DrainReceiveKeepsLocated(cfg: Config, s: State)
    requires Located(s) && s.buffer != []
    ensures Located(DrainReceived(cfg, s))
  {
    MoveKeepsLocated(s, DrainReceived(cfg, s), InBuffer, InDrain, 1);
  }

  lemma DrainWriteKeepsLocated(cfg: Config, s: State)
    requires Located(s) && s.batch != []
    ensures Located(DrainWrote(cfg, s))
  {
    MoveKeepsLocated(s, DrainWrote(cfg, s), InDrain, InSink, Chunk(cfg, s.batch));
  }

  ghost predicate SameTickets(s: State, s': State) {
    && s'.accepted == s.accepted && s'.place == s.place
    && s'.buffer == s.buffer && s'.batch == s.batch && s'.shipped == s.shipped
    && forall t: nat :: Held(At(s', t)) == Held(At(s, t))
  }

  predicate OfDrain(step: Step) {
    step.DrainReceive? || step.DrainEmpty? || step.DrainFlushRequest? || step.DrainTick?
    || step.DrainWrite? || step.DrainWritten? || step.DrainAck? || step.DrainExit?
  }

  predicate OfSync(step: Step) {
    step.SyncReceive? || step.SyncEmpty? || step.SyncWrite? || step.SyncReturn?
  }

  predicate OfStop(step: Step) {
    step.StopCheck? || step.StopClose? || step.StopSeeDone? || step.StopCloseDone?
  }

  predicate OfLog(step: Step) {
    step.LogCheck? || step.LogSend? || step.LogDrop?
  }

  lemma QuietDrainStep(cfg: Config, s: State, step: Step)
    requires Enabled(s, step) && OfDrain(step) && !Moves(step)
    requires Acking(s.drain) ==> At(s, s.drain.flusher).FlushAwaitAck?
    ensures SameTickets(s, Apply(cfg, s, step))
  {
  }

  lemma QuietCallerStep(cfg: Config, s: State, step: Step)
    requires Enabled(s, step) && !OfDrain(step) && !Moves(step)
    ensures SameTickets(s, Apply(cfg, s, step))
  {
    if OfStop(step) { QuietStopStep(cfg, s, step); }
    else if OfSync(step) { QuietSyncStep(cfg, s, step); }
    else if OfLog(step) { QuietLogStep(cfg, s, step); }
  }

  lemma QuietStopStep(cfg: Config, s: State, step: Step)
    requires Enabled(s, step) && OfStop(step)
    ensures SameTickets(s, Apply(cfg, s, step))
  {
  }

  lemma QuietSyncStep(cfg: Config, s: State, step: Step)
    requires Enabled(s, step) && OfSync(step) && !Moves(step)
    ensures SameTickets(s, Apply(cfg, s, step))
  {
  }

  lemma QuietLogStep(cfg: Config, s: State, step: Step)
    requires Enabled(s, step) && OfLog(step) && !Moves(step)
    ensures SameTickets(s, Apply(cfg, s, step))
  {
  }

  lemma StepKeepsLocated(cfg: Config, s: State, step: Step)
    requires Located(s) && Enabled(s, step)
    requires Acking(s.drain) ==> At(s, s.drain.flusher).FlushAwaitAck?
    ensures Located(Apply(cfg, s, step))
  {
    if Moves(step) {
      MoveStepKeepsLocated(cfg, s, step);
    } else {
      if OfDrain(step) { QuietDrainStep(cfg, s, step); } else { QuietCallerStep(cfg, s, step); }
      KeepsLocated(s, Apply(cfg, s, step));
    }
  }

  lemma MoveStepKeepsLocated(cfg: Config, s: State, step: Step)
    requires Located(s) && Enabled(s, step) && Moves(step)
    ensures Located(Apply(cfg, s, step))
  {
    if step.LogSend? { SendKeepsLocated(cfg, s, step.caller); }
    else if step.SyncReceive? { SyncReceiveKeepsLocated(s, step.caller); }
    else if step.SyncWrite? { SyncWriteKeepsLocated(cfg, s, step.caller); }
    else if step.DrainReceive? { DrainReceiveKeepsLocated(cfg, s); }
    else { DrainWriteKeepsLocated(cfg, s); }
  }

  // ---- Who may be where ----

  predicate Serving(d: DrainPc, t: nat) {
    (d.Sweep? || d.Ack? || d.AckExit?) && d.flusher == t
  }

  /** The goroutine is past the point where the buffer is closed and empty for good. */
  predicate Finishing(d: DrainPc) {
    d.Range? || d.AckExit? || d.Exiting? || d.Exited?
  }

  /** A caller of Stop that set `stopped` and has not returned. */
  predicate Stopping(pc: Pc) {
    pc.StopClosing? || pc.StopWaiting? || pc.StopClosingDone?
    || ((pc.SyncReading? || pc.SyncWriting?) && pc.after.AfterStop?)
  }

  ghost predicate DrainOk(cfg: Config, s: State) {
    && |s.buffer| <= cfg.size
    && (s.started <==> !s.drain.Off?)
    && (s.closed ==> s.stopped)
    && (s.done ==> s.closed && s.buffer == [] && s.batch == [])
    && (s.started ==> (s.done <==> s.drain.Exited?))
    && (Finishing(s.drain) ==> s.closed && s.buffer == [])
    && (s.drain.Off? || s.drain.Exited? ==> s.batch == [] && !s.writing)
    && ((Acking(s.drain) || s.drain.Exiting?) && !s.writing ==> s.batch == [])
  }

  ghost predicate CallerOk(s: State, t: nat) {
    var pc := At(s, t);
    && (Serving(s.drain, t) <==> pc.FlushAwaitAck?)
    && (pc.FlushWaiting? || pc.FlushAwaitAck? ==> s.started)
    && (Stopping(pc) ==> s.stopped && !(s.done && !s.started) && (pc.StopClosing? <==> !s.closed))
    && (pc.StopClosing? ==> pc.wasStarted == s.started)
    && (pc.StopWaiting? ==> s.started)
    && (Stopping(pc) && !pc.StopClosing? && !pc.StopWaiting? ==> !s.started)
    && ((pc.SyncWriting? && pc.after.AfterStop?) || pc.StopClosingDone? ==> s.buffer == [])
    && (pc.StopReturned? && pc.closing ==> s.done)
  }

  ghost predicate OneStopper(s: State) {
    forall t: nat, u: nat :: Stopping(At(s, t)) && Stopping(At(s, u)) ==> t == u
  }

  ghost predicate Control(cfg: Config, s: State) {
    DrainOk(cfg, s) && OneStopper(s) && forall t: nat :: CallerOk(s, t)
  }

  lemma StepKeepsDrainOk(cfg: Config, s: State, step: Step)
    requires ValidConfig(cfg) && Control(cfg, s) && Enabled(s, step)
    ensures DrainOk(cfg, Apply(cfg, s, step))
  {
    match step
    case LogSend(t) =>
    case StopClose(t) => assert CallerOk(s, t);
    case StopCloseDone(t) => assert CallerOk(s, t);
    case DrainAck =>
    case _ =>
  }

  lemma StoppingBegins(cfg: Config, s: State, step: Step, t: nat)
    requires Enabled(s, step) && Stopping(At(Apply(cfg, s, step), t))
    ensures Stopping(At(s, t)) || (!s.stopped && step == StopCheck(t))
  {
    if OfDrain(step) { DrainStopsNone(cfg, s, step, t); }
    else if OfSync(step) { SyncStopsNone(cfg, s, step, t); }
    else if !OfStop(step) { OtherStopsNone(cfg, s, step, t); }
  }

  lemma SyncStopsNone(cfg: Config, s: State, step: Step, t: nat)
    requires Enabled(s, step) && OfSync(step) && Stopping(At(Apply(cfg, s, step), t))
    ensures Stopping(At(s, t))
  {
  }

  lemma OtherStopsNone(cfg: Config, s: State, step: Step, t: nat)
    requires Enabled(s, step) && !OfDrain(step) && !OfSync(step) && !OfStop(step)
    requires Stopping(At(Apply(cfg, s, step), t))
    ensures Stopping(At(s, t))
  {
  }

  lemma DrainStopsNone(cfg: Config, s: State, step: Step, t: nat)
    requires Enabled(s, step) && OfDrain(step) && Stopping(At(Apply(cfg, s, step), t))
    ensures Stopping(At(s, t))
  {
  }

  lemma StepKeepsOneStopper(cfg: Config, s: State, step: Step)
    requires Control(cfg, s) && Enabled(s, step)
    ensures OneStopper(Apply(cfg, s, step))
  {
    var s' := Apply(cfg, s, step);
    forall t: nat, u: nat | Stopping(At(s', t)) && Stopping(At(s', u))
      ensures t == u
    {
      StoppingBegins(cfg, s, step, t);
      StoppingBegins(cfg, s, step, u);
      assert CallerOk(s, t) && CallerOk(s, u);
    }
  }

  lemma DrainStepKeepsCaller(cfg: Config, s: State, step: Step, t: nat)
    requires DrainOk(cfg, s) && CallerOk(s, t) && Enabled(s, step) && OfDrain(step)
    ensures CallerOk(Apply(cfg, s, step), t)
  {
  }

  lemma SyncStepKeepsCaller(cfg: Config, s: State, step: Step, t: nat)
    requires DrainOk(cfg, s) && CallerOk(s, t) && Enabled(s, step) && OfSync(step)
    ensures CallerOk(Apply(cfg, s, step), t)
  {
  }

  lemma StopStepKeepsCaller(cfg: Config, s: State, step: Step, t: nat)
    requires DrainOk(cfg, s) && CallerOk(s, t) && Enabled(s, step) && OfStop(step) && CallerOk(s, step.caller)
    requires Stopping(At(s, t)) && Stopping(At(s, step.caller)) ==> t == step.caller
    ensures CallerOk(Apply(cfg, s, step), t)
  {
  }

  lemma LogStepKeepsCaller(cfg: Config, s: State, step: Step, t: nat)
    requires DrainOk(cfg, s) && CallerOk(s, t) && Enabled(s, step) && OfLog(step)
    ensures CallerOk(Apply(cfg, s, step), t)
  {
  }

  lemma OtherStepKeepsCaller(cfg: Config, s: State, step: Step, t: nat)
    requires DrainOk(cfg, s) && CallerOk(s, t) && Enabled(s, step)
    requires !OfDrain(step) && !OfSync(step) && !OfStop(step) && !OfLog(step)
    ensures CallerOk(Apply(cfg, s, step), t)
  {
  }

  lemma StepKeepsCaller(cfg: Config, s: State, step: Step, t: nat)
    requires Control(cfg, s) && Enabled(s, step)
    ensures CallerOk(Apply(cfg, s, step), t)
  {
    assert CallerOk(s, t);
    if OfDrain(step) { DrainStepKeepsCaller(cfg, s, step, t); }
    else if OfSync(step) { SyncStepKeepsCaller(cfg, s, step, t); }
    else if OfStop(step) { StopStepKeepsCaller(cfg, s, step, t); }
    else if OfLog(step) { LogStepKeepsCaller(cfg, s, step, t); }
    else { OtherStepKeepsCaller(cfg, s, step, t); }
  }

  // ---- What a returning Flush or Stop can count on ----

  /** No ticket below the mark is in the buffer. */
  predicate Taken(place: seq<Place>, mark: nat) {
    mark <= |place| && forall k :: 0 <= k < mark ==> !place[k].InBuffer?
  }

  /** Every ticket below the mark is in the sink or with a caller inside drainBufferedSync. */
  predicate Settled(place: seq<Place>, mark: nat) {
    mark <= |place| && forall k :: 0 <= k < mark ==> place[k].InSink? || place[k].InCaller?
  }

  /** Tickets only move from the buffer to a drainer and from a drainer to the sink. */
  predicate Advances(place: seq<Place>, place': seq<Place>) {
    && |place| <= |place'|
    && forall k :: 0 <= k < |place| ==>
         || place'[k] == place[k]
         || (place[k].InBuffer? && (place'[k].InDrain? || place'[k].InCaller?))
         || (!place[k].InBuffer? && place'[k].InSink?)
  }

  /** The mark of a caller somewhere in Flush, and the path it took. */
  function FlushMark(pc: Pc): nat {
    match pc
    case FlushWaiting(mark) => mark
    case FlushAwaitAck(mark) => mark
    case SyncReading(_, AfterFlush(mark, _)) => mark
    case SyncWriting(_, AfterFlush(mark, _)) => mark
    case FlushReturned(mark, _) => mark
    case _ => 0
  }

  predicate MustBeTaken(pc: Pc, acking: bool) {
    (pc.FlushAwaitAck? && acking) || (pc.SyncWriting? && pc.after.AfterFlush?) || pc.FlushReturned?
  }

  predicate MustBeSettled(pc: Pc) {
    || ((pc.SyncReading? || pc.SyncWriting?) && pc.after.AfterFlush? && pc.after.path != ViaIdle)
    || (pc.FlushReturned? && pc.path != ViaIdle)
  }

  predicate FlushOk(s: State, t: nat) {
    var pc := At(s, t);
    && FlushMark(pc) <= |s.place|
    && (MustBeTaken(pc, Acking(s.drain)) ==> Taken(s.place, FlushMark(pc)))
    && (MustBeSettled(pc) ==> Settled(s.place, FlushMark(pc)))
  }

  lemma StepAdvances(cfg: Config, s: State, step: Step)
    requires Located(s) && Control(cfg, s) && Enabled(s, step)
    ensures Advances(s.place, Apply(cfg, s, step).place)
  {
    if Moves(step) {
      assert HoldsExactly(Contents(s, InBuffer), s.place, InBuffer);
      assert HoldsExactly(Contents(s, InDrain), s.place, InDrain);
      assert step.SyncWrite? ==> HoldsExactly(Contents(s, InCaller(step.caller)), s.place, InCaller(step.caller));
    } else if OfDrain(step) {
      assert Acking(s.drain) ==> CallerOk(s, s.drain.flusher);
      QuietDrainStep(cfg, s, step);
    } else {
      QuietCallerStep(cfg, s, step);
    }
  }

  lemma EmptyBufferTakes(s: State)
    requires Located(s) && s.buffer == []
    ensures Taken(s.place, |s.place|)
    ensures s.batch == [] ==> Settled(s.place, |s.place|)
  {
    assert HoldsExactly(Contents(s, InBuffer), s.place, InBuffer);
    assert HoldsExactly(Contents(s, InDrain), s.place, InDrain);
  }

  lemma EmptyBatchSettles(s: State, mark: nat)
    requires Located(s) && s.batch == [] && Taken(s.place, mark)
    ensures Settled(s.place, mark)
  {
    assert HoldsExactly(Contents(s, InDrain), s.place, InDrain);
  }

  /** How one step may change what a flushing caller is owed. */
  ghost predicate Owes(s: State, s': State, t: nat) {
    var pc, pc' := At(s, t), At(s', t);
    var acking, acking' := Acking(s.drain), Acking(s'.drain);
    && (FlushMark(pc') == FlushMark(pc) || FlushMark(pc') == 0
        || (FlushMark(pc') == |s.place| && !MustBeTaken(pc', acking') && !MustBeSettled(pc')))
    && (MustBeTaken(pc', acking') ==> MustBeTaken(pc, acking) || s.buffer == [])
    && (MustBeSettled(pc') ==>
          || MustBeSettled(pc) || (s.buffer == [] && s.batch == [])
          || (MustBeTaken(pc, acking) && s.batch == []))
  }

  lemma DrainStepOwes(cfg: Config, s: State, step: Step, t: nat)
    requires Enabled(s, step) && CallerOk(s, t) && DrainOk(cfg, s) && OfDrain(step)
    ensures Owes(s, Apply(cfg, s, step), t)
  {
  }

  lemma SyncStepOwes(cfg: Config, s: State, step: Step, t: nat)
    requires |s.place| == |s.accepted| && Enabled(s, step) && DrainOk(cfg, s) && OfSync(step)
    ensures Owes(s, Apply(cfg, s, step), t)
  {
  }

  lemma StopStepOwes(cfg: Config, s: State, step: Step, t: nat)
    requires |s.place| == |s.accepted| && Enabled(s, step) && DrainOk(cfg, s) && OfStop(step)
    ensures Owes(s, Apply(cfg, s, step), t)
  {
  }

  lemma CallerStepOwes(cfg: Config, s: State, step: Step, t: nat)
    requires |s.place| == |s.accepted| && Enabled(s, step) && DrainOk(cfg, s)
    requires !OfDrain(step) && !OfSync(step) && !OfStop(step)
    ensures Owes(s, Apply(cfg, s, step), t)
  {
  }

  lemma OwesKeepsFlushOk(s: State, s': State, t: nat)
    requires Located(s) && FlushOk(s, t) && Owes(s, s', t) && Advances(s.place, s'.place)
    ensures FlushOk(s', t)
  {
    var mark := FlushMark(At(s', t));
    if s.buffer == [] { EmptyBufferTakes(s); }
    if s.batch == [] && Taken(s.place, FlushMark(At(s, t))) { EmptyBatchSettles(s, FlushMark(At(s, t))); }
    assert Taken(s.place, mark) ==> Taken(s'.place, mark);
    assert Settled(s.place, mark) ==> Settled(s'.place, mark);
  }

  lemma StepKeepsFlushOk(cfg: Config, s: State, step: Step, t: nat)
    requires Located(s) && Control(cfg, s) && Enabled(s, step) && FlushOk(s, t)
    ensures FlushOk(Apply(cfg, s, step), t)
  {
    StepAdvances(cfg, s, step);
    assert CallerOk(s, t);
    if OfDrain(step) { DrainStepOwes(cfg, s, step, t); }
    else if OfSync(step) { SyncStepOwes(cfg, s, step, t); }
    else if OfStop(step) { StopStepOwes(cfg, s, step, t); }
    else { CallerStepOwes(cfg, s, step, t); }
    OwesKeepsFlushOk(s, Apply(cfg, s, step), t);
  }

  // ---- Counting calls ----

  predicate InLog(pc: Pc) {
    pc.LogChecked? || pc.LogDropping?
  }

  /** The callers inside Log. */
  function Logging(pcs: map<nat, Pc>): set<nat> {
    set t | t in pcs && InLog(pcs[t])
  }

  ghost predicate Counted(s: State) {
    s.calls == |s.accepted| + s.dropped + |Logging(s.pcs)|
  }

  function One(b: bool): nat {
    if b then 1 else 0
  }

  lemma GotoCounts(pcs: map<nat, Pc>, t: nat, pc: Pc)
    ensures |Logging(pcs[t := pc])| + One(t in pcs && InLog(pcs[t])) == |Logging(pcs)| + One(InLog(pc))
  {
    if InLog(pc) {
      assert Logging(pcs[t := pc]) == Logging(pcs) + {t};
    } else {
      assert Logging(pcs[t := pc]) == Logging(pcs) - {t};
    }
  }

  lemma LogStepKeepsCounted(cfg: Config, s: State, step: Step)
    requires Counted(s) && Enabled(s, step) && OfLog(step)
    ensures Counted(Apply(cfg, s, step))
  {
    GotoCounts(s.pcs, step.caller, At(Apply(cfg, s, step), step.caller));
  }

  lemma SyncStepKeepsCounted(cfg: Config, s: State, step: Step)
    requires Counted(s) && Enabled(s, step) && OfSync(step)
    ensures Counted(Apply(cfg, s, step))
  {
    GotoCounts(s.pcs, step.caller, At(Apply(cfg, s, step), step.caller));
  }

  lemma StopStepKeepsCounted(cfg: Config, s: State, step: Step)
    requires Counted(s) && Enabled(s, step) && OfStop(step)
    ensures Counted(Apply(cfg, s, step))
  {
    GotoCounts(s.pcs, step.caller, At(Apply(cfg, s, step), step.caller));
  }

  lemma CallerStepKeepsCounted(cfg: Config, s: State, step: Step)
    requires Counted(s) && Enabled(s, step) && !OfDrain(step) && !OfSync(step) && !OfStop(step)
    requires !step.Start? && !OfLog(step)
    ensures Counted(Apply(cfg, s, step))
  {
    GotoCounts(s.pcs, step.caller, At(Apply(cfg, s, step), step.caller));
  }

  lemma DrainStepKeepsCounted(cfg: Config, s: State, step: Step)
    requires Counted(s) && Enabled(s, step) && OfDrain(step)
    requires Acking(s.drain) ==> At(s, s.drain.flusher).FlushAwaitAck?
    ensures Counted(Apply(cfg, s, step))
  {
    var t := if step.DrainAck? then s.drain.flusher else if step.DrainFlushRequest? then step.flusher else 0;
    GotoCounts(s.pcs, t, At(Apply(cfg, s, step), t));
  }

  lemma StepKeepsCounted(cfg: Config, s: State, step: Step)
    requires Counted(s) && Enabled(s, step)
    requires Acking(s.drain) ==> At(s, s.drain.flusher).FlushAwaitAck?
    ensures Counted(Apply(cfg, s, step))
  {
    if OfDrain(step) { DrainStepKeepsCounted(cfg, s, step); }
    else if OfLog(step) { LogStepKeepsCounted(cfg, s, step); }
    else if OfSync(step) { SyncStepKeepsCounted(cfg, s, step); }
    else if OfStop(step) { StopStepKeepsCounted(cfg, s, step); }
    else if !step.Start? { CallerStepKeepsCounted(cfg, s, step); }
  }

  // ---- What lasts ----

  lemma FlagsLastInDrain(cfg: Config, s: State, step: Step)
    requires Enabled(s, step) && OfDrain(step)
    ensures var s' := Apply(cfg, s, step); s'.started == s.started && s'.stopped == s.stopped && s'.closed == s.closed
  {
    if step.DrainReceive? { }
    else if step.DrainEmpty? { }
    else if step.DrainFlushRequest? { }
    else if step.DrainWrite? { }
    else if step.DrainAck? { }
  }

  lemma FlagsLast(cfg: Config, s: State, step: Step)
    requires Enabled(s, step)
    ensures s.started ==> Apply(cfg, s, step).started
    ensures s.stopped ==> Apply(cfg, s, step).stopped
  {
    if OfDrain(step) { FlagsLastInDrain(cfg, s, step); }
    else if OfSync(step) { FlagsLastInSync(cfg, s, step); }
    else if OfStop(step) { }
    else if OfLog(step) { }
  }

  lemma FlagsLastInSync(cfg: Config, s: State, step: Step)
    requires Enabled(s, step) && OfSync(step)
    ensures var s' := Apply(cfg, s, step); s'.started == s.started && s'.stopped == s.stopped && s'.closed == s.closed
  {
    if step.SyncReceive? { }
    else if step.SyncWrite? { }
  }

  /** Only its check takes a Log to its send, and not once the logger is stopped. */
  lemma CheckedBefore(cfg: Config, s: State, step: Step, t: nat)
    requires Enabled(s, step) && At(Apply(cfg, s, step), t).LogChecked?
    ensures At(s, t).LogChecked? || (step.LogCheck? && !s.stopped)
  {
    if OfDrain(step) { CheckedBeforeInDrain(cfg, s, step, t); }
    else if OfSync(step) { }
    else if OfStop(step) { }
  }

  lemma CheckedBeforeInDrain(cfg: Config, s: State, step: Step, t: nat)
    requires Enabled(s, step) && OfDrain(step) && At(Apply(cfg, s, step), t).LogChecked?
    ensures At(s, t).LogChecked?
  {
  }

  // ---- Every reachable state ----

  ghost predicate Inv(cfg: Config, s: State) {
    Located(s) && Control(cfg, s) && Counted(s) && forall t: nat :: FlushOk(s, t)
  }

  lemma InitialInv(cfg: Config)
    ensures Inv(cfg, Initial)
  {
    forall p: Place ensures HoldsExactly(Contents(Initial, p), Initial.place, p) { }
    assert forall t: nat :: At(Initial, t) == Idle;
    assert Logging(Initial.pcs) == {};
  }

  lemma StepKeepsInv(cfg: Config, s: State, step: Step)
    requires ValidConfig(cfg) && Inv(cfg, s) && Enabled(s, step)
    ensures Inv(cfg, Apply(cfg, s, step))
  {
    var s' := Apply(cfg, s, step);
    assert Acking(s.drain) ==> CallerOk(s, s.drain.flusher);
    StepKeepsLocated(cfg, s, step);
    StepKeepsCounted(cfg, s, step);
    StepKeepsDrainOk(cfg, s, step);
    StepKeepsOneStopper(cfg, s, step);
    forall t: nat ensures CallerOk(s', t) && FlushOk(s', t) {
      StepKeepsCaller(cfg, s, step, t);
      StepKeepsFlushOk(cfg, s, step, t);
    }
  }

  lemma {:induction false} RunInv(cfg: Config, steps: seq<Step>)
    requires ValidConfig(cfg) && Run(cfg, steps).Reached?
    ensures Inv(cfg, Run(cfg, steps).state)
  {
    if steps == [] {
      InitialInv(cfg);
    } else {
      var n := |steps| - 1;
      RunInv(cfg, steps[..n]);
      StepKeepsInv(cfg, Run(cfg, steps[..n]).state, steps[n]);
    }
  }
}
