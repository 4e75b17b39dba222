/** The runtime-socket session protocol (go/kei/runtimesocket/client.go, authorize.go) and
    the fail-closed evaluator on top of it (go/kei/evaluator/evaluator.go). Any number of
    callers share one session cache and talk to a daemon that may answer anything; every
    locked region and every request or answer is one step. */
module RuntimeSocket {

  datatype Identity = Identity(source: string, externalID: string)

  /** `issue` is history: the position of the daemon's answer that named the session. */
  datatype Session = Session(identity: Identity, id: string, issue: nat)

  const SessionNotFound := "session_not_found"
  const AuthorizeResponseSchema := "kei.authorize-response/v1"

  /** A field of a JSON object: text, or another value with its rendering. */
  datatype Field = Absent | Null | Text(text: string) | Other(rendered: string)

  datatype ReasonClass =
    | AllowClass | DenyClass | EnrollmentRequired | UnknownDecision | NoDecision
    | MalformedResponse | ProxyError | OtherClass(name: string)

  /** The daemon's answer to an authorize request: no usable object, with the error code it
      carried if any, or an object. */
  datatype Reply =
    | Failure(class_: ReasonClass, code: string)
    | Object(decision: Field, schema: Field, reasonCode: Field, reason: Field, policyID: Field, policy: Field)

  datatype PutReply = PutFailure(class_: ReasonClass) | PutObject(schemaOk: bool, sessionID: string)

  datatype Outcome = Refused(class_: ReasonClass) | Answered(reply: Reply)

  datatype Pc =
    | Looking
    | Opening
    | Storing(granted: Session)
    | Sending(session: Session)
    | Awaiting(session: Session)
    | Forgetting(stale: Session)
    | Done(outcome: Outcome)

  /** One call of Authorize for a user. `sent` are the session ids its authorize requests
      carried, `replies` their answers and `puts` counts its session requests. */
  datatype Call = Call(identity: Identity, pc: Pc, attempt: nat, sent: seq<string>, replies: seq<Reply>, puts: nat)

  datatype State = State(sessions: map<Identity, Session>, issued: seq<(Identity, string)>, calls: map<nat, Call>)

  const Initial := State(map[], [], map[])

  /** `blank` is trimming white space and finding nothing. */
  datatype Config = Config(source: string, blank: string -> bool)

  datatype Step =
    | Begin(call: nat, userID: string)
    | Look(call: nat)
    | Opened(call: nat, put: PutReply)
    | Store(call: nat)
    | Send(call: nat)
    | Receive(call: nat, reply: Reply)
    | Forget(call: nat)
    | Drop(identity: Identity)
    | Close(session: Session)

  predicate Enabled(s: State, step: Step) {
    match step
    case Begin(c, _) => c !in s.calls
    case Look(c) => c in s.calls && s.calls[c].pc.Looking?
    case Opened(c, _) => c in s.calls && s.calls[c].pc.Opening?
    case Store(c) => c in s.calls && s.calls[c].pc.Storing?
    case Send(c) => c in s.calls && s.calls[c].pc.Sending?
    case Receive(c, _) => c in s.calls && s.calls[c].pc.Awaiting?
    case Forget(c) => c in s.calls && s.calls[c].pc.Forgetting?
    case Drop(_) => true
    case Close(_) => true
  }

  function Goto(s: State, c: nat, call: Call): State {
    s.(calls := s.calls[c := call])
  }

  function Begun(cfg: Config, userID: string): Call {
    var identity := Identity(cfg.source, userID);
    Call(identity,
         if userID == "" || cfg.blank(cfg.source) || cfg.blank(userID) then Done(Refused(ProxyError)) else Looking,
         0, [], [], 0)
  }

  predicate ValidSession(session: Session) {
    session.identity.source != "" && session.identity.externalID != "" && session.id != ""
  }

  /** The cache without the stale session; an entry with another id stays. */
  function Forgotten(sessions: map<Identity, Session>, stale: Session): map<Identity, Session> {
    if stale.identity in sessions && sessions[stale.identity].id == stale.id
    then sessions - {stale.identity} else sessions
  }

  /** What a caller does with the daemon's answer. */
  function AfterReply(call: Call, reply: Reply): Pc
    requires call.pc.Awaiting?
  {
    match reply
    case Failure(class_, code) =>
      if call.attempt == 0 && code == SessionNotFound then Forgetting(call.pc.session) else Done(Refused(class_))
    case Object(decision, schema, reasonCode, _, _, _) =>
      if !decision.Text? || schema != Text(AuthorizeResponseSchema) then Done(Refused(MalformedResponse))
      else if call.attempt == 0 && reasonCode == Text(SessionNotFound) then Forgetting(call.pc.session)
      else Done(Answered(reply))
  }

  function Apply(cfg: Config, s: State, step: Step): State
    requires Enabled(s, step)
  {
    match step
    case Begin(c, userID) => Goto(s, c, Begun(cfg, userID))
    case Look(c) =>
      var call := s.calls[c];
      if call.identity in s.sessions then Goto(s, c, call.(pc := Sending(s.sessions[call.identity])))
      else Goto(s, c, call.(pc := Opening, puts := call.puts + 1))
    case Opened(c, put) =>
      var call := s.calls[c];
      if put.PutFailure? then Goto(s, c, call.(pc := Done(Refused(put.class_))))
      else if !put.schemaOk || put.sessionID == "" then Goto(s, c, call.(pc := Done(Refused(MalformedResponse))))
      else
        Goto(s, c, call.(pc := Storing(Session(call.identity, put.sessionID, |s.issued|))))
          .(issued := s.issued + [(call.identity, put.sessionID)])
    case Store(c) =>
      var call := s.calls[c];
      Goto(s, c, call.(pc := Sending(call.pc.granted))).(sessions := s.sessions[call.identity := call.pc.granted])
    case Send(c) =>
      var call := s.calls[c];
      if call.attempt == 0 && !ValidSession(call.pc.session) then Goto(s, c, call.(pc := Done(Refused(ProxyError))))
      else Goto(s, c, call.(pc := Awaiting(call.pc.session), sent := call.sent + [call.pc.session.id]))
    case Receive(c, reply) =>
      var call := s.calls[c];
      Goto(s, c, call.(pc := AfterReply(call, reply), replies := call.replies + [reply]))
    case Forget(c) =>
      var call := s.calls[c];
      Goto(s, c, call.(pc := Looking, attempt := call.attempt + 1)).(sessions := Forgotten(s.sessions, call.pc.stale))
    case Drop(identity) => s.(sessions := s.sessions - {identity})
    case Close(session) => s.(sessions := Forgotten(s.sessions, session))
  }

  datatype Reach = Blocked | Reached(state: State)

  /** The state a sequence of steps leads to, if each is enabled when its turn comes. */
  function Run(cfg: Config, steps: seq<Step>): Reach {
    if steps == [] then Reached(Initial)
    else
      var n := |steps| - 1;
      var before := Run(cfg, steps[..n]);
      if before.Reached? && Enabled(before.state, steps[n])
      then Reached(Apply(cfg, before.state, steps[n])) else Blocked
  }

  // ---- What every step keeps ----

  /** The daemon named this session id in answer to a session request for the identity. */
  ghost predicate IssuedFor(issued: seq<(Identity, string)>, identity: Identity, id: string) {
    exists n :: 0 <= n < |issued| && issued[n] == (identity, id)
  }

  ghost predicate Genuine(issued: seq<(Identity, string)>, session: Session, identity: Identity) {
    && session.identity == identity && session.id != ""
    && session.issue < |issued| && issued[session.issue] == (identity, session.id)
  }

  /** The session a call holds, if any. */
  function Holding(pc: Pc): seq<Session> {
    match pc
    case Storing(s) => [s]
    case Sending(s) => [s]
    case Awaiting(s) => [s]
    case Forgetting(s) => [s]
    case _ => []
  }

  ghost predicate CallOk(cfg: Config, issued: seq<(Identity, string)>, call: Call) {
    && call.identity.source == cfg.source && call.attempt <= 1
    && (forall x :: x in Holding(call.pc) ==> Genuine(issued, x, call.identity))
    && (forall i :: 0 <= i < |call.sent| ==> IssuedFor(issued, call.identity, call.sent[i]))
    && (call.pc.Forgetting? ==> call.attempt == 0)
    && (!call.pc.Done? ==>
          && call.identity.externalID != "" && !cfg.blank(cfg.source) && !cfg.blank(call.identity.externalID)
          && |call.sent| == call.attempt + (if call.pc.Awaiting? || call.pc.Forgetting? then 1 else 0)
          && |call.replies| == |call.sent| - (if call.pc.Awaiting? then 1 else 0)
          && call.puts <= call.attempt + (if call.pc.Looking? then 0 else 1))
    && |call.sent| <= 2 && call.puts <= 2 && call.puts <= call.attempt + 1
    && (call.attempt == 1 || call.pc.Forgetting? <==> call.replies != [] && AsksForSession(call.replies[0]))
    && |call.replies| <= |call.sent| <= call.attempt + 1
    && (call.pc.Done? && call.pc.outcome.Answered? <==> Conclusive(call.replies))
    && (Conclusive(call.replies) ==> call.pc == Done(Answered(call.replies[|call.replies| - 1])))
  }

  /** The daemon does not know the session, and says so with an error or in an answer. */
  predicate AsksForSession(r: Reply) {
    if r.Failure? then r.code == SessionNotFound else WellFormed(r) && r.reasonCode == Text(SessionNotFound)
  }

  predicate WellFormed(r: Reply) {
    r.Object? && r.decision.Text? && r.schema == Text(AuthorizeResponseSchema)
  }

  /** The last of a call's answers is a well-formed decision, and not a first one that asks
      for a new session. */
  predicate Conclusive(replies: seq<Reply>) {
    && replies != []
    && var last := replies[|replies| - 1];
       WellFormed(last) && !(|replies| == 1 && last.reasonCode == Text(SessionNotFound))
  }

  ghost predicate Inv(cfg: Config, s: State) {
    && (forall k :: k in s.sessions ==> Genuine(s.issued, s.sessions[k], k))
    && (forall c :: c in s.calls ==> CallOk(cfg, s.issued, s.calls[c]))
  }

  lemma IssueKeeps(cfg: Config, issued: seq<(Identity, string)>, entry: (Identity, string), call: Call)
    requires CallOk(cfg, issued, call)
    ensures CallOk(cfg, issued + [entry], call)
  {
    forall i | 0 <= i < |call.sent| ensures IssuedFor(issued + [entry], call.identity, call.sent[i]) {
      var n :| 0 <= n < |issued| && issued[n] == (call.identity, call.sent[i]);
      assert (issued + [entry])[n] == issued[n];
    }
  }

  lemma ReceiveOk(cfg: Config, issued: seq<(Identity, string)>, call: Call, reply: Reply)
    requires CallOk(cfg, issued, call) && call.pc.Awaiting?
    ensures CallOk(cfg, issued, call.(pc := AfterReply(call, reply), replies := call.replies + [reply]))
  {
    assert call.pc.session in Holding(call.pc);
  }

  lemma SendOk(cfg: Config, issued: seq<(Identity, string)>, call: Call)
    requires CallOk(cfg, issued, call) && call.pc.Sending?
    ensures CallOk(cfg, issued, call.(pc := Awaiting(call.pc.session), sent := call.sent + [call.pc.session.id]))
  {
    assert call.pc.session in Holding(call.pc);
    assert IssuedFor(issued, call.identity, call.pc.session.id);
  }

  lemma OpenedOk(cfg: Config, issued: seq<(Identity, string)>, call: Call, id: string)
    requires CallOk(cfg, issued, call) && call.pc.Opening? && id != ""
    ensures CallOk(cfg, issued + [(call.identity, id)], call.(pc := Storing(Session(call.identity, id, |issued|))))
  {
    IssueKeeps(cfg, issued, (call.identity, id), call);
  }

  lemma LookOk(cfg: Config, s: State, c: nat)
    requires Inv(cfg, s) && Enabled(s, Look(c))
    ensures CallOk(cfg, s.issued, Apply(cfg, s, Look(c)).calls[c])
  {
    assert CallOk(cfg, s.issued, s.calls[c]);
  }

  lemma StoreOk(cfg: Config, issued: seq<(Identity, string)>, call: Call)
    requires CallOk(cfg, issued, call) && call.pc.Storing?
    ensures CallOk(cfg, issued, call.(pc := Sending(call.pc.granted)))
  {
    assert call.pc.granted in Holding(call.pc);
  }

  lemma ForgetOk(cfg: Config, issued: seq<(Identity, string)>, call: Call)
    requires CallOk(cfg, issued, call) && call.pc.Forgetting?
    ensures CallOk(cfg, issued, call.(pc := Looking, attempt := call.attempt + 1))
  {
  }

  /** The call that moves keeps its part. */
  lemma MoverOk(cfg: Config, s: State, step: Step)
    requires Inv(cfg, s) && Enabled(s, step) && !step.Drop? && !step.Close?
    ensures var s' := Apply(cfg, s, step); step.call in s'.calls && CallOk(cfg, s'.issued, s'.calls[step.call])
  {
    if !step.Begin? {
      var call := s.calls[step.call];
      assert CallOk(cfg, s.issued, call);
      if step.Receive? { ReceiveOk(cfg, s.issued, call, step.reply); }
      else if step.Look? { LookOk(cfg, s, step.call); }
      else if step.Store? { StoreOk(cfg, s.issued, call); }
      else if step.Forget? { ForgetOk(cfg, s.issued, call); }
      else if step.Send? { SendOk(cfg, s.issued, call); }
      else if step.Opened? && step.put.PutObject? && step.put.sessionID != "" {
        OpenedOk(cfg, s.issued, call, step.put.sessionID);
      }
    }
  }

  lemma CacheOk(cfg: Config, s: State, step: Step)
    requires Inv(cfg, s) && Enabled(s, step)
    ensures var s' := Apply(cfg, s, step); forall k :: k in s'.sessions ==> Genuine(s'.issued, s'.sessions[k], k)
  {
    if step.Store? {
      assert CallOk(cfg, s.issued, s.calls[step.call]);
      assert s.calls[step.call].pc.granted in Holding(s.calls[step.call].pc);
    }
  }

  lemma StepKeepsInv(cfg: Config, s: State, step: Step)
    requires Inv(cfg, s) && Enabled(s, step)
    ensures Inv(cfg, Apply(cfg, s, step))
  {
    var s' := Apply(cfg, s, step);
    CacheOk(cfg, s, step);
    forall c | c in s'.calls ensures CallOk(cfg, s'.issued, s'.calls[c]) {
      if !step.Drop? && !step.Close? && c == step.call {
        MoverOk(cfg, s, step);
      } else {
        OthersOk(cfg, s, step, c);
      }
    }
  }

  lemma OthersOk(cfg: Config, s: State, step: Step, c: nat)
    requires Inv(cfg, s) && Enabled(s, step) && c in Apply(cfg, s, step).calls
    requires step.Drop? || step.Close? || c != step.call
    ensures CallOk(cfg, Apply(cfg, s, step).issued, Apply(cfg, s, step).calls[c])
  {
    assert CallOk(cfg, s.issued, s.calls[c]);
    var s' := Apply(cfg, s, step);
    if s'.issued != s.issued { IssueKeeps(cfg, s.issued, s'.issued[|s.issued|], s.calls[c]); }
  }

  lemma {:induction false} RunInv(cfg: Config, steps: seq<Step>)
    requires Run(cfg, steps).Reached?
    ensures Inv(cfg, Run(cfg, steps).state)
  {
    if steps != [] {
      var n := |steps| - 1;
      RunInv(cfg, steps[..n]);
      StepKeepsInv(cfg, Run(cfg, steps[..n]).state, steps[n]);
    }
  }

  /** In every interleaving, whatever the daemon answers: an authorize request carries a
      session id that the daemon named for the caller's own identity; a call sends at most
      two authorize requests and at most two session requests, and starts over at most
      once. */
  lemma OwnSessionOnly(cfg: Config, steps: seq<Step>, c: nat)
    requires Run(cfg, steps).Reached? && c in Run(cfg, steps).state.calls
    ensures var s := Run(cfg, steps).state;
            var call := s.calls[c];
            && (forall i :: 0 <= i < |call.sent| ==> IssuedFor(s.issued, call.identity, call.sent[i]))
            && call.identity.source == cfg.source
            && |call.sent| <= 2 && call.puts <= 2 && call.attempt <= 1
  {
    RunInv(cfg, steps);
    assert CallOk(cfg, Run(cfg, steps).state.issued, Run(cfg, steps).state.calls[c]);
  }

  /** A call keeps the identity of the user it began for. */
  lemma {:induction false} IdentityKept(cfg: Config, steps: seq<Step>, c: nat)
    requires Run(cfg, steps).Reached? && c in Run(cfg, steps).state.calls
    ensures exists i :: 0 <= i < |steps| && steps[i].Begin? && steps[i].call == c
                        && Run(cfg, steps).state.calls[c].identity == Identity(cfg.source, steps[i].userID)
  {
    var n := |steps| - 1;
    var s := Run(cfg, steps[..n]).state;
    if steps[n].Begin? && steps[n].call == c {
      assert Run(cfg, steps).state.calls[c] == Begun(cfg, steps[n].userID);
    } else {
      assert c in s.calls && Run(cfg, steps).state.calls[c].identity == s.calls[c].identity;
      IdentityKept(cfg, steps[..n], c);
      var i :| 0 <= i < n && steps[..n][i].Begin? && steps[..n][i].call == c
               && s.calls[c].identity == Identity(cfg.source, steps[..n][i].userID);
      assert steps[i] == steps[..n][i];
    }
  }

  /** Forgetting a stale session takes a cached one away only if it has the same id, so it
      discards a newer session only if the daemon gave that session the very id of the
      stale one. Entries of other identities stay. */
  lemma ForgetSparesNewer(cfg: Config, steps: seq<Step>, c: nat, k: Identity)
    requires Run(cfg, steps).Reached? && Enabled(Run(cfg, steps).state, Forget(c))
    requires k in Run(cfg, steps).state.sessions
    ensures var s := Run(cfg, steps).state;
            var stale, cached := s.calls[c].pc.stale, s.sessions[k];
            && (k !in Apply(cfg, s, Forget(c)).sessions <==> k == s.calls[c].identity && cached.id == stale.id)
            && (k in Apply(cfg, s, Forget(c)).sessions ==> Apply(cfg, s, Forget(c)).sessions[k] == cached)
            && (k !in Apply(cfg, s, Forget(c)).sessions && stale.issue < cached.issue ==>
                  stale.issue < cached.issue < |s.issued| && s.issued[cached.issue] == s.issued[stale.issue])
  {
    RunInv(cfg, steps);
    var s := Run(cfg, steps).state;
    assert CallOk(cfg, s.issued, s.calls[c]);
    assert s.calls[c].pc.stale in Holding(s.calls[c].pc);
  }

  /** One more step of a run that is being written down. */
  lemma Do(cfg: Config, steps: seq<Step>, s: State, step: Step) returns (steps': seq<Step>, s': State)
    requires Run(cfg, steps) == Reached(s) && Enabled(s, step)
    ensures s' == Apply(cfg, s, step) && Run(cfg, steps') == Reached(s')
  {
    assert (steps + [step])[..|steps|] == steps;
    steps', s' := steps + [step], Apply(cfg, s, step);
  }

  /** Two callers of one user have asked for a session; the first was told that the one it
      got does not exist. */
  lemma StaleSession(cfg: Config, user: string, id: string) returns (steps: seq<Step>, s: State)
    requires !cfg.blank(cfg.source) && !cfg.blank(user) && cfg.source != "" && user != "" && id != ""
    ensures Run(cfg, steps) == Reached(s) && 0 in s.calls && 1 in s.calls
    ensures var me := Identity(cfg.source, user);
            && s.calls[0].pc == Forgetting(Session(me, id, 0)) && s.calls[0].identity == me
            && s.calls[1].pc == Opening && s.calls[1].identity == me && s.issued == [(me, id)]
  {
    steps, s := Do(cfg, [], Initial, Begin(0, user));
    steps, s := Do(cfg, steps, s, Begin(1, user));
    steps, s := Do(cfg, steps, s, Look(0));
    steps, s := Do(cfg, steps, s, Look(1));
    steps, s := Do(cfg, steps, s, Opened(0, PutObject(true, id)));
    steps, s := Do(cfg, steps, s, Store(0));
    steps, s := Do(cfg, steps, s, Send(0));
    steps, s := Do(cfg, steps, s, Receive(0, Failure(ProxyError, SessionNotFound)));
  }

  /** A newer session is discarded when the daemon issued the stale id again. */
  lemma ReissuedIsForgotten(cfg: Config, user: string, id: string) returns (steps: seq<Step>)
    requires !cfg.blank(cfg.source) && !cfg.blank(user) && cfg.source != "" && user != "" && id != ""
    ensures Run(cfg, steps).Reached? && Enabled(Run(cfg, steps).state, Forget(0))
    ensures var s, me := Run(cfg, steps).state, Identity(cfg.source, user);
            && me in s.sessions && s.calls[0].pc.stale.issue < s.sessions[me].issue
            && me !in Apply(cfg, s, Forget(0)).sessions
  {
    var s;
    steps, s := StaleSession(cfg, user, id);
    steps, s := Do(cfg, steps, s, Opened(1, PutObject(true, id)));
    steps, s := Do(cfg, steps, s, Store(1));
  }

  /** When another caller has already replaced the stale session, forgetting keeps the
      replacement and looking takes it: no second session request is sent. */
  lemma ReopenShares(cfg: Config, steps: seq<Step>, c: nat)
    requires Run(cfg, steps).Reached? && Enabled(Run(cfg, steps).state, Forget(c))
    requires var s := Run(cfg, steps).state;
             s.calls[c].identity in s.sessions && s.sessions[s.calls[c].identity].id != s.calls[c].pc.stale.id
    ensures var s := Run(cfg, steps).state;
            var s' := Apply(cfg, s, Forget(c));
            && Enabled(s', Look(c))
            && Apply(cfg, s', Look(c)).calls[c].pc == Sending(s.sessions[s.calls[c].identity])
            && Apply(cfg, s', Look(c)).calls[c].puts == s.calls[c].puts
  {
    RunInv(cfg, steps);
    var s := Run(cfg, steps).state;
    assert CallOk(cfg, s.issued, s.calls[c]);
    assert s.calls[c].pc.stale in Holding(s.calls[c].pc);
  }

  /** A call for no user, or with a blank source or user, is refused before anything is sent. */
  lemma BlankRefused(cfg: Config, steps: seq<Step>, c: nat, user: string)
    requires Run(cfg, steps).Reached? && Enabled(Run(cfg, steps).state, Begin(c, user))
    ensures var call := Apply(cfg, Run(cfg, steps).state, Begin(c, user)).calls[c];
            && call.sent == [] && call.puts == 0
            && if user == "" || cfg.blank(cfg.source) || cfg.blank(user) then call.pc == Done(Refused(ProxyError))
               else call.pc == Looking && call.identity == Identity(cfg.source, user)
  {
  }

  /** A call for a user with a cached session sends its id and asks for no session. */
  lemma CachedIsUsed(cfg: Config, steps: seq<Step>, c: nat, user: string) returns (steps': seq<Step>, s': State)
    requires Run(cfg, steps).Reached? && c !in Run(cfg, steps).state.calls
    requires cfg.source != "" && user != "" && !cfg.blank(cfg.source) && !cfg.blank(user)
    requires Identity(cfg.source, user) in Run(cfg, steps).state.sessions
    ensures Run(cfg, steps') == Reached(s') && c in s'.calls
    ensures var s := Run(cfg, steps).state;
            && s'.calls[c].sent == [s.sessions[Identity(cfg.source, user)].id] && s'.calls[c].puts == 0
            && s'.sessions == s.sessions && s'.issued == s.issued && s'.calls[c].pc.Awaiting?
  {
    RunInv(cfg, steps);
    var s := Run(cfg, steps).state;
    steps', s' := Do(cfg, steps, s, Begin(c, user));
    steps', s' := Do(cfg, steps', s', Look(c));
    steps', s' := Do(cfg, steps', s', Send(c));
  }

  /** Without one it asks for a session once, sends the id it is granted, and leaves the session
      in the cache for that user and no other. */
  lemma GrantedIsCached(cfg: Config, steps: seq<Step>, c: nat, user: string, id: string)
    returns (steps': seq<Step>, s': State)
    requires Run(cfg, steps).Reached? && c !in Run(cfg, steps).state.calls && id != ""
    requires cfg.source != "" && user != "" && !cfg.blank(cfg.source) && !cfg.blank(user)
    requires Identity(cfg.source, user) !in Run(cfg, steps).state.sessions
    ensures Run(cfg, steps') == Reached(s') && c in s'.calls
    ensures var s, me := Run(cfg, steps).state, Identity(cfg.source, user);
            && s'.calls[c].sent == [id] && s'.calls[c].puts == 1 && s'.calls[c].pc.Awaiting?
            && me in s'.sessions && s'.sessions[me].id == id && s'.issued == s.issued + [(me, id)]
            && forall k :: k != me ==> (k in s'.sessions <==> k in s.sessions)
                                       && (k in s.sessions ==> s'.sessions[k] == s.sessions[k])
  {
    var s := Run(cfg, steps).state;
    steps', s' := Do(cfg, steps, s, Begin(c, user));
    steps', s' := Do(cfg, steps', s', Look(c));
    steps', s' := Do(cfg, steps', s', Opened(c, PutObject(true, id)));
    steps', s' := Do(cfg, steps', s', Store(c));
    steps', s' := Do(cfg, steps', s', Send(c));
  }

  // ---- Evaluate ----

  datatype Action = Allow | Deny

  datatype Decision = Decision(action: Action, class_: ReasonClass, detail: string, rule: string)

  predicate IsAffirmative(decision: string) {
    decision == "allow" || decision == "permit"
  }

  function Rendered(f: Field): string {
    match f
    case Absent => ""
    case Null => ""
    case Text(s) => s
    case Other(s) => s
  }

  function RuleOf(policyID: Field, policy: Field): string {
    if Rendered(policyID) != "" then Rendered(policyID)
    else if Rendered(policy) != "" then Rendered(policy)
    else "kei-proxy"
  }

  /** Translates the outcome of an authorize call. `normalize` trims and lower-cases. */
  function Evaluate(normalize: string -> string, outcome: Outcome): Decision {
    match outcome
    case Refused(class_) => Decision(Deny, class_, "", "kei-proxy")
    case Answered(Failure(class_, _)) => Decision(Deny, class_, "", "kei-proxy")
    case Answered(Object(decision, _, _, reason, policyID, policy)) =>
      var normalized := if decision.Absent? || decision.Null? then "" else normalize(Rendered(decision));
      var proxyReason, rule := Rendered(reason), RuleOf(policyID, policy);
      if IsAffirmative(normalized) then Decision(Allow, AllowClass, proxyReason, rule)
      else if normalized == "" then Decision(Deny, NoDecision, "", rule)
      else if normalized == "deny" then Decision(Deny, DenyClass, proxyReason, rule)
      else if normalized == "enrollment_required" then
        Decision(Deny, EnrollmentRequired,
                 if proxyReason == "" then "enrollment is required before this call" else proxyReason, rule)
      else
        Decision(Deny, UnknownDecision,
                 "'" + normalized + "'" + (if proxyReason == "" then "" else " (" + proxyReason + ")"), rule)
  }

  // ---- What the answers decide ----

  /** What an answer leads to, by its place: the first answer that names the session as
      unknown, by error code or by reason code, starts over; a well-formed answer otherwise
      ends the call with that answer; anything else refuses. */
  lemma AnswerExactly(cfg: Config, steps: seq<Step>, c: nat, reply: Reply)
    requires Run(cfg, steps).Reached? && Enabled(Run(cfg, steps).state, Receive(c, reply))
    ensures var s := Run(cfg, steps).state;
            var pc := Apply(cfg, s, Receive(c, reply)).calls[c].pc;
            var good := reply.Object? && reply.decision.Text? && reply.schema == Text("kei.authorize-response/v1");
            var unknown := if reply.Failure? then reply.code == "session_not_found"
                           else good && reply.reasonCode == Text("session_not_found");
            && |s.calls[c].sent| == |s.calls[c].replies| + 1 && |s.calls[c].sent| in {1, 2}
            && (pc.Forgetting? <==> |s.calls[c].sent| == 1 && unknown)
            && (pc.Forgetting? ==> pc.stale == s.calls[c].pc.session)
            && (pc == Done(Answered(reply)) <==> good && !(|s.calls[c].sent| == 1 && unknown))
            && (!good && !pc.Forgetting? ==>
                  pc == Done(Refused(if reply.Failure? then reply.class_ else MalformedResponse)))
  {
    RunInv(cfg, steps);
    assert CallOk(cfg, Run(cfg, steps).state.issued, Run(cfg, steps).state.calls[c]);
  }

  /** A call sends again only after its first answer named the session as unknown. */
  lemma SecondSendOnlyWhenAsked(cfg: Config, steps: seq<Step>, c: nat)
    requires Run(cfg, steps).Reached? && c in Run(cfg, steps).state.calls
    requires |Run(cfg, steps).state.calls[c].sent| == 2
    ensures var replies := Run(cfg, steps).state.calls[c].replies;
            && replies != []
            && if replies[0].Failure? then replies[0].code == "session_not_found"
               else replies[0].decision.Text? && replies[0].reasonCode == Text("session_not_found")
  {
    RunInv(cfg, steps);
    assert CallOk(cfg, Run(cfg, steps).state.issued, Run(cfg, steps).state.calls[c]);
  }

  /** And it does send again then, if the daemon grants a session or another caller already
      has one. */
  lemma AskedSendsAgain(cfg: Config, steps: seq<Step>, c: nat, id: string) returns (steps': seq<Step>, s': State)
    requires Run(cfg, steps).Reached? && c in Run(cfg, steps).state.calls && id != ""
    requires Run(cfg, steps).state.calls[c].pc.Forgetting?
    ensures Run(cfg, steps') == Reached(s') && c in s'.calls
    ensures |s'.calls[c].sent| == 2 && s'.calls[c].pc.Awaiting?
    ensures var s := Run(cfg, steps).state;
            var me, stale := s.calls[c].identity, s.calls[c].pc.stale;
            s'.calls[c].sent[1] == if me in s.sessions && s.sessions[me].id != stale.id then s.sessions[me].id else id
  {
    RunInv(cfg, steps);
    var s := Run(cfg, steps).state;
    assert CallOk(cfg, s.issued, s.calls[c]);
    assert s.calls[c].pc.stale in Holding(s.calls[c].pc);
    steps', s' := Do(cfg, steps, s, Forget(c));
    steps', s' := Do(cfg, steps', s', Look(c));
    if s'.calls[c].pc.Opening? {
      steps', s' := Do(cfg, steps', s', Opened(c, PutObject(true, id)));
      steps', s' := Do(cfg, steps', s', Store(c));
    }
    steps', s' := Do(cfg, steps', s', Send(c));
  }

  /** The decision on a well-formed answer: allow and permit allow, and every other text
      denies with its own class. */
  lemma TextDecides(normalize: string -> string, reply: Reply)
    requires reply.Object? && reply.decision.Text?
    ensures var d, n := Evaluate(normalize, Answered(reply)), normalize(reply.decision.text);
            && (d.action == Allow <==> n in {"allow", "permit"})
            && (d.class_ == AllowClass <==> n in {"allow", "permit"})
            && (d.class_ == NoDecision <==> n == "")
            && (d.class_ == DenyClass <==> n == "deny")
            && (d.class_ == EnrollmentRequired <==> n == "enrollment_required")
            && (d.class_ == UnknownDecision <==> n !in {"allow", "permit", "", "deny", "enrollment_required"})
            && (n in {"allow", "permit", "deny"} ==> d.detail == Rendered(reply.reason))
            && (n == "" ==> d.detail == "")
            && (n == "enrollment_required" ==>
                  d.detail == if Rendered(reply.reason) == "" then "enrollment is required before this call"
                              else Rendered(reply.reason))
            && (d.class_ == UnknownDecision ==>
                  d.detail == "'" + n + "'" + if Rendered(reply.reason) == "" then ""
                                              else " (" + Rendered(reply.reason) + ")")
  {
  }

  /** The rule named is the policy id, else the policy, else the proxy. */
  lemma RuleNamed(normalize: string -> string, outcome: Outcome)
    ensures var rule := Evaluate(normalize, outcome).rule;
            if outcome.Refused? || outcome.reply.Failure? then rule == "kei-proxy"
            else
              var texts := [Rendered(outcome.reply.policyID), Rendered(outcome.reply.policy), "kei-proxy"];
              exists i :: 0 <= i < 3 && rule == texts[i] != "" && forall j :: 0 <= j < i ==> texts[j] == ""
  {
    if !outcome.Refused? && !outcome.reply.Failure? {
      var texts := [Rendered(outcome.reply.policyID), Rendered(outcome.reply.policy), "kei-proxy"];
      assert texts[2] != "";
      var i := if texts[0] != "" then 0 else if texts[1] != "" then 1 else 2;
      assert Evaluate(normalize, outcome).rule == texts[i];
    }
  }

  lemma FinishedByAnswer(cfg: Config, steps: seq<Step>, c: nat)
    requires Run(cfg, steps).Reached? && c in Run(cfg, steps).state.calls
    requires Run(cfg, steps).state.calls[c].pc.Done?
    ensures var call := Run(cfg, steps).state.calls[c];
            && (call.pc.outcome.Answered? <==> Conclusive(call.replies))
            && (call.pc.outcome.Answered? ==> call.pc.outcome.reply == call.replies[|call.replies| - 1])
  {
    RunInv(cfg, steps);
    assert CallOk(cfg, Run(cfg, steps).state.issued, Run(cfg, steps).state.calls[c]);
  }

  /** Fail closed over whole runs: a finished call is allowed exactly when the daemon's last
      answer to it is an object of the authorize schema with a decision text that reads allow
      or permit, and not the first answer with an unknown session. */
  lemma FailClosed(cfg: Config, steps: seq<Step>, c: nat, normalize: string -> string)
    requires Run(cfg, steps).Reached? && c in Run(cfg, steps).state.calls
    requires Run(cfg, steps).state.calls[c].pc.Done?
    ensures var call := Run(cfg, steps).state.calls[c];
            Evaluate(normalize, call.pc.outcome).action == Allow <==>
              && call.replies != []
              && var last := call.replies[|call.replies| - 1];
                 && last.Object? && last.decision.Text? && last.schema == Text("kei.authorize-response/v1")
                 && !(|call.replies| == 1 && last.reasonCode == Text("session_not_found"))
                 && (normalize(last.decision.text) == "allow" || normalize(last.decision.text) == "permit")
  {
    FinishedByAnswer(cfg, steps, c);
    var outcome := Run(cfg, steps).state.calls[c].pc.outcome;
    if outcome.Answered? { TextDecides(normalize, outcome.reply); }
  }

  /** And a finished call with such a last answer is denied with the class of its text. */
  lemma DeniedByClass(cfg: Config, steps: seq<Step>, c: nat, normalize: string -> string)
    requires Run(cfg, steps).Reached? && c in Run(cfg, steps).state.calls
    requires Run(cfg, steps).state.calls[c].pc.Done?
    ensures var call := Run(cfg, steps).state.calls[c];
            var d := Evaluate(normalize, call.pc.outcome);
            if call.pc.outcome.Refused? then d.action == Deny && d.class_ == call.pc.outcome.class_
            else
              && call.replies != []
              && var last := call.replies[|call.replies| - 1];
                 && last.Object? && last.decision.Text?
                 && var n := normalize(last.decision.text);
                    && (n == "deny" ==> d.action == Deny && d.class_ == DenyClass)
                    && (n == "" ==> d.action == Deny && d.class_ == NoDecision)
                    && (n == "enrollment_required" ==> d.action == Deny && d.class_ == EnrollmentRequired)
                    && (n !in {"allow", "permit", "", "deny", "enrollment_required"} ==>
                          d.action == Deny && d.class_ == UnknownDecision)
  {
    FinishedByAnswer(cfg, steps, c);
    var outcome := Run(cfg, steps).state.calls[c].pc.outcome;
    if outcome.Answered? { TextDecides(normalize, outcome.reply); }
  }
}
