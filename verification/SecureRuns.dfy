/** Whole runs through the security layer, as a refinement of the runs of the control plane. */
module SecureRuns {
  import opened Prelude
  import opened Json
  import opened Hashing
  import opened Markers
  import opened ControlPlane
  import opened Decisions
  import opened Receipts
  import opened Target
  import opened Runs
  import opened Security
  import opened SecurityProofs

  datatype SecureEvent =
    /** An agent calls `evaluate_security` and keeps the decision. */
    | Evaluating(context: Context, epoch: int)
    /** An agent calls `decide` and keeps the decision. */
    | CoreDeciding(intent: Intent, corePolicy: Policy)
    /** An agent calls `secure_materialize` with any decisions, kept or made up. */
    | Securing(context: Context, coreDecision: Decision, decision: SecurityDecision, corePolicy: Policy, epoch: int)

  /** A kept security decision, with the context it was taken in and the length the log had then. */
  datatype Evaluation = Evaluation(context: Context, epoch: int, decision: SecurityDecision, at: nat)

  /** What one successful `secure_materialize` leaves behind, and the context and epoch it ran in. */
  datatype Audit = Audit(context: Context, decision: SecurityDecision, epoch: int, receipt: SecurityReceipt)

  datatype SecureSystem = SecureSystem(core: System, evaluations: seq<Evaluation>, audits: seq<Audit>)

  /** Every call is about the current state, whatever state the context of the event holds. */
  function Here(sys: SecureSystem, c: Context): Context {
    c.(state := sys.core.state)
  }

  /** The call gets past the security check. */
  predicate LetsThrough(h: Hasher, sys: SecureSystem, e: SecureEvent)
    requires e.Securing?
  {
    SecureGuard(h, Here(sys, e.context), e.decision, e.epoch).Ok?
  }

  /** The call reaches the executor. */
  predicate Executes(h: Hasher, sys: SecureSystem, e: SecureEvent)
    requires e.Securing?
  {
    LetsThrough(h, sys, e) && Guard(h, e.context.intent, e.coreDecision, sys.core.state, e.corePolicy).Ok?
  }

  /** The target's values after a call: nothing happens unless the security check passes. */
  function SecureValues(h: Hasher, render: Value -> string, values: Payload, c: Context, coreDecision: Decision,
                        decision: SecurityDecision, corePolicy: Policy, epoch: int): Payload
  {
    if SecureGuard(h, c, decision, epoch).Ok?
    then AttemptValues(h, render, values, c.intent, coreDecision, c.state, corePolicy)
    else values
  }

  /** `secure_materialize(..., execute=target.execute)` */
  method SecureMaterializeOn(h: Hasher, render: Value -> string, c: Context, coreDecision: Decision,
                             decision: SecurityDecision, corePolicy: Policy, epoch: int, target: InMemoryTarget)
    returns (r: Result<Secured>)
    modifies target
    ensures r == SecureMaterialize(h, c, coreDecision, decision, corePolicy, epoch, TargetExecutor(h, render))
    ensures target.values
            == SecureValues(h, render, old(target.values), c, coreDecision, decision, corePolicy, epoch)
    ensures r.Ok? ==> ExactPayload(c.intent.payload)
                      && target.values == old(target.values)[c.intent.payload["key"].s := c.intent.payload["value"]]
  {
    hide ExactPayload, SecureGuard, Materialize, Evaluate, BuildSecurityReceipt, AttemptValues, TargetExecutor;
    var guard := SecureGuard(h, c, decision, epoch);
    if guard.Err? {
      return Err(guard.error);
    }
    var core := MaterializeOn(h, render, c.intent, coreDecision, c.state, corePolicy, target);
    if core.Err? {
      return Err(core.error);
    }
    r := Ok(Secured(core.value, BuildSecurityReceipt(h, core.value.receipt, Evaluate(h, c, epoch))));
  }

  function CallResult(h: Hasher, render: Value -> string, sys: SecureSystem, e: SecureEvent): Result<Secured>
    requires e.Securing?
  {
    SecureMaterialize(h, Here(sys, e.context), e.coreDecision, e.decision, e.corePolicy, e.epoch,
                      TargetExecutor(h, render))
  }

  function AfterCall(h: Hasher, render: Value -> string, sys: SecureSystem, e: SecureEvent): SecureSystem
    requires e.Securing?
  {
    var c := Here(sys, e.context);
    var r := CallResult(h, render, sys, e);
    var values := SecureValues(h, render, sys.core.values, c, e.coreDecision, e.decision, e.corePolicy, e.epoch);
    if r.Ok? then
      sys.(core := sys.core.(state := r.value.core.next, values := values,
                             log := sys.core.log + [LinkOf(c.state, c.intent, r.value.core)]),
           audits := sys.audits + [Audit(c, e.decision, e.epoch, r.value.receipt)])
    else sys.(core := sys.core.(values := values))
  }

  function SecureStep(h: Hasher, render: Value -> string, sys: SecureSystem, e: SecureEvent): SecureSystem {
    match e
    case Evaluating(context, epoch) =>
      var c := Here(sys, context);
      sys.(evaluations := sys.evaluations + [Evaluation(c, epoch, Evaluate(h, c, epoch), |sys.core.log|)])
    case CoreDeciding(intent, policy) =>
      sys.(core := StepOf(h, render, sys.core, Deciding(intent, policy)))
    case Securing(_, _, _, _, _) => AfterCall(h, render, sys, e)
  }

  const SECURE_START := SecureSystem(START, [], [])

  ghost predicate IsSecureRun(h: Hasher, render: Value -> string, events: seq<SecureEvent>, trace: seq<SecureSystem>) {
    && |trace| == |events| + 1 && trace[0] == SECURE_START
    && forall i :: 0 <= i < |events| ==> trace[i + 1] == SecureStep(h, render, trace[i], events[i])
  }

  /** `sys` is where the run of these events ends; every state a run passes through is such an end. */
  ghost predicate SecureRunEnds(h: Hasher, render: Value -> string, events: seq<SecureEvent>, sys: SecureSystem) {
    exists trace :: IsSecureRun(h, render, events, trace) && trace[|events|] == sys
  }

  /** The last step of a nonempty run. */
  lemma LastSecureStep(h: Hasher, render: Value -> string, events: seq<SecureEvent>, sys: SecureSystem)
    returns (before: SecureSystem)
    requires SecureRunEnds(h, render, events, sys) && events != []
    ensures SecureRunEnds(h, render, events[..|events| - 1], before)
    ensures sys == SecureStep(h, render, before, events[|events| - 1])
  {
    hide SecureStep;
    var trace :| IsSecureRun(h, render, events, trace) && trace[|events|] == sys;
    var n := |events| - 1;
    before := trace[n];
    assert trace[n + 1] == SecureStep(h, render, trace[n], events[n]);
    assert IsSecureRun(h, render, events[..n], trace[..n + 1]);
  }

  // ----- Refinement: the security layer only removes attempts

  /** What an event asks of the control plane: nothing when the security check refuses the call. */
  function CoreEvents(h: Hasher, sys: SecureSystem, e: SecureEvent): seq<Event> {
    match e
    case Evaluating(_, _) => []
    case CoreDeciding(intent, policy) => [Deciding(intent, policy)]
    case Securing(c, coreDecision, _, policy, _) =>
      if LetsThrough(h, sys, e) then [Attempting(c.intent, coreDecision, policy)] else []
  }

  /** What the first `n` events of a run ask of the control plane. */
  function CoreRun(h: Hasher, events: seq<SecureEvent>, trace: seq<SecureSystem>, n: nat): seq<Event>
    requires n <= |events| && n <= |trace|
  {
    if n == 0 then [] else CoreRun(h, events, trace, n - 1) + CoreEvents(h, trace[n - 1], events[n - 1])
  }

  lemma SecureStepRefines(h: Hasher, render: Value -> string, sys: SecureSystem, e: SecureEvent)
    ensures var after, asked := SecureStep(h, render, sys, e), CoreEvents(h, sys, e);
            after.core == if asked == [] then sys.core else StepOf(h, render, sys.core, asked[0])
  {
    hide SecureGuard, Materialize, AttemptValues, BuildSecurityReceipt, Evaluate, TargetExecutor, Decide;
  }

  /**
   * A secure run is, step by step, the core run of exactly its decisions and of the calls that the
   * security check let through in the state they met; so all that is proved of core runs holds of it.
   */
  lemma {:induction false} SecureRunRefinesRun(h: Hasher, render: Value -> string, events: seq<SecureEvent>,
                                               trace: seq<SecureSystem>, n: nat)
    requires IsSecureRun(h, render, events, trace) && n <= |events|
    ensures RunEnds(h, render, CoreRun(h, events, trace, n), trace[n].core)
  {
    hide RunEnds, SecureStep, CoreEvents;
    if n == 0 {
      NoEvents(h, render);
    } else {
      SecureRunRefinesRun(h, render, events, trace, n - 1);
      assert trace[n - 1 + 1] == SecureStep(h, render, trace[n - 1], events[n - 1]);
      CoreRunGoesOn(h, render, CoreRun(h, events, trace, n - 1), trace[n - 1], events[n - 1]);
    }
  }

  lemma CoreRunGoesOn(h: Hasher, render: Value -> string, front: seq<Event>, sys: SecureSystem, e: SecureEvent)
    requires RunEnds(h, render, front, sys.core)
    ensures RunEnds(h, render, front + CoreEvents(h, sys, e), SecureStep(h, render, sys, e).core)
  {
    SecureStepRefines(h, render, sys, e);
    hide RunEnds, SecureStep, StepOf, LetsThrough;
    var asked := CoreEvents(h, sys, e);
    if asked == [] {
      assert front + asked == front;
    } else {
      RunGoesOn(h, render, front, sys.core, asked[0]);
    }
  }

  /** The refinement, for the end of a run. */
  lemma CoreRunOf(h: Hasher, render: Value -> string, events: seq<SecureEvent>, sys: SecureSystem)
    returns (asked: seq<Event>)
    requires SecureRunEnds(h, render, events, sys)
    ensures RunEnds(h, render, asked, sys.core)
    ensures AllSecuredWellFormed(events) ==> AllWellFormed(asked)
  {
    var trace :| IsSecureRun(h, render, events, trace) && trace[|events|] == sys;
    hide IsSecureRun, RunEnds, AllSecuredWellFormed, AllWellFormed, CoreRun;
    SecureRunRefinesRun(h, render, events, trace, |events|);
    asked := CoreRun(h, events, trace, |events|);
    if AllSecuredWellFormed(events) {
      AskedWellFormed(h, events, trace, |events|);
    }
  }

  /** Secure runs keep the reachable-state invariant and the one-intent-per-revision order. */
  lemma SecureRunsAreConsistent(h: Hasher, render: Value -> string, events: seq<SecureEvent>, sys: SecureSystem)
    requires SecureRunEnds(h, render, events, sys)
    ensures Consistent(h, sys.core) && OnePerRevision(sys.core) && OnlyExactIntents(sys.core)
    ensures TakenFaithfully(h, sys.core)
  {
    hide SecureRunEnds, RunEnds, Consistent, OnePerRevision, OnlyExactIntents, TakenFaithfully;
    var asked := CoreRunOf(h, render, events, sys);
    RunsAreConsistent(h, render, asked, sys.core);
  }

  // ----- The target of a secure run

  ghost predicate AllSecuredWellFormed(events: seq<SecureEvent>) {
    forall i :: 0 <= i < |events| && events[i].Securing? ==> WellFormed(events[i].context.intent.payload)
  }

  lemma AskedOnce(h: Hasher, sys: SecureSystem, e: SecureEvent)
    requires e.Securing? ==> WellFormed(e.context.intent.payload)
    ensures AllWellFormed(CoreEvents(h, sys, e))
  {
    hide LetsThrough, WellFormed;
  }

  lemma BothWellFormed(a: seq<Event>, b: seq<Event>)
    requires AllWellFormed(a) && AllWellFormed(b)
    ensures AllWellFormed(a + b)
  {
    hide WellFormed;
  }

  lemma {:induction false} AskedWellFormed(h: Hasher, events: seq<SecureEvent>, trace: seq<SecureSystem>, n: nat)
    requires AllSecuredWellFormed(events) && n <= |events| && n <= |trace|
    ensures AllWellFormed(CoreRun(h, events, trace, n))
  {
    hide LetsThrough, WellFormed, CoreEvents;
    if n > 0 {
      AskedWellFormed(h, events, trace, n - 1);
      AskedOnce(h, trace[n - 1], events[n - 1]);
      BothWellFormed(CoreRun(h, events, trace, n - 1), CoreEvents(h, trace[n - 1], events[n - 1]));
    }
  }

  /** In a secure run whose payloads are exact (or miss a key), the target holds the replay of the log. */
  lemma SecureTargetIsReplay(h: Hasher, render: Value -> string, events: seq<SecureEvent>, sys: SecureSystem)
    requires SecureRunEnds(h, render, events, sys) && AllSecuredWellFormed(events)
    ensures sys.core.values == Replay(render, sys.core.log)
  {
    hide SecureRunEnds, RunEnds, AllSecuredWellFormed, AllWellFormed;
    var asked := CoreRunOf(h, render, events, sys);
    TargetIsReplay(h, render, asked, sys.core);
  }

  /** So it holds exactly the keys that were written, each with the value written last. */
  lemma SecureTargetHoldsLastWrites(h: Hasher, render: Value -> string, events: seq<SecureEvent>, sys: SecureSystem,
                                    key: string)
    requires SecureRunEnds(h, render, events, sys) && AllSecuredWellFormed(events)
    ensures key in sys.core.values <==> exists i :: 0 <= i < |sys.core.log| && Wrote(sys.core.log[i], key)
    ensures forall i :: WroteLast(sys.core.log, i, key) ==>
              key in sys.core.values && sys.core.values[key] == sys.core.log[i].intent.payload["value"]
  {
    hide SecureRunEnds, RunEnds, AllSecuredWellFormed, AllWellFormed, Wrote, WroteLast;
    var asked := CoreRunOf(h, render, events, sys);
    TargetHoldsLastWrites(h, render, asked, sys.core, key);
  }

  // ----- Kept evaluations are never stale

  /** Kept security decisions are bound to the state of the log position at which they were taken. */
  ghost predicate EvaluatedFaithfully(h: Hasher, sys: SecureSystem) {
    forall v :: v in sys.evaluations ==>
      && v.at <= |sys.core.log| && v.context.state == End(sys.core.log[..v.at]) && v.context.state.revision == v.at
      && v.decision == Evaluate(h, v.context, v.epoch)
  }

  lemma {:induction false} EvaluationsAreFaithful(h: Hasher, render: Value -> string, events: seq<SecureEvent>,
                                                  sys: SecureSystem)
    requires SecureRunEnds(h, render, events, sys)
    ensures EvaluatedFaithfully(h, sys)
    decreases |events|
  {
    if events == [] {
      var trace :| IsSecureRun(h, render, events, trace) && trace[|events|] == sys;
    } else {
      hide SecureRunEnds, EvaluatedFaithfully, SecureStep, Consistent, OnePerRevision, OnlyExactIntents,
           TakenFaithfully;
      var before := LastSecureStep(h, render, events, sys);
      EvaluationsAreFaithful(h, render, events[..|events| - 1], before);
      SecureRunsAreConsistent(h, render, events[..|events| - 1], before);
      StepKeepsEvaluations(h, render, before, events[|events| - 1]);
    }
  }

  lemma StepKeepsEvaluations(h: Hasher, render: Value -> string, sys: SecureSystem, e: SecureEvent)
    requires Consistent(h, sys.core) && EvaluatedFaithfully(h, sys)
    ensures EvaluatedFaithfully(h, SecureStep(h, render, sys, e))
  {
    hide CallResult, SecureValues, Evaluate, Decide, End, History;
    var after := SecureStep(h, render, sys, e);
    assert sys.core.log <= after.core.log;
    assert sys.core.log[..|sys.core.log|] == sys.core.log;
    forall v | v in after.evaluations && v.at <= |sys.core.log|
      ensures after.core.log[..v.at] == sys.core.log[..v.at]
    {
    }
  }

  /** What a run knows of a kept evaluation: it is of its own context, which is current at its log position only. */
  lemma KeptEvaluation(h: Hasher, render: Value -> string, events: seq<SecureEvent>, sys: SecureSystem, v: Evaluation)
    requires SecureRunEnds(h, render, events, sys) && v in sys.evaluations
    ensures v.decision == Evaluate(h, v.context, v.epoch) && v.decision.epoch == v.epoch
    ensures v.at == |sys.core.log| <==> v.context.state == sys.core.state
    ensures v.at == |sys.core.log| ==> Here(sys, v.context) == v.context
  {
    hide SecureRunEnds, History, OnePerRevision, OnlyExactIntents, TakenFaithfully, Evaluate, End, CheckpointAt;
    EvaluationsAreFaithful(h, render, events, sys);
    SecureRunsAreConsistent(h, render, events, sys);
    EvaluationEpoch(h, v.context, v.epoch);
    assert sys.core.log[..|sys.core.log|] == sys.core.log;
  }

  /**
   * A security decision kept in a run lets a call through only in a context equivalent to the one it
   * was evaluated in, only while nothing has been materialised since, and only while that context is
   * authorised.
   */
  lemma NoStaleAuthority(h: Hasher, render: Value -> string, events: seq<SecureEvent>, sys: SecureSystem,
                         v: Evaluation, c: Context, epoch: int)
    requires SecureRunEnds(h, render, events, sys) && v in sys.evaluations
    requires SecureGuard(h, Here(sys, c), v.decision, epoch).Ok?
    ensures || (&& Equivalent(v.context, Here(sys, c)) && v.at == |sys.core.log|
                && v.epoch <= epoch && Authorised(h, Here(sys, c), epoch))
            || Collision(h, ContextValues(h, v.context), ContextValues(h, Here(sys, c)))
  {
    hide SecureRunEnds, SecureGuard, Authorised, ContextValues, Collision, Evaluate, Reordered;
    KeptEvaluation(h, render, events, sys, v);
    BoundaryExact(h, Here(sys, c), v.decision, epoch);
    DriftCheckIsSound(h, v.context, v.epoch, Here(sys, c), epoch);
  }

  lemma EvaluationEpoch(h: Hasher, c: Context, epoch: int)
    ensures Evaluate(h, c, epoch).epoch == epoch
  {
    hide Verdict, Digest, ApprovalDigest;
  }

  /**
   * A call with two kept decisions for one intent succeeds, in the context and under the policy they
   * were taken for, exactly when nothing has been materialised since either was taken, the core
   * decision accepted, the context is authorised now, the epoch is not before that of the evaluation,
   * and the target can take the payload.
   */
  lemma KeptDecisionsExecuteExactly(h: Hasher, render: Value -> string, events: seq<SecureEvent>, sys: SecureSystem,
                                    v: Evaluation, t: Taken, epoch: int)
    requires SecureRunEnds(h, render, events, sys)
    requires v in sys.evaluations && t in sys.core.taken && t.intent == v.context.intent
    ensures || (CallResult(h, render, sys, Securing(v.context, t.decision, v.decision, t.policy, epoch)).Ok? <==>
                  && v.at == t.at == |sys.core.log|
                  && t.decision.accepted
                  && v.epoch <= epoch && Authorised(h, v.context, epoch)
                  && t.intent.action == "set_value" && ExactPayload(t.intent.payload))
            || Collision(h, ContextValues(h, v.context), ContextValues(h, Here(sys, v.context)))
            || Collision(h, BoundValues(t.intent, t.seen), BoundValues(t.intent, sys.core.state))
  {
    var e := Securing(v.context, t.decision, v.decision, t.policy, epoch);
    hide SecureRunEnds, RunEnds, History, OnePerRevision, OnlyExactIntents, TakenFaithfully, SecureGuard, Authorised,
         ContextValues, BoundValues, Collision, Evaluate, Equivalent, ExactPayload, AttemptResult, CallResult;
    CallSucceedsExactly(h, render, sys, e);
    var asked := CoreRunOf(h, render, events, sys);
    KeptDecisionExecutesExactly(h, render, asked, sys.core, t);
    KeptEvaluationLetsThroughExactly(h, render, events, sys, v, epoch);
  }

  lemma CallSucceedsExactly(h: Hasher, render: Value -> string, sys: SecureSystem, e: SecureEvent)
    requires e.Securing?
    ensures CallResult(h, render, sys, e).Ok? <==>
            && LetsThrough(h, sys, e)
            && AttemptResult(h, render, e.context.intent, e.coreDecision, sys.core.state, e.corePolicy).Ok?
  {
    hide SecureGuard, Materialize, BuildSecurityReceipt, Evaluate, TargetExecutor;
  }

  /** A kept evaluation lets a call in its own context through exactly while that context is current and authorised. */
  lemma KeptEvaluationLetsThroughExactly(h: Hasher, render: Value -> string, events: seq<SecureEvent>,
                                         sys: SecureSystem, v: Evaluation, epoch: int)
    requires SecureRunEnds(h, render, events, sys) && v in sys.evaluations
    ensures || (SecureGuard(h, Here(sys, v.context), v.decision, epoch).Ok? <==>
                  v.at == |sys.core.log| && v.epoch <= epoch && Authorised(h, v.context, epoch))
            || Collision(h, ContextValues(h, v.context), ContextValues(h, Here(sys, v.context)))
  {
    hide SecureRunEnds, SecureGuard, Authorised, ContextValues, Collision, Evaluate, Equivalent;
    KeptEvaluation(h, render, events, sys, v);
    if v.at == |sys.core.log| {
      BoundaryExact(h, v.context, v.decision, epoch);
    } else if SecureGuard(h, Here(sys, v.context), v.decision, epoch).Ok? {
      NoStaleAuthority(h, render, events, sys, v, v.context, epoch);
    }
  }

  // ----- Authority

  /** No effect without authority: whenever the executor is called, the current context is authorised. */
  lemma ExecutionHasAuthority(h: Hasher, render: Value -> string, sys: SecureSystem, e: SecureEvent)
    requires e.Securing?
    ensures Executes(h, sys, e) ==> Authorised(h, Here(sys, e.context), e.epoch) && e.decision.epoch <= e.epoch
    ensures !Executes(h, sys, e) ==>
              SecureStep(h, render, sys, e).core.values == sys.core.values
              && SecureStep(h, render, sys, e).core.state == sys.core.state
  {
    BoundaryExact(h, Here(sys, e.context), e.decision, e.epoch);
    hide SecureGuard, Guard, Authorised, Evaluate, BuildSecurityReceipt, CheckEffect, Promote, ValuesAfter,
         TargetExecutor;
  }

  /** A context in which nobody is granted anything and no resource is requested. */
  function NobodysContext(intent: Intent): Context {
    var nobody := Principal("nobody", "agent", "tenant");
    Context(intent, nobody, nobody, Delegation("", "", "", {}, {}, false, None, None, None), SecurityPolicy([], {}, []),
            INITIAL, {}, [], None)
  }

  /**
   * Security verification does not stand for authority: a successful attempt on the target verifies,
   * at every epoch and under a receipt built for it, in a context that is authorised at no epoch.
   */
  lemma VerifiedWithoutAuthority(h: Hasher, render: Value -> string, epoch: int)
    ensures var intent := Intent("intent-001", 0, "ZERO", "set_value", SafePayload());
            var policy, c := Policy({"set_value"}), NobodysContext(intent);
            var attempt := AttemptResult(h, render, intent, Decide(h, intent, INITIAL, policy), INITIAL, policy);
            && attempt.Ok?
            && (forall t :: !Authorised(h, c, t))
            && var m := attempt.value;
               var r := BuildSecurityReceipt(h, m.receipt, Evaluate(h, c, epoch));
               VerifySecurityTransition(h, c, m.next, m.receipt, r, m.effect, epoch).Ok?
  {
    var intent := Intent("intent-001", 0, "ZERO", "set_value", SafePayload());
    var policy, c := Policy({"set_value"}), NobodysContext(intent);
    SafePayloadFacts();
    hide SafePayload, ContainsKey, ExactPayload, Guard, Digest, Evaluate, BuildSecurityReceipt,
         VerifySecurityTransition, Materialize, TargetExecutor;
    var d := Decide(h, intent, INITIAL, policy);
    DecisionPassesGuard(h, intent, INITIAL, policy);
    SucceedsExactly(h, render, intent, d, INITIAL, policy);
    SecurityVerifiesAnyContext(h, c, d, policy, epoch, TargetExecutor(h, render));
  }

  function SafePayload(): Payload {
    map["key" := Str("mode"), "value" := Str("safe")]
  }

  lemma SafePayloadFacts()
    ensures ExactPayload(SafePayload()) && !ContainsKey(SecretKey, Map(SafePayload()))
  {
    var p := SafePayload();
    assert forall k :: k in p ==> (k == "key" || k == "value") && p[k].Str?;
    hide SafePayload, SecretKey;
    OrdinaryKeys();
  }

  /** Audit `i` belongs to link `i` of the log: same state and intent, authority then, and at the decision. */
  ghost predicate Audited(h: Hasher, sys: SecureSystem) {
    && |sys.audits| == |sys.core.log|
    && forall i :: 0 <= i < |sys.audits| ==> AuditMatches(h, sys.audits[i], sys.core.log[i])
  }

  ghost predicate AuditMatches(h: Hasher, a: Audit, l: Link) {
    && a.context.state == l.prior && a.context.intent == l.intent
    && a.decision.epoch <= a.epoch && a.decision == Evaluate(h, a.context, a.decision.epoch)
    && (forall t :: a.decision.epoch <= t <= a.epoch ==> Authorised(h, a.context, t))
    && VerifySecurityTransition(h, a.context, l.next, l.receipt, a.receipt, l.effect, a.epoch).Ok?
  }

  lemma SecuredMeans(h: Hasher, c: Context, coreDecision: Decision, d: SecurityDecision, corePolicy: Policy,
                     epoch: int, execute: Executor)
    requires SecureMaterialize(h, c, coreDecision, d, corePolicy, epoch, execute).Ok?
    ensures SecureGuard(h, c, d, epoch).Ok?
  {
    hide SecureGuard, Materialize, BuildSecurityReceipt, Evaluate;
  }

  lemma SecuredAudit(h: Hasher, c: Context, coreDecision: Decision, d: SecurityDecision, corePolicy: Policy,
                     epoch: int, execute: Executor)
    requires SecureMaterialize(h, c, coreDecision, d, corePolicy, epoch, execute).Ok?
    ensures var r := SecureMaterialize(h, c, coreDecision, d, corePolicy, epoch, execute).value;
            AuditMatches(h, Audit(c, d, epoch, r.receipt), LinkOf(c.state, c.intent, r.core))
  {
    hide SecureMaterialize, VerifySecurityTransition, SecureGuard, Authorised, Evaluate;
    SecuredVerifies(h, c, coreDecision, d, corePolicy, epoch, execute);
    SecuredMeans(h, c, coreDecision, d, corePolicy, epoch, execute);
    BoundaryExact(h, c, d, epoch);
    forall t | d.epoch <= t <= epoch ensures Authorised(h, c, t) {
      NoAcceptanceGap(h, c, d, epoch, t);
    }
  }

  /**
   * In every secure run each materialised intent has its audit: the decision is what its context gets
   * at the decision's epoch, the context is authorised from then to the audit's epoch, and the
   * security receipt verifies for exactly that step.
   */
  lemma {:induction false} EverySecureStepIsAudited(h: Hasher, render: Value -> string, events: seq<SecureEvent>,
                                                    sys: SecureSystem)
    requires SecureRunEnds(h, render, events, sys)
    ensures Audited(h, sys)
    decreases |events|
  {
    if events == [] {
      var trace :| IsSecureRun(h, render, events, trace) && trace[|events|] == sys;
    } else {
      hide AuditMatches, SecureStep, SecureRunEnds;
      var before := LastSecureStep(h, render, events, sys);
      EverySecureStepIsAudited(h, render, events[..|events| - 1], before);
      SecureStepAudits(h, render, before, events[|events| - 1]);
    }
  }

  lemma SecureStepAudits(h: Hasher, render: Value -> string, sys: SecureSystem, e: SecureEvent)
    requires Audited(h, sys)
    ensures Audited(h, SecureStep(h, render, sys, e))
  {
    hide SecureMaterialize, SecureGuard, AttemptValues, AuditMatches, TargetExecutor, Evaluate, Decide;
    if e.Securing? {
      var c := Here(sys, e.context);
      if CallResult(h, render, sys, e).Ok? {
        SecuredAudit(h, c, e.coreDecision, e.decision, e.corePolicy, e.epoch, TargetExecutor(h, render));
      }
    }
  }
}
