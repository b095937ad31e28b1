/** What `decide` accepts and what `materialize` demands, whatever the executor. */
module Decisions {
  import opened Prelude
  import opened Checks
  import opened Json
  import opened Hashing
  import opened Markers
  import opened ControlPlane

  /**
   * The intent names the exact revision and checkpoint, is new and allowlisted, and no dict in its
   * payload, at any depth, has a secret-like key.
   */
  ghost predicate Acceptable(intent: Intent, state: State, policy: Policy) {
    && intent.expectedRevision == state.revision && intent.expectedCheckpoint == state.checkpoint
    && intent.intentId !in state.processed
    && intent.action in policy.allowedActions
    && forall path :: !MarkedAt(SecretKey, Map(intent.payload), path)
  }

  /** Guard and decision are made of the same checks: `decide` accepts exactly the acceptable intents. */
  lemma DecideExact(h: Hasher, intent: Intent, state: State, policy: Policy)
    ensures ValidateIntent(intent, state, policy).Ok? <==> Acceptable(intent, state, policy)
    ensures Decide(h, intent, state, policy).accepted <==> Acceptable(intent, state, policy)
  {
    hide ContainsKey, MarkedAt, Digest;
    ScanIsExact(SecretKey, Map(intent.payload));
  }

  /** What makes an intent acceptable, in the order in which it is asked for, and what is said when it fails. */
  ghost function IntentChecks(intent: Intent, state: State, policy: Policy): seq<Check> {
    [Check(intent.expectedRevision == state.revision, StaleRevision),
     Check(intent.expectedCheckpoint == state.checkpoint, StaleCheckpoint),
     Check(intent.intentId !in state.processed, DuplicateIntent),
     Check(intent.action in policy.allowedActions, ActionNotAllowlisted),
     Check(forall path :: !MarkedAt(SecretKey, Map(intent.payload), path), SecretLikePayloadRejected)]
  }

  lemma IntentReasons(intent: Intent, state: State, policy: Policy)
    ensures DecidedBy(ValidateIntent(intent, state, policy), IntentChecks(intent, state, policy))
  {
    hide ContainsKey, MarkedAt;
    ScanIsExact(SecretKey, Map(intent.payload));
    var k := IntentChecks(intent, state, policy);
    assert [k[0], k[1], k[2], k[3], k[4]] == k;
    Decided(ValidateIntent(intent, state, policy), k);
  }

  /** A decision names its intent and the digests of intent and state, and as reason the first check to fail. */
  lemma DecisionReason(h: Hasher, intent: Intent, state: State, policy: Policy)
    ensures var d := Decide(h, intent, state, policy);
            && d.intentId == intent.intentId && d.intentDigest == IntentDigest(h, intent)
            && d.stateDigest == StateDigest(h, state)
            && (d.accepted <==> d.reason == None)
            && (forall e :: d.reason == Some(e) <==> FirstFailure(IntentChecks(intent, state, policy), e))
  {
    IntentReasons(intent, state, policy);
    hide ValidateIntent, IntentChecks, FirstFailure, AllHold, Digest;
  }

  ghost function BindingChecks(h: Hasher, intent: Intent, d: Decision, state: State): seq<Check> {
    [Check(d.accepted, RejectedDecision),
     Check(d.intentId == intent.intentId && d.intentDigest == IntentDigest(h, intent), DecisionBindingMismatch),
     Check(d.stateDigest == StateDigest(h, state), StateDriftAfterDecision)]
  }

  /** The readback; an exception of the executor comes first. */
  ghost function EffectChecks(intent: Intent, effect: Result<Effect>): seq<Check> {
    [Check(effect.Ok?, if effect.Ok? then ReadbackMismatch else effect.error),
     Check(effect.Ok? ==> effect.value.action == intent.action, EffectActionMismatch),
     Check(effect.Ok? ==> effect.value.requested == intent.payload, EffectRequestMismatch),
     Check(effect.Ok? ==> effect.value.observed == intent.payload, ReadbackMismatch)]
  }

  lemma GuardReasons(h: Hasher, intent: Intent, d: Decision, state: State, policy: Policy)
    ensures DecidedBy(Guard(h, intent, d, state, policy),
                      BindingChecks(h, intent, d, state) + IntentChecks(intent, state, policy))
  {
    hide ValidateIntent, IntentDigest, StateDigest, IntentChecks;
    var k := BindingChecks(h, intent, d, state);
    var binding: Result<()> := if !d.accepted then Err(RejectedDecision)
    else if !(d.intentId == intent.intentId && d.intentDigest == IntentDigest(h, intent))
    then Err(DecisionBindingMismatch)
    else if d.stateDigest != StateDigest(h, state) then Err(StateDriftAfterDecision) else Ok(());
    assert [k[0], k[1], k[2]] == k;
    Decided(binding, k);
    IntentReasons(intent, state, policy);
    TwoChains(Guard(h, intent, d, state, policy), k, IntentChecks(intent, state, policy), binding,
              ValidateIntent(intent, state, policy));
  }

  lemma EffectReasons(intent: Intent, effect: Result<Effect>) returns (r: Result<()>)
    ensures r == if effect.Ok? then CheckEffect(intent, effect.value) else Err(effect.error)
    ensures DecidedBy(r, EffectChecks(intent, effect))
  {
    r := if effect.Ok? then CheckEffect(intent, effect.value) else Err(effect.error);
    var k := EffectChecks(intent, effect);
    assert [k[0], k[1], k[2], k[3]] == k;
    Decided(r, k);
  }

  /**
   * Every rejection by `materialize` says which of its checks failed first: those that bind decision,
   * intent and state, those of the intent, the executor's own, and last the readback.
   */
  lemma MaterializeReasons(h: Hasher, intent: Intent, d: Decision, state: State, policy: Policy, execute: Executor)
    ensures DecidedBy(Materialize(h, intent, d, state, policy, execute),
                      BindingChecks(h, intent, d, state) + IntentChecks(intent, state, policy)
                      + EffectChecks(intent, execute(intent.action, intent.payload)))
  {
    var effect := execute(intent.action, intent.payload);
    GuardReasons(h, intent, d, state, policy);
    var rest := EffectReasons(intent, effect);
    hide Guard, CheckEffect, Promote, IntentChecks, BindingChecks, EffectChecks, DecidedBy;
    TwoChains(Materialize(h, intent, d, state, policy, execute),
              BindingChecks(h, intent, d, state) + IntentChecks(intent, state, policy), EffectChecks(intent, effect),
              Guard(h, intent, d, state, policy), rest);
  }

  /** The decision accepted this very intent in this very state, going by digests. */
  ghost predicate Binds(h: Hasher, d: Decision, intent: Intent, state: State) {
    && d.accepted && d.intentId == intent.intentId && d.intentDigest == IntentDigest(h, intent)
    && d.stateDigest == StateDigest(h, state)
  }

  /**
   * `materialize` succeeds exactly when the decision binds intent and state, the intent is still
   * acceptable, and the executor reports an effect that requested and observed exactly what was asked.
   */
  lemma MaterializeExact(h: Hasher, intent: Intent, d: Decision, state: State, policy: Policy, execute: Executor)
    ensures Materialize(h, intent, d, state, policy, execute).Ok? <==>
            && Binds(h, d, intent, state) && Acceptable(intent, state, policy)
            && var e := execute(intent.action, intent.payload);
               e.Ok? && e.value.action == intent.action
               && e.value.requested == intent.payload == e.value.observed
    ensures Guard(h, intent, d, state, policy).Ok? <==> Binds(h, d, intent, state) && Acceptable(intent, state, policy)
  {
    DecideExact(h, intent, state, policy);
    hide ValidateIntent, Acceptable, Digest, Promote, StateDigest, IntentDigest;
  }

  /** At the state it was taken in, a decision passes the guard exactly when it accepts. */
  lemma DecisionPassesGuard(h: Hasher, intent: Intent, state: State, policy: Policy)
    ensures var d := Decide(h, intent, state, policy);
            Guard(h, intent, d, state, policy).Ok? <==> d.accepted
  {
    hide Digest, ValidateIntent;
  }
}
