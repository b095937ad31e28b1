/** core.py: states, intents, decisions, receipts, and the decide / materialize / verify operations. */
module ControlPlane {
  import opened Prelude
  import opened Json
  import opened Hashing
  import opened Markers

  datatype State = State(
    revision: int,
    checkpoint: string,
    processed: seq<string>,
    previousReceiptHash: Option<string>)

  /** `CanonicalState()` */
  const INITIAL := State(0, "ZERO", [], None)

  type Payload = map<string, Value>

  datatype Intent = Intent(
    intentId: string,
    expectedRevision: int,
    expectedCheckpoint: string,
    action: string,
    payload: Payload)

  datatype Policy = Policy(allowedActions: set<string>)

  datatype Decision = Decision(
    intentId: string,
    intentDigest: string,
    stateDigest: string,
    accepted: bool,
    reason: Option<Error>)

  datatype Effect = Effect(
    effectId: string,
    action: string,
    requested: Payload,
    observed: Payload)

  /** The fields of a receipt that its hash covers; `receiptId` is not among them. */
  datatype ReceiptBase = ReceiptBase(
    intentId: string,
    intentDigest: string,
    priorStateDigest: string,
    nextStateDigest: string,
    fromRevision: int,
    toRevision: int,
    effectDigest: string,
    previousReceiptHash: Option<string>)

  datatype Receipt = Receipt(receiptId: string, base: ReceiptBase, receiptHash: string)

  // ----- The hashed texts

  function Nullable(o: Option<string>): Value {
    match o
    case None => Null
    case Some(s) => Str(s)
  }

  function Texts(xs: seq<string>): Value {
    List(seq(|xs|, i requires 0 <= i < |xs| => Str(xs[i])))
  }

  function StateFields(s: State): Fields {
    [("revision", Num(s.revision)),
     ("checkpoint", Str(s.checkpoint)),
     ("processed_intents", Texts(s.processed)),
     ("previous_receipt_hash", Nullable(s.previousReceiptHash))]
  }

  function StateValue(s: State): Value {
    Obj(StateFields(s))
  }

  function IntentFields(i: Intent): Fields {
    [("intent_id", Str(i.intentId)),
     ("expected_revision", Num(i.expectedRevision)),
     ("expected_checkpoint", Str(i.expectedCheckpoint)),
     ("action", Str(i.action)),
     ("payload", Map(i.payload))]
  }

  function IntentValue(i: Intent): Value {
    Obj(IntentFields(i))
  }

  function EffectFields(e: Effect): Fields {
    [("effect_id", Str(e.effectId)),
     ("action", Str(e.action)),
     ("requested_payload", Map(e.requested)),
     ("observed_payload", Map(e.observed))]
  }

  function EffectValue(e: Effect): Value {
    Obj(EffectFields(e))
  }

  function BaseFields(b: ReceiptBase): Fields {
    [("intent_id", Str(b.intentId)),
     ("intent_digest", Str(b.intentDigest)),
     ("prior_state_digest", Str(b.priorStateDigest)),
     ("next_state_digest", Str(b.nextStateDigest)),
     ("from_revision", Num(b.fromRevision)),
     ("to_revision", Num(b.toRevision)),
     ("effect_digest", Str(b.effectDigest)),
     ("previous_receipt_hash", Nullable(b.previousReceiptHash))]
  }

  function BaseValue(b: ReceiptBase): Value {
    Obj(BaseFields(b))
  }

  function StateDigest(h: Hasher, s: State): string {
    Digest(h, StateValue(s))
  }

  function IntentDigest(h: Hasher, i: Intent): string {
    Digest(h, IntentValue(i))
  }

  function EffectDigest(h: Hasher, e: Effect): string {
    Digest(h, EffectValue(e))
  }

  // ----- Receipts

  function First16(s: string): string {
    if |s| <= 16 then s else s[..16]
  }

  /** `Receipt.build` */
  function BuildReceipt(h: Hasher, intent: Intent, prior: State, nextWithoutHash: State, effect: Effect): Receipt {
    var base := ReceiptBase(
                  intent.intentId,
                  IntentDigest(h, intent),
                  StateDigest(h, prior),
                  StateDigest(h, nextWithoutHash),
                  prior.revision,
                  nextWithoutHash.revision,
                  EffectDigest(h, effect),
                  prior.previousReceiptHash);
    var hash := Digest(h, BaseValue(base));
    Receipt("receipt-" + First16(hash), base, hash)
  }

  /** `Receipt.verify` */
  predicate ReceiptVerifies(h: Hasher, r: Receipt) {
    r.receiptHash == Digest(h, BaseValue(r.base))
  }

  // ----- Decide

  function ValidateIntent(intent: Intent, state: State, policy: Policy): Result<()> {
    var _ :- Require(intent.expectedRevision == state.revision, StaleRevision);
    var _ :- Require(intent.expectedCheckpoint == state.checkpoint, StaleCheckpoint);
    var _ :- Require(intent.intentId !in state.processed, DuplicateIntent);
    var _ :- Require(intent.action in policy.allowedActions, ActionNotAllowlisted);
    Require(!ContainsKey(SecretKey, Map(intent.payload)), SecretLikePayloadRejected)
  }

  function Decide(h: Hasher, intent: Intent, state: State, policy: Policy): Decision {
    var r := ValidateIntent(intent, state, policy);
    Decision(
      intent.intentId,
      IntentDigest(h, intent),
      StateDigest(h, state),
      r.Ok?,
      if r.Ok? then None else Some(r.error))
  }

  // ----- Materialize

  datatype Materialized = Materialized(next: State, receipt: Receipt, effect: Effect)

  /** Everything `materialize` checks before it calls the executor. */
  function Guard(h: Hasher, intent: Intent, decision: Decision, state: State, policy: Policy): Result<()> {
    var _ :- Require(decision.accepted, RejectedDecision);
    var _ :- Require(decision.intentId == intent.intentId && decision.intentDigest == IntentDigest(h, intent),
                     DecisionBindingMismatch);
    var _ :- Require(decision.stateDigest == StateDigest(h, state), StateDriftAfterDecision);
    ValidateIntent(intent, state, policy)
  }

  /** The readback: what the executor reports must be what the intent asked for. */
  function CheckEffect(intent: Intent, effect: Effect): Result<()> {
    var _ :- Require(effect.action == intent.action, EffectActionMismatch);
    var _ :- Require(effect.requested == intent.payload, EffectRequestMismatch);
    Require(effect.observed == intent.payload, ReadbackMismatch)
  }

  function CheckpointText(revision: int): string {
    "R" + IntText(revision)
  }

  function NextWithoutHash(state: State, intent: Intent): State {
    State(
      state.revision + 1,
      CheckpointText(state.revision + 1),
      state.processed + [intent.intentId],
      state.previousReceiptHash)
  }

  function Promote(h: Hasher, state: State, intent: Intent, effect: Effect): Materialized {
    var next := NextWithoutHash(state, intent);
    var receipt := BuildReceipt(h, intent, state, next, effect);
    Materialized(next.(previousReceiptHash := Some(receipt.receiptHash)), receipt, effect)
  }

  /** An executor returns an effect or raises. */
  type Executor = (string, Payload) -> Result<Effect>

  function Materialize(h: Hasher, intent: Intent, decision: Decision, state: State, policy: Policy, execute: Executor)
    : Result<Materialized>
  {
    var _ :- Guard(h, intent, decision, state, policy);
    var effect :- execute(intent.action, intent.payload);
    var _ :- CheckEffect(intent, effect);
    Ok(Promote(h, state, intent, effect))
  }

  // ----- Verify

  function VerifyTransition(h: Hasher, prior: State, next: State, intent: Intent, receipt: Receipt, effect: Effect)
    : Result<()>
  {
    var b := receipt.base;
    var _ :- Require(ReceiptVerifies(h, receipt), ReceiptHashMismatch);
    var _ :- Require(b.intentId == intent.intentId && b.intentDigest == IntentDigest(h, intent),
                     ReceiptIntentMismatch);
    var _ :- Require(b.priorStateDigest == StateDigest(h, prior), ReceiptPriorStateMismatch);
    var _ :- Require(b.fromRevision == prior.revision, ReceiptFromRevisionMismatch);
    var _ :- Require(b.toRevision == prior.revision + 1, RevisionMustAdvanceOnce);
    var _ :- Require(next.revision == prior.revision + 1, NextStateRevisionMismatch);
    var _ :- Require(intent.intentId in next.processed, IntentMissingFromNextState);
    var _ :- Require(next.previousReceiptHash == Some(receipt.receiptHash), ReceiptChainMismatch);
    var _ :- Require(b.effectDigest == EffectDigest(h, effect), EffectDigestMismatch);
    var expected := next.(previousReceiptHash := prior.previousReceiptHash);
    Require(b.nextStateDigest == StateDigest(h, expected), ReceiptNextStateMismatch)
  }
}
