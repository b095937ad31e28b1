/** Option and Result, the two shapes in which the model states Python's None and its exceptions. */
module Prelude {
  datatype Option<+T> = None | Some(value: T)

  /** The exceptions the source raises, each named after its message. */
  datatype Error =
    // Python's own KeyError and TypeError
    | MissingKey(key: string) | WrongType
    // core.py
    | StaleRevision | StaleCheckpoint | DuplicateIntent | ActionNotAllowlisted | SecretLikePayloadRejected
    | RejectedDecision | DecisionBindingMismatch | StateDriftAfterDecision | EffectActionMismatch
    | EffectRequestMismatch | ReadbackMismatch | ReceiptHashMismatch | ReceiptIntentMismatch
    | ReceiptPriorStateMismatch | ReceiptFromRevisionMismatch | RevisionMustAdvanceOnce
    | NextStateRevisionMismatch | IntentMissingFromNextState | ReceiptChainMismatch | EffectDigestMismatch
    | ReceiptNextStateMismatch | UnsupportedTargetAction
    // security.py
    | PrincipalNotPermittedForAction | PrincipalTenantNotPermittedForAction | ResourceOutsidePrincipalScope
    | DelegationRequesterMismatch | DelegationRequesterTenantMismatch | DelegationExecutorMismatch
    | DelegationExecutorTenantMismatch | DelegationInactive | DelegationExpired | DelegationActionNotPermitted
    | ResourceOutsideDelegationScope | ApprovalIntentMismatch | ApprovalPrincipalMismatch
    | ApprovalTenantMismatch | ApprovalActionMismatch | ApprovalNotGranted | IndependentVerificationRequired
    | ApprovalVerifierRequired | IndependentVerifierRequired | ApprovalRequired | ApprovalEvidenceNotAnchored
    | ResourceScopeRequired | RejectedSecurityDecision | SecurityEvaluationEpochRollback
    | SecurityContextDriftAfterDecision | SecurityReceiptHashMismatch | SecurityCoreReceiptMismatch
    | SecurityIntentMismatch | SecurityRequesterMismatch | SecurityExecutorMismatch
    | SecurityDelegationMismatch | SecurityPolicyMismatch | SecurityResourceScopeMismatch
    | SecurityProvenanceMismatch | SecurityApprovalMismatch | SecurityEvaluationEpochMismatch
    | SecurityContextNoLongerAccepted(reason: Option<Error>)
    // ukrl.py
    | FailClosed
    // canonical.py
    | EvidenceFieldsNotText | InvalidEvidenceStatus | EvidenceDigestMalformed | ArtifactsNotMappings
    | ArtifactFieldsNotText | InvalidCanonicalStatus | IdentityFieldsEmpty | RevisionNegative
    | DecisionsNotText | ContainsSecretMaterial | VerifiedNeedsVerifiedEvidence | UnsupportedSchemaVersion
    | EvidenceNotList | InvalidCanonicalJSON | RootNotObject

  datatype Result<+T> = Ok(value: T) | Err(error: Error) {
    predicate IsFailure() {
      Err?
    }

    function PropagateFailure<U>(): Result<U>
      requires Err?
    {
      Err(error)
    }

    function Extract(): T
      requires Ok?
    {
      value
    }
  }

  /** `if not condition: raise ...(error)` */
  function Require(condition: bool, error: Error): Result<()> {
    if condition then Ok(()) else Err(error)
  }
}
