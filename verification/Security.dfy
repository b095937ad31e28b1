/** security.py: principals, delegations, policies, the authorisation function and its receipts. */
module Security {
  import opened Prelude
  import opened Lists
  import opened Ordering
  import opened Json
  import opened Hashing
  import opened ControlPlane

  datatype Principal = Principal(principalId: string, principalType: string, tenantId: string)

  datatype Delegation = Delegation(
    delegationId: string,
    delegatorPrincipalId: string,
    delegatePrincipalId: string,
    allowedActions: set<string>,
    resourceScope: set<string>,
    active: bool,
    expiresAtEpoch: Option<int>,
    delegatorTenantId: Option<string>,
    delegateTenantId: Option<string>)

  datatype Artifact = Artifact(
    artifactId: string,
    sourceType: string,
    sourceId: string,
    trustClass: string,
    contentDigest: string)

  datatype Grant = Grant(principalId: string, action: string, resourceScope: set<string>, tenantId: Option<string>)

  datatype Approval = Approval(
    approvalId: string,
    intentDigest: string,
    principalId: string,
    action: string,
    approved: bool,
    verificationDigest: Option<string>,
    tenantId: Option<string>,
    verifierPrincipalId: Option<string>,
    verifierTenantId: Option<string>)

  datatype Anchor = Anchor(
    verifierPrincipalId: string,
    verifierTenantId: string,
    action: string,
    intentDigest: string,
    verificationDigest: string,
    requesterPrincipalId: Option<string>,
    requesterTenantId: Option<string>)

  datatype SecurityPolicy = SecurityPolicy(
    grants: seq<Grant>,
    approvalRequired: set<string>,
    anchors: seq<Anchor>)

  // ----- Hashed values

  function Sorted(s: set<string>): Value {
    Texts(SortedSet(s))
  }

  function NullableInt(o: Option<int>): Value {
    match o
    case None => Null
    case Some(n) => Num(n)
  }

  function PrincipalFields(p: Principal): Fields {
    [("principal_id", Str(p.principalId)),
     ("principal_type", Str(p.principalType)),
     ("tenant_id", Str(p.tenantId))]
  }

  function DelegationFields(d: Delegation): Fields {
    [("delegation_id", Str(d.delegationId)),
     ("delegator_principal_id", Str(d.delegatorPrincipalId)),
     ("delegate_principal_id", Str(d.delegatePrincipalId)),
     ("allowed_actions", Sorted(d.allowedActions)),
     ("resource_scope", Sorted(d.resourceScope)),
     ("active", Bool(d.active)),
     ("expires_at_epoch", NullableInt(d.expiresAtEpoch)),
     ("delegator_tenant_id", Nullable(d.delegatorTenantId)),
     ("delegate_tenant_id", Nullable(d.delegateTenantId))]
  }

  function ArtifactFields(a: Artifact): Fields {
    [("artifact_id", Str(a.artifactId)),
     ("source_type", Str(a.sourceType)),
     ("source_id", Str(a.sourceId)),
     ("trust_class", Str(a.trustClass)),
     ("content_digest", Str(a.contentDigest))]
  }

  function GrantFields(g: Grant): Fields {
    [("principal_id", Str(g.principalId)),
     ("action", Str(g.action)),
     ("resource_scope", Sorted(g.resourceScope)),
     ("tenant_id", Nullable(g.tenantId))]
  }

  function ApprovalFields(a: Approval): Fields {
    [("approval_id", Str(a.approvalId)),
     ("intent_digest", Str(a.intentDigest)),
     ("principal_id", Str(a.principalId)),
     ("action", Str(a.action)),
     ("approved", Bool(a.approved)),
     ("verification_digest", Nullable(a.verificationDigest)),
     ("tenant_id", Nullable(a.tenantId)),
     ("verifier_principal_id", Nullable(a.verifierPrincipalId)),
     ("verifier_tenant_id", Nullable(a.verifierTenantId))]
  }

  function AnchorFields(a: Anchor): Fields {
    [("verifier_principal_id", Str(a.verifierPrincipalId)),
     ("verifier_tenant_id", Str(a.verifierTenantId)),
     ("action", Str(a.action)),
     ("intent_digest", Str(a.intentDigest)),
     ("verification_digest", Str(a.verificationDigest)),
     ("requester_principal_id", Nullable(a.requesterPrincipalId)),
     ("requester_tenant_id", Nullable(a.requesterTenantId))]
  }

  function PrincipalValue(p: Principal): Value { Obj(PrincipalFields(p)) }
  function DelegationValue(d: Delegation): Value { Obj(DelegationFields(d)) }
  function ArtifactValue(a: Artifact): Value { Obj(ArtifactFields(a)) }
  function GrantValue(g: Grant): Value { Obj(GrantFields(g)) }
  function ApprovalValue(a: Approval): Value { Obj(ApprovalFields(a)) }
  function AnchorValue(a: Anchor): Value { Obj(AnchorFields(a)) }

  /** `x or ""` */
  function OrEmpty(o: Option<string>): string {
    match o
    case None => ""
    case Some(s) => s
  }

  /** The sort key of a grant; the trailing tuple of resources is the rest of the key. */
  function GrantKey(g: Grant): seq<string> {
    [g.principalId, g.action, OrEmpty(g.tenantId)] + SortedSet(g.resourceScope)
  }

  function AnchorKey(a: Anchor): seq<string> {
    [a.verifierPrincipalId, a.verifierTenantId, a.action, a.intentDigest, a.verificationDigest,
     OrEmpty(a.requesterPrincipalId), OrEmpty(a.requesterTenantId)]
  }

  function PolicyFields(p: SecurityPolicy): Fields {
    [("grants", List(Each(GrantValue, SortBy(GrantKey, p.grants)))),
     ("approval_required_actions", Sorted(p.approvalRequired)),
     ("approval_anchors", List(Each(AnchorValue, SortBy(AnchorKey, p.anchors))))]
  }

  function PolicyValue(p: SecurityPolicy): Value { Obj(PolicyFields(p)) }

  /** What the provenance digest keeps of an artifact. */
  datatype Provenance = Provenance(artifactId: string, artifactDigest: string)

  function ProvenanceOf(h: Hasher): Artifact -> Provenance {
    (a: Artifact) => Provenance(a.artifactId, Digest(h, ArtifactValue(a)))
  }

  function ProvenanceKey(p: Provenance): seq<string> {
    [p.artifactId, p.artifactDigest]
  }

  function ProvenanceFields(p: Provenance): Fields {
    [("artifact_id", Str(p.artifactId)),
     ("artifact_digest", Str(p.artifactDigest))]
  }

  function ProvenanceValue(p: Provenance): Value { Obj(ProvenanceFields(p)) }

  function ArtifactsValue(h: Hasher, artifacts: seq<Artifact>): Value {
    List(Each(ProvenanceValue, SortBy(ProvenanceKey, Each(ProvenanceOf(h), artifacts))))
  }

  // ----- The authorisation function

  /** Everything `evaluate_security` looks at except the epoch. */
  datatype Context = Context(
    intent: Intent,
    requester: Principal,
    executor: Principal,
    delegation: Delegation,
    policy: SecurityPolicy,
    state: State,
    resources: set<string>,
    artifacts: seq<Artifact>,
    approval: Option<Approval>)

  datatype SecurityDecision = SecurityDecision(
    intentId: string,
    intentDigest: string,
    stateDigest: string,
    requesterDigest: string,
    executorDigest: string,
    delegationDigest: string,
    policyDigest: string,
    resourcesDigest: string,
    provenanceDigest: string,
    approvalDigest: Option<string>,
    epoch: int,
    accepted: bool,
    reason: Option<Error>)

  function ForPrincipal(principalId: string, action: string): Grant -> bool {
    (g: Grant) => g.principalId == principalId && g.action == action
  }

  function ForTenant(tenantId: string): Grant -> bool {
    (g: Grant) => g.tenantId == Some(tenantId)
  }

  /** Neither None nor empty. */
  predicate Truthy(o: Option<string>) {
    o.Some? && o.value != ""
  }

  function CheckGrants(c: Context): Result<()> {
    var grants := Filter(ForPrincipal(c.requester.principalId, c.intent.action), c.policy.grants);
    var _ :- Require(grants != [], PrincipalNotPermittedForAction);
    var tenantGrants := Filter(ForTenant(c.requester.tenantId), grants);
    var _ :- Require(tenantGrants != [], PrincipalTenantNotPermittedForAction);
    Require(exists g :: g in tenantGrants && c.resources <= g.resourceScope, ResourceOutsidePrincipalScope)
  }

  function CheckDelegation(d: Delegation, requester: Principal, executor: Principal, action: string,
                           resources: set<string>, epoch: int): Result<()>
  {
    var _ :- Require(d.delegatorPrincipalId == requester.principalId, DelegationRequesterMismatch);
    var _ :- Require(d.delegatorTenantId == Some(requester.tenantId), DelegationRequesterTenantMismatch);
    var _ :- Require(d.delegatePrincipalId == executor.principalId, DelegationExecutorMismatch);
    var _ :- Require(d.delegateTenantId == Some(executor.tenantId), DelegationExecutorTenantMismatch);
    var _ :- Require(d.active, DelegationInactive);
    var _ :- Require(!(d.expiresAtEpoch.Some? && epoch >= d.expiresAtEpoch.value), DelegationExpired);
    var _ :- Require(action in d.allowedActions, DelegationActionNotPermitted);
    Require(resources <= d.resourceScope, ResourceOutsideDelegationScope)
  }

  function CheckApprovalTerms(a: Approval, intentDigest: string, requester: Principal, action: string): Result<()> {
    var _ :- Require(a.intentDigest == intentDigest, ApprovalIntentMismatch);
    var _ :- Require(a.principalId == requester.principalId, ApprovalPrincipalMismatch);
    var _ :- Require(a.tenantId == Some(requester.tenantId), ApprovalTenantMismatch);
    var _ :- Require(a.action == action, ApprovalActionMismatch);
    Require(a.approved, ApprovalNotGranted)
  }

  function CheckVerifier(a: Approval, requester: Principal, executor: Principal): (r: Result<()>)
    ensures r.Ok? ==> Truthy(a.verificationDigest) && Truthy(a.verifierPrincipalId) && Truthy(a.verifierTenantId)
  {
    var _ :- Require(Truthy(a.verificationDigest), IndependentVerificationRequired);
    var _ :- Require(Truthy(a.verifierPrincipalId) && Truthy(a.verifierTenantId), ApprovalVerifierRequired);
    var verifier := (a.verifierPrincipalId.value, a.verifierTenantId.value);
    Require(verifier !in {(requester.principalId, requester.tenantId), (executor.principalId, executor.tenantId)},
            IndependentVerifierRequired)
  }

  function ExpectedAnchor(a: Approval, requester: Principal): Anchor
    requires a.verifierPrincipalId.Some? && a.verifierTenantId.Some? && a.verificationDigest.Some?
  {
    Anchor(a.verifierPrincipalId.value, a.verifierTenantId.value, a.action, a.intentDigest, a.verificationDigest.value,
           Some(requester.principalId), Some(requester.tenantId))
  }

  function CheckApproval(h: Hasher, c: Context): Result<()> {
    var _ :- Require(c.approval.Some?, ApprovalRequired);
    var a := c.approval.value;
    var _ :- CheckApprovalTerms(a, IntentDigest(h, c.intent), c.requester, c.intent.action);
    var _ :- CheckVerifier(a, c.requester, c.executor);
    Require(ExpectedAnchor(a, c.requester) in c.policy.anchors, ApprovalEvidenceNotAnchored)
  }

  /** The guard chain of `evaluate_security`: Ok, or the reason for the refusal. */
  function Verdict(h: Hasher, c: Context, epoch: int): Result<()> {
    var _ :- Require(c.resources != {}, ResourceScopeRequired);
    var _ :- CheckGrants(c);
    var _ :- CheckDelegation(c.delegation, c.requester, c.executor, c.intent.action, c.resources, epoch);
    if c.intent.action in c.policy.approvalRequired then CheckApproval(h, c) else Ok(())
  }

  function ApprovalDigest(h: Hasher, a: Option<Approval>): Option<string> {
    match a
    case None => None
    case Some(approval) => Some(Digest(h, ApprovalValue(approval)))
  }

  /** `evaluate_security` */
  function Evaluate(h: Hasher, c: Context, epoch: int): SecurityDecision {
    var verdict := Verdict(h, c, epoch);
    SecurityDecision(
      c.intent.intentId,
      IntentDigest(h, c.intent),
      StateDigest(h, c.state),
      Digest(h, PrincipalValue(c.requester)),
      Digest(h, PrincipalValue(c.executor)),
      Digest(h, DelegationValue(c.delegation)),
      Digest(h, PolicyValue(c.policy)),
      Digest(h, Sorted(c.resources)),
      Digest(h, ArtifactsValue(h, c.artifacts)),
      ApprovalDigest(h, c.approval),
      epoch,
      verdict.Ok?,
      if verdict.Ok? then None else Some(verdict.error))
  }

  // ----- Receipts

  /** The fields of a security receipt that its hash covers. */
  datatype SecurityBase = SecurityBase(
    coreReceiptHash: string,
    intentDigest: string,
    requesterDigest: string,
    executorDigest: string,
    delegationDigest: string,
    policyDigest: string,
    resourcesDigest: string,
    provenanceDigest: string,
    approvalDigest: Option<string>,
    epoch: int)

  datatype SecurityReceipt = SecurityReceipt(receiptId: string, base: SecurityBase, receiptHash: string)

  function SecurityBaseFields(b: SecurityBase): Fields {
    [("core_receipt_hash", Str(b.coreReceiptHash)),
     ("intent_digest", Str(b.intentDigest)),
     ("requester_digest", Str(b.requesterDigest)),
     ("executor_digest", Str(b.executorDigest)),
     ("delegation_digest", Str(b.delegationDigest)),
     ("policy_digest", Str(b.policyDigest)),
     ("requested_resources_digest", Str(b.resourcesDigest)),
     ("provenance_digest", Str(b.provenanceDigest)),
     ("approval_digest", Nullable(b.approvalDigest)),
     ("evaluation_epoch", Num(b.epoch))]
  }

  function SecurityBaseValue(b: SecurityBase): Value { Obj(SecurityBaseFields(b)) }

  /** `SecurityReceipt.build` */
  function BuildSecurityReceipt(h: Hasher, core: Receipt, d: SecurityDecision): SecurityReceipt {
    var base := SecurityBase(core.receiptHash, d.intentDigest, d.requesterDigest, d.executorDigest, d.delegationDigest,
                             d.policyDigest, d.resourcesDigest, d.provenanceDigest, d.approvalDigest, d.epoch);
    var hash := Digest(h, SecurityBaseValue(base));
    SecurityReceipt("security-receipt-" + First16(hash), base, hash)
  }

  /** `SecurityReceipt.verify` */
  predicate SecurityReceiptVerifies(h: Hasher, r: SecurityReceipt) {
    r.receiptHash == Digest(h, SecurityBaseValue(r.base))
  }

  // ----- Materialise and verify

  /** What `secure_materialize` checks before it hands over to `materialize`. */
  function SecureGuard(h: Hasher, c: Context, decision: SecurityDecision, epoch: int): Result<()> {
    var _ :- Require(decision.accepted, RejectedSecurityDecision);
    var _ :- Require(epoch >= decision.epoch, SecurityEvaluationEpochRollback);
    var current := Evaluate(h, c, epoch);
    var _ :- Require(current.accepted, SecurityContextNoLongerAccepted(current.reason));
    Require(current.(epoch := decision.epoch) == decision, SecurityContextDriftAfterDecision)
  }

  datatype Secured = Secured(core: Materialized, receipt: SecurityReceipt)

  /** `secure_materialize` */
  function SecureMaterialize(h: Hasher, c: Context, coreDecision: Decision, decision: SecurityDecision,
                             corePolicy: Policy, epoch: int, execute: Executor): Result<Secured>
  {
    var _ :- SecureGuard(h, c, decision, epoch);
    var core :- Materialize(h, c.intent, coreDecision, c.state, corePolicy, execute);
    Ok(Secured(core, BuildSecurityReceipt(h, core.receipt, Evaluate(h, c, epoch))))
  }

  /** `verify_security_transition`; the prior state and the intent are those of the context. */
  function VerifySecurityTransition(h: Hasher, c: Context, next: State, coreReceipt: Receipt, receipt: SecurityReceipt,
                                    effect: Effect, epoch: int): Result<()>
  {
    var b := receipt.base;
    var _ :- VerifyTransition(h, c.state, next, c.intent, coreReceipt, effect);
    var _ :- Require(SecurityReceiptVerifies(h, receipt), SecurityReceiptHashMismatch);
    var _ :- Require(b.coreReceiptHash == coreReceipt.receiptHash, SecurityCoreReceiptMismatch);
    var _ :- Require(b.intentDigest == IntentDigest(h, c.intent), SecurityIntentMismatch);
    var _ :- Require(b.requesterDigest == Digest(h, PrincipalValue(c.requester)), SecurityRequesterMismatch);
    var _ :- Require(b.executorDigest == Digest(h, PrincipalValue(c.executor)), SecurityExecutorMismatch);
    var _ :- Require(b.delegationDigest == Digest(h, DelegationValue(c.delegation)), SecurityDelegationMismatch);
    var _ :- Require(b.policyDigest == Digest(h, PolicyValue(c.policy)), SecurityPolicyMismatch);
    var _ :- Require(b.resourcesDigest == Digest(h, Sorted(c.resources)), SecurityResourceScopeMismatch);
    var _ :- Require(b.provenanceDigest == Digest(h, ArtifactsValue(h, c.artifacts)), SecurityProvenanceMismatch);
    var _ :- Require(b.approvalDigest == ApprovalDigest(h, c.approval), SecurityApprovalMismatch);
    Require(b.epoch == epoch, SecurityEvaluationEpochMismatch)
  }
}
