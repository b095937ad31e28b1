/** Which reason a refusal of the security layer gives, in terms of the context. */
module SecurityReasons {
  import opened Prelude
  import opened Lists
  import opened Checks
  import opened Hashing
  import opened ControlPlane
  import opened Decisions
  import opened Receipts
  import opened Security
  import opened SecurityProofs

  // ----- evaluate_security

  /** A grant of the policy for the requester and the action of the intent. */
  ghost predicate ForRequester(c: Context, g: Grant) {
    g in c.policy.grants && g.principalId == c.requester.principalId && g.action == c.intent.action
  }

  ghost function ScopeChecks(c: Context): seq<Check> {
    [Check(exists r :: r in c.resources, ResourceScopeRequired),
     Check(exists g :: ForRequester(c, g), PrincipalNotPermittedForAction),
     Check(exists g :: ForRequester(c, g) && g.tenantId == Some(c.requester.tenantId),
           PrincipalTenantNotPermittedForAction),
     Check(exists g :: ForRequester(c, g) && g.tenantId == Some(c.requester.tenantId) && c.resources <= g.resourceScope,
           ResourceOutsidePrincipalScope)]
  }

  ghost function DelegationChecks(c: Context, epoch: int): seq<Check> {
    var d := c.delegation;
    [Check(d.delegatorPrincipalId == c.requester.principalId, DelegationRequesterMismatch),
     Check(d.delegatorTenantId == Some(c.requester.tenantId), DelegationRequesterTenantMismatch),
     Check(d.delegatePrincipalId == c.executor.principalId, DelegationExecutorMismatch),
     Check(d.delegateTenantId == Some(c.executor.tenantId), DelegationExecutorTenantMismatch),
     Check(d.active, DelegationInactive),
     Check(d.expiresAtEpoch == None || epoch < d.expiresAtEpoch.value, DelegationExpired),
     Check(c.intent.action in d.allowedActions, DelegationActionNotPermitted),
     Check(c.resources <= d.resourceScope, ResourceOutsideDelegationScope)]
  }

  /** The terms of the approval, for this intent and requester. */
  ghost function TermChecks(h: Hasher, c: Context, a: Approval): seq<Check> {
    [Check(a.intentDigest == IntentDigest(h, c.intent), ApprovalIntentMismatch),
     Check(a.principalId == c.requester.principalId, ApprovalPrincipalMismatch),
     Check(a.tenantId == Some(c.requester.tenantId), ApprovalTenantMismatch),
     Check(a.action == c.intent.action, ApprovalActionMismatch),
     Check(a.approved, ApprovalNotGranted)]
  }

  /** Who verified it, and that the policy knows of that. */
  ghost function VerifierChecks(c: Context, a: Approval): seq<Check> {
    [Check(a.verificationDigest !in {None, Some("")}, IndependentVerificationRequired),
     Check(a.verifierPrincipalId !in {None, Some("")} && a.verifierTenantId !in {None, Some("")},
           ApprovalVerifierRequired),
     Check(!(a.verifierPrincipalId == Some(c.requester.principalId) && a.verifierTenantId == Some(c.requester.tenantId))
           && !(a.verifierPrincipalId == Some(c.executor.principalId)
                && a.verifierTenantId == Some(c.executor.tenantId)),
           IndependentVerifierRequired),
     Check(exists n :: n in c.policy.anchors && Vouches(n, c, a), ApprovalEvidenceNotAnchored)]
  }

  /** The anchor names this verification of this approval, for this requester. */
  ghost predicate Vouches(n: Anchor, c: Context, a: Approval) {
    && a.verifierPrincipalId == Some(n.verifierPrincipalId) && a.verifierTenantId == Some(n.verifierTenantId)
    && n.action == a.action && n.intentDigest == a.intentDigest && a.verificationDigest == Some(n.verificationDigest)
    && n.requesterPrincipalId == Some(c.requester.principalId) && n.requesterTenantId == Some(c.requester.tenantId)
  }

  ghost function ApprovalChecks(h: Hasher, c: Context): seq<Check> {
    match c.approval
    case None => [Check(false, ApprovalRequired)]
    case Some(a) => TermChecks(h, c, a) + VerifierChecks(c, a)
  }

  /** Everything `evaluate_security` asks for, in order. */
  ghost function VerdictChecks(h: Hasher, c: Context, epoch: int): seq<Check> {
    ScopeChecks(c) + DelegationChecks(c, epoch)
    + (if c.intent.action in c.policy.approvalRequired then ApprovalChecks(h, c) else [])
  }

  lemma ScopeReasons(c: Context) returns (r: Result<()>)
    ensures r == if c.resources == {} then Err(ResourceScopeRequired) else CheckGrants(c)
    ensures DecidedBy(r, ScopeChecks(c))
  {
    r := if c.resources == {} then Err(ResourceScopeRequired) else CheckGrants(c);
    var p, t := ForPrincipal(c.requester.principalId, c.intent.action), ForTenant(c.requester.tenantId);
    var gs := Filter(p, c.policy.grants);
    FilterMembers(p, c.policy.grants);
    FilterMembers(t, gs);
    hide Filter;
    assert forall g :: g in gs <==> ForRequester(c, g);
    assert forall g :: g in Filter(t, gs) <==> ForRequester(c, g) && g.tenantId == Some(c.requester.tenantId);
    assert gs != [] <==> exists g :: g in gs by { SomeMember(gs); }
    assert Filter(t, gs) != [] <==> exists g :: g in Filter(t, gs) by { SomeMember(Filter(t, gs)); }
    var k := ScopeChecks(c);
    assert [k[0], k[1], k[2], k[3]] == k;
    Decided(r, k);
  }

  lemma SomeMember<T>(xs: seq<T>)
    ensures xs != [] <==> exists x :: x in xs
  {
    if xs != [] {
      assert xs[0] in xs;
    }
  }

  lemma DelegationReasons(c: Context, epoch: int)
    ensures DecidedBy(CheckDelegation(c.delegation, c.requester, c.executor, c.intent.action, c.resources, epoch),
                      DelegationChecks(c, epoch))
  {
    var k := DelegationChecks(c, epoch);
    assert [k[0], k[1], k[2], k[3], k[4], k[5], k[6], k[7]] == k;
    Decided(CheckDelegation(c.delegation, c.requester, c.executor, c.intent.action, c.resources, epoch), k);
  }

  lemma TermReasons(h: Hasher, c: Context, a: Approval)
    ensures DecidedBy(CheckApprovalTerms(a, IntentDigest(h, c.intent), c.requester, c.intent.action),
                      TermChecks(h, c, a))
  {
    hide IntentDigest;
    var k := TermChecks(h, c, a);
    assert [k[0], k[1], k[2], k[3], k[4]] == k;
    Decided(CheckApprovalTerms(a, IntentDigest(h, c.intent), c.requester, c.intent.action), k);
  }

  lemma VerifierReasons(c: Context, a: Approval) returns (r: Result<()>)
    ensures var v := CheckVerifier(a, c.requester, c.executor);
            r == if v.Err? then v
                 else Require(ExpectedAnchor(a, c.requester) in c.policy.anchors, ApprovalEvidenceNotAnchored)
    ensures DecidedBy(r, VerifierChecks(c, a))
  {
    var v := CheckVerifier(a, c.requester, c.executor);
    r := if v.Err? then v
    else Require(ExpectedAnchor(a, c.requester) in c.policy.anchors, ApprovalEvidenceNotAnchored);
    var k := VerifierChecks(c, a);
    assert k[0].holds == Truthy(a.verificationDigest);
    assert k[1].holds == (Truthy(a.verifierPrincipalId) && Truthy(a.verifierTenantId));
    if k[0].holds && k[1].holds {
      VerifierIdentity(c, a);
      assert forall n :: Vouches(n, c, a) <==> n == ExpectedAnchor(a, c.requester);
      assert k[3].holds == (ExpectedAnchor(a, c.requester) in c.policy.anchors);
    }
    hide Truthy, ExpectedAnchor, Vouches;
    assert [k[0], k[1], k[2], k[3]] == k;
    Decided(r, k);
  }

  /** Of a named verifier, being someone else is a matter of both id and tenant. */
  lemma VerifierIdentity(c: Context, a: Approval)
    requires a.verifierPrincipalId.Some? && a.verifierTenantId.Some?
    ensures VerifierChecks(c, a)[2].holds <==>
            (a.verifierPrincipalId.value, a.verifierTenantId.value) !in
            {(c.requester.principalId, c.requester.tenantId), (c.executor.principalId, c.executor.tenantId)}
  {
  }

  lemma ApprovalReasonsExact(h: Hasher, c: Context)
    ensures DecidedBy(CheckApproval(h, c), ApprovalChecks(h, c))
  {
    if c.approval.Some? {
      var a := c.approval.value;
      TermReasons(h, c, a);
      var verifier := VerifierReasons(c, a);
      hide CheckApprovalTerms, CheckVerifier, TermChecks, VerifierChecks, IntentDigest, DecidedBy;
      TwoChains(CheckApproval(h, c), TermChecks(h, c, a), VerifierChecks(c, a),
                CheckApprovalTerms(a, IntentDigest(h, c.intent), c.requester, c.intent.action), verifier);
    } else {
      var k := ApprovalChecks(h, c);
      assert [k[0]] == k;
      Decided(CheckApproval(h, c), k);
    }
  }

  /**
   * The verdict, reason included: the context is accepted exactly when every check holds, and refused
   * with the error of the first one that does not.
   */
  lemma VerdictReasons(h: Hasher, c: Context, epoch: int)
    ensures DecidedBy(Verdict(h, c, epoch), VerdictChecks(h, c, epoch))
  {
    var scope := ScopeReasons(c);
    DelegationReasons(c, epoch);
    ApprovalReasonsExact(h, c);
    hide CheckGrants, CheckDelegation, CheckApproval, ScopeChecks, DelegationChecks, ApprovalChecks;
    var delegation := CheckDelegation(c.delegation, c.requester, c.executor, c.intent.action, c.resources, epoch);
    var required := c.intent.action in c.policy.approvalRequired;
    var approval := if required then CheckApproval(h, c) else Ok(());
    var k := if required then ApprovalChecks(h, c) else [];
    if !required {
      Decided(approval, k);
    }
    var both: Result<()> := if scope.Err? then scope else delegation;
    hide DecidedBy;
    TwoChains(both, ScopeChecks(c), DelegationChecks(c, epoch), scope, delegation);
    TwoChains(Verdict(h, c, epoch), ScopeChecks(c) + DelegationChecks(c, epoch), k, both, approval);
  }

  /** A security decision gives that error as its reason, and carries intent, epoch and digests of the context. */
  lemma EvaluationReason(h: Hasher, c: Context, epoch: int)
    ensures var d := Evaluate(h, c, epoch);
            && d.intentId == c.intent.intentId && d.epoch == epoch
            && d.intentDigest == IntentDigest(h, c.intent) && d.stateDigest == StateDigest(h, c.state)
            && d.requesterDigest == Digest(h, PrincipalValue(c.requester))
            && d.executorDigest == Digest(h, PrincipalValue(c.executor))
            && d.delegationDigest == Digest(h, DelegationValue(c.delegation))
            && d.policyDigest == Digest(h, PolicyValue(c.policy))
            && d.resourcesDigest == Digest(h, Sorted(c.resources))
            && d.provenanceDigest == Digest(h, ArtifactsValue(h, c.artifacts))
            && d.approvalDigest == (if c.approval.Some? then Some(Digest(h, ApprovalValue(c.approval.value))) else None)
            && (d.accepted <==> d.reason == None)
            && (forall e :: d.reason == Some(e) <==> FirstFailure(VerdictChecks(h, c, epoch), e))
  {
    VerdictReasons(h, c, epoch);
    hide Verdict, VerdictChecks, FirstFailure, AllHold, Digest;
  }

  // ----- secure_materialize

  /** What is checked at the effect boundary, in order. */
  ghost function BoundaryChecks(h: Hasher, c: Context, d: SecurityDecision, epoch: int): seq<Check> {
    [Check(d.accepted, RejectedSecurityDecision),
     Check(d.epoch <= epoch, SecurityEvaluationEpochRollback),
     Check(Authorised(h, c, epoch), SecurityContextNoLongerAccepted(Evaluate(h, c, epoch).reason)),
     Check(d == Evaluate(h, c, d.epoch), SecurityContextDriftAfterDecision)]
  }

  /** Every refusal at the effect boundary says which of its checks failed first. */
  lemma BoundaryReasons(h: Hasher, c: Context, d: SecurityDecision, epoch: int)
    ensures DecidedBy(SecureGuard(h, c, d, epoch), BoundaryChecks(h, c, d, epoch))
  {
    AcceptsExactly(h, c, epoch);
    hide Authorised, Verdict;
    if d.epoch <= epoch && Verdict(h, c, epoch).Ok? {
      AcceptedEarlier(h, c, epoch, d.epoch);
    }
    SameButEpoch(h, c, epoch, d.epoch);
    hide Evaluate;
    var k := BoundaryChecks(h, c, d, epoch);
    assert [k[0], k[1], k[2], k[3]] == k;
    Decided(SecureGuard(h, c, d, epoch), k);
  }

  /** A rejected call of `secure_materialize` says what failed first, at the boundary or in `materialize`. */
  lemma SecureMaterializeReasons(h: Hasher, c: Context, coreDecision: Decision, d: SecurityDecision,
                                 corePolicy: Policy, epoch: int, execute: Executor)
    ensures DecidedBy(SecureMaterialize(h, c, coreDecision, d, corePolicy, epoch, execute),
                      BoundaryChecks(h, c, d, epoch)
                      + (BindingChecks(h, c.intent, coreDecision, c.state)
                         + IntentChecks(c.intent, c.state, corePolicy)
                         + EffectChecks(c.intent, execute(c.intent.action, c.intent.payload))))
  {
    BoundaryReasons(h, c, d, epoch);
    MaterializeReasons(h, c.intent, coreDecision, c.state, corePolicy, execute);
    hide SecureGuard, Materialize, BoundaryChecks, BindingChecks, IntentChecks, EffectChecks, DecidedBy, Evaluate,
         BuildSecurityReceipt;
    TwoChains(SecureMaterialize(h, c, coreDecision, d, corePolicy, epoch, execute), BoundaryChecks(h, c, d, epoch),
              BindingChecks(h, c.intent, coreDecision, c.state) + IntentChecks(c.intent, c.state, corePolicy)
              + EffectChecks(c.intent, execute(c.intent.action, c.intent.payload)),
              SecureGuard(h, c, d, epoch), Materialize(h, c.intent, coreDecision, c.state, corePolicy, execute));
  }

  // ----- verify_security_transition

  /** What is asked of the security receipt, in order, once the transition verifies. */
  ghost function SecurityReceiptChecks(h: Hasher, c: Context, core: Receipt, r: SecurityReceipt, epoch: int)
    : seq<Check>
  {
    var b := r.base;
    [Check(r.receiptHash == Digest(h, SecurityBaseValue(b)), SecurityReceiptHashMismatch),
     Check(b.coreReceiptHash == core.receiptHash, SecurityCoreReceiptMismatch),
     Check(b.intentDigest == IntentDigest(h, c.intent), SecurityIntentMismatch),
     Check(b.requesterDigest == Digest(h, PrincipalValue(c.requester)), SecurityRequesterMismatch),
     Check(b.executorDigest == Digest(h, PrincipalValue(c.executor)), SecurityExecutorMismatch),
     Check(b.delegationDigest == Digest(h, DelegationValue(c.delegation)), SecurityDelegationMismatch),
     Check(b.policyDigest == Digest(h, PolicyValue(c.policy)), SecurityPolicyMismatch),
     Check(b.resourcesDigest == Digest(h, Sorted(c.resources)), SecurityResourceScopeMismatch),
     Check(b.provenanceDigest == Digest(h, ArtifactsValue(h, c.artifacts)), SecurityProvenanceMismatch),
     Check(b.approvalDigest == ApprovalDigest(h, c.approval), SecurityApprovalMismatch),
     Check(b.epoch == epoch, SecurityEvaluationEpochMismatch)]
  }

  /** Every refusal by `verify_security_transition` says which check failed first, the transition's own included. */
  lemma VerifySecurityReasons(h: Hasher, c: Context, next: State, core: Receipt, r: SecurityReceipt, effect: Effect,
                              epoch: int)
    ensures DecidedBy(VerifySecurityTransition(h, c, next, core, r, effect, epoch),
                      VerifyChecks(h, LinkIn(c, next, core, effect)) + SecurityReceiptChecks(h, c, core, r, epoch))
  {
    VerifyReasons(h, LinkIn(c, next, core, effect));
    var k := SecurityReceiptChecks(h, c, core, r, epoch);
    hide VerifyTransition, VerifyChecks, Digest, IntentDigest, ApprovalDigest, PolicyValue, ArtifactsValue, Sorted,
         SecurityBaseValue, PrincipalValue, DelegationValue;
    var whole := VerifySecurityTransition(h, c, next, core, r, effect, epoch);
    var first := VerifyTransition(h, c.state, next, c.intent, core, effect);
    var second: Result<()> := if first.Ok? then whole else Err(WrongType);
    if first.Ok? {
      assert [k[0], k[1], k[2], k[3], k[4], k[5], k[6], k[7], k[8], k[9], k[10]] == k;
      Decided(second, k);
    }
    hide VerifySecurityTransition, SecurityReceiptChecks, DecidedBy;
    assert first.Err? ==> whole == Err(first.error) by { FirstPart(h, c, next, core, r, effect, epoch); }
    TwoChains(whole, VerifyChecks(h, LinkIn(c, next, core, effect)), k, first, second);
  }

  lemma FirstPart(h: Hasher, c: Context, next: State, core: Receipt, r: SecurityReceipt, effect: Effect, epoch: int)
    ensures var first := VerifyTransition(h, c.state, next, c.intent, core, effect);
            first.Err? ==> VerifySecurityTransition(h, c, next, core, r, effect, epoch) == Err(first.error)
  {
    hide VerifyTransition, Digest, IntentDigest, ApprovalDigest, PolicyValue, ArtifactsValue, Sorted;
  }
}
