/** The dicts that are hashed or written: their member names, and what is under each name. */
module Formats {
  import opened Prelude
  import opened Json
  import opened JsonText
  import opened Hashing
  import opened Lists
  import opened Ordering
  import opened ControlPlane
  import opened Security
  import opened CanonicalProblem

  /** `CanonicalState.digest`. */
  lemma StateDict(s: State)
    ensures IsDict(StateValue(s), [
      ("revision", Num(s.revision)),
      ("checkpoint", Str(s.checkpoint)),
      ("processed_intents", Texts(s.processed)),
      ("previous_receipt_hash", Nullable(s.previousReceiptHash))])
  {
    hide Obj, IsDict;
    DisplayedDict(StateFields(s));
  }

  /** `Intent.digest`. */
  lemma IntentDict(i: Intent)
    ensures IsDict(IntentValue(i), [
      ("intent_id", Str(i.intentId)),
      ("expected_revision", Num(i.expectedRevision)),
      ("expected_checkpoint", Str(i.expectedCheckpoint)),
      ("action", Str(i.action)),
      ("payload", Map(i.payload))])
  {
    hide Obj, IsDict;
    DisplayedDict(IntentFields(i));
  }

  /** `EffectResult.digest`. */
  lemma EffectDict(e: Effect)
    ensures IsDict(EffectValue(e), [
      ("effect_id", Str(e.effectId)),
      ("action", Str(e.action)),
      ("requested_payload", Map(e.requested)),
      ("observed_payload", Map(e.observed))])
  {
    hide Obj, IsDict;
    DisplayedDict(EffectFields(e));
  }

  /** The base of `Receipt.build`. */
  lemma ReceiptDict(b: ReceiptBase)
    ensures IsDict(BaseValue(b), [
      ("intent_id", Str(b.intentId)),
      ("intent_digest", Str(b.intentDigest)),
      ("prior_state_digest", Str(b.priorStateDigest)),
      ("next_state_digest", Str(b.nextStateDigest)),
      ("from_revision", Num(b.fromRevision)),
      ("to_revision", Num(b.toRevision)),
      ("effect_digest", Str(b.effectDigest)),
      ("previous_receipt_hash", Nullable(b.previousReceiptHash))])
  {
    hide Obj, IsDict;
    DisplayedDict(BaseFields(b));
  }

  /** `Principal.digest`. */
  lemma PrincipalDict(p: Principal)
    ensures IsDict(PrincipalValue(p), [
      ("principal_id", Str(p.principalId)),
      ("principal_type", Str(p.principalType)),
      ("tenant_id", Str(p.tenantId))])
  {
    hide Obj, IsDict;
    DisplayedDict(PrincipalFields(p));
  }

  /** `Delegation.digest`. */
  lemma DelegationDict(d: Delegation)
    ensures IsDict(DelegationValue(d), [
      ("delegation_id", Str(d.delegationId)),
      ("delegator_principal_id", Str(d.delegatorPrincipalId)),
      ("delegate_principal_id", Str(d.delegatePrincipalId)),
      ("allowed_actions", Sorted(d.allowedActions)),
      ("resource_scope", Sorted(d.resourceScope)),
      ("active", Bool(d.active)),
      ("expires_at_epoch", NullableInt(d.expiresAtEpoch)),
      ("delegator_tenant_id", Nullable(d.delegatorTenantId)),
      ("delegate_tenant_id", Nullable(d.delegateTenantId))])
  {
    hide Obj, IsDict;
    DisplayedDict(DelegationFields(d));
  }

  /** `ContextArtifact.digest`. */
  lemma ArtifactDict(a: Artifact)
    ensures IsDict(ArtifactValue(a), [
      ("artifact_id", Str(a.artifactId)),
      ("source_type", Str(a.sourceType)),
      ("source_id", Str(a.sourceId)),
      ("trust_class", Str(a.trustClass)),
      ("content_digest", Str(a.contentDigest))])
  {
    hide Obj, IsDict;
    DisplayedDict(ArtifactFields(a));
  }

  /** One entry of `_provenance_digest`. */
  lemma ProvenanceDict(p: Provenance)
    ensures IsDict(ProvenanceValue(p), [
      ("artifact_id", Str(p.artifactId)),
      ("artifact_digest", Str(p.artifactDigest))])
  {
    hide Obj, IsDict;
    DisplayedDict(ProvenanceFields(p));
  }

  /** `ActionGrant.payload`. */
  lemma GrantDict(g: Grant)
    ensures IsDict(GrantValue(g), [
      ("principal_id", Str(g.principalId)),
      ("action", Str(g.action)),
      ("resource_scope", Sorted(g.resourceScope)),
      ("tenant_id", Nullable(g.tenantId))])
  {
    hide Obj, IsDict;
    DisplayedDict(GrantFields(g));
  }

  /** `ApprovalEvidence.digest`. */
  lemma ApprovalDict(a: Approval)
    ensures IsDict(ApprovalValue(a), [
      ("approval_id", Str(a.approvalId)),
      ("intent_digest", Str(a.intentDigest)),
      ("principal_id", Str(a.principalId)),
      ("action", Str(a.action)),
      ("approved", Bool(a.approved)),
      ("verification_digest", Nullable(a.verificationDigest)),
      ("tenant_id", Nullable(a.tenantId)),
      ("verifier_principal_id", Nullable(a.verifierPrincipalId)),
      ("verifier_tenant_id", Nullable(a.verifierTenantId))])
  {
    hide Obj, IsDict;
    DisplayedDict(ApprovalFields(a));
  }

  /** `ApprovalAnchor.payload`. */
  lemma AnchorDict(a: Anchor)
    ensures IsDict(AnchorValue(a), [
      ("verifier_principal_id", Str(a.verifierPrincipalId)),
      ("verifier_tenant_id", Str(a.verifierTenantId)),
      ("action", Str(a.action)),
      ("intent_digest", Str(a.intentDigest)),
      ("verification_digest", Str(a.verificationDigest)),
      ("requester_principal_id", Nullable(a.requesterPrincipalId)),
      ("requester_tenant_id", Nullable(a.requesterTenantId))])
  {
    hide Obj, IsDict;
    DisplayedDict(AnchorFields(a));
  }

  /** `SecurityPolicy.digest`. */
  lemma PolicyDict(p: SecurityPolicy)
    ensures IsDict(PolicyValue(p), [
      ("grants", List(Each(GrantValue, SortBy(GrantKey, p.grants)))),
      ("approval_required_actions", Sorted(p.approvalRequired)),
      ("approval_anchors", List(Each(AnchorValue, SortBy(AnchorKey, p.anchors))))])
  {
    hide Obj, IsDict;
    DisplayedDict(PolicyFields(p));
  }

  /** The base of `SecurityReceipt.build`. */
  lemma SecurityReceiptDict(b: SecurityBase)
    ensures IsDict(SecurityBaseValue(b), [
      ("core_receipt_hash", Str(b.coreReceiptHash)),
      ("intent_digest", Str(b.intentDigest)),
      ("requester_digest", Str(b.requesterDigest)),
      ("executor_digest", Str(b.executorDigest)),
      ("delegation_digest", Str(b.delegationDigest)),
      ("policy_digest", Str(b.policyDigest)),
      ("requested_resources_digest", Str(b.resourcesDigest)),
      ("provenance_digest", Str(b.provenanceDigest)),
      ("approval_digest", Nullable(b.approvalDigest)),
      ("evaluation_epoch", Num(b.epoch))])
  {
    hide Obj, IsDict;
    DisplayedDict(SecurityBaseFields(b));
  }

  /** One evidence item of `CanonicalProblemState.to_dict`. */
  lemma EvidenceDict(e: Evidence)
    ensures IsDict(Obj(EvidenceFields(e)), [
      ("source", e.source),
      ("kind", e.kind),
      ("locator", e.locator),
      ("observed_at", e.observedAt),
      ("digest", e.digest),
      ("status", e.status)])
  {
    hide Obj, IsDict;
    DisplayedDict(EvidenceFields(e));
  }

  /** `CanonicalProblemState.to_dict`, and so what `to_json` writes. */
  lemma ProblemDict(s: ProblemState)
    requires AllMaps(s.artifacts)
    ensures IsDict(ToDict(s), [
      ("schema_version", Str("1.0")),
      ("problem_id", Str(s.problemId)),
      ("title", Str(s.title)),
      ("objective", Str(s.objective)),
      ("status", Str(s.status)),
      ("revision", Num(s.revision)),
      ("created_at", Str(s.createdAt)),
      ("updated_at", Str(s.updatedAt)),
      ("evidence", List(EvidenceValues(s.evidence))),
      ("decisions", List(s.decisions)),
      ("artifacts", List(s.artifacts)),
      ("verification", Map(s.verification)),
      ("next_actions", List(s.nextActions))])
  {
    hide Obj, IsDict;
    DisplayedDict(ProblemFields(s));
  }

  /** The whole of `_provenance_digest`: an entry for each artifact, with its id and digest, in order. */
  lemma ProvenanceListing(h: Hasher, artifacts: seq<Artifact>) returns (entries: seq<Provenance>)
    ensures ArtifactsValue(h, artifacts) == List(Each(ProvenanceValue, entries))
    ensures multiset(entries) == multiset(Each((a: Artifact) => Provenance(a.artifactId, h(Encode(ArtifactValue(a)))),
                                               artifacts))
    ensures SortedBy(ProvenanceKey, entries)
  {
    var made := Each(ProvenanceOf(h), artifacts);
    entries := SortBy(ProvenanceKey, made);
    SortSorts(ProvenanceKey, made);
    hide SortBy, ArtifactValue, Encode;
    assert made == Each((a: Artifact) => Provenance(a.artifactId, h(Encode(ArtifactValue(a)))), artifacts);
  }

  /** A tuple of texts is a list of strings, in order. */
  lemma TextsList(xs: seq<string>)
    ensures Texts(xs).List? && |Texts(xs).items| == |xs|
    ensures forall i :: 0 <= i < |xs| ==> Texts(xs).items[i] == Str(xs[i])
    ensures Nullable(None) == Null && forall s :: Nullable(Some(s)) == Str(s)
    ensures NullableInt(None) == Null && forall n :: NullableInt(Some(n)) == Num(n)
  {
  }

  /** A set of texts is the list of its elements in the order of their code points. */
  lemma SortedList(s: set<string>, listed: seq<string>)
    requires forall x :: x in listed <==> x in s
    requires forall i, j :: 0 <= i < j < |listed| ==> Before(listed[i], listed[j])
    ensures Sorted(s) == Texts(listed)
  {
    ListingIs(s, listed);
  }
}
