/** What the digests of the security layer bind, and what its verdict depends on. */
module SecurityProofs {
  import opened Prelude
  import opened Lists
  import opened Ordering
  import opened Json
  import opened Hashing
  import opened ControlPlane
  import opened Receipts
  import opened Security

  // ----- Hashed values determine what they were built from

  lemma SortedInjective(a: set<string>, b: set<string>)
    requires Sorted(a) == Sorted(b)
    ensures a == b
  {
    TextsInjective(SortedSet(a), SortedSet(b));
    SortedSetInjective(a, b);
  }

  lemma PrincipalInjective(a: Principal, b: Principal)
    requires PrincipalValue(a) == PrincipalValue(b)
    ensures a == b
  {
    hide Obj;
    ObjInjective(PrincipalFields(a), PrincipalFields(b));
  }

  lemma DelegationInjective(a: Delegation, b: Delegation)
    requires DelegationValue(a) == DelegationValue(b)
    ensures a == b
  {
    hide Obj, Sorted;
    ObjInjective(DelegationFields(a), DelegationFields(b));
    SortedInjective(a.allowedActions, b.allowedActions);
    SortedInjective(a.resourceScope, b.resourceScope);
  }

  lemma ArtifactInjective(a: Artifact, b: Artifact)
    requires ArtifactValue(a) == ArtifactValue(b)
    ensures a == b
  {
    hide Obj;
    ObjInjective(ArtifactFields(a), ArtifactFields(b));
  }

  lemma GrantInjective(a: Grant, b: Grant)
    requires GrantValue(a) == GrantValue(b)
    ensures a == b
  {
    hide Obj, Sorted;
    ObjInjective(GrantFields(a), GrantFields(b));
    SortedInjective(a.resourceScope, b.resourceScope);
  }

  lemma ApprovalInjective(a: Approval, b: Approval)
    requires ApprovalValue(a) == ApprovalValue(b)
    ensures a == b
  {
    hide Obj;
    ObjInjective(ApprovalFields(a), ApprovalFields(b));
  }

  lemma AnchorInjective(a: Anchor, b: Anchor)
    requires AnchorValue(a) == AnchorValue(b)
    ensures a == b
  {
    hide Obj;
    ObjInjective(AnchorFields(a), AnchorFields(b));
  }

  lemma ProvenanceInjective(a: Provenance, b: Provenance)
    requires ProvenanceValue(a) == ProvenanceValue(b)
    ensures a == b
  {
    hide Obj;
    ObjInjective(ProvenanceFields(a), ProvenanceFields(b));
  }

  lemma SecurityBaseInjective(a: SecurityBase, b: SecurityBase)
    requires SecurityBaseValue(a) == SecurityBaseValue(b)
    ensures a == b
  {
    hide Obj;
    ObjInjective(SecurityBaseFields(a), SecurityBaseFields(b));
  }

  lemma EachInjective<T(!new)>(f: T -> Value, xs: seq<T>, ys: seq<T>)
    requires Each(f, xs) == Each(f, ys)
    requires forall x, y :: f(x) == f(y) ==> x == y
    ensures xs == ys
  {
    assert |xs| == |Each(f, xs)| == |ys|;
    forall i | 0 <= i < |xs| ensures xs[i] == ys[i] {
      assert Each(f, xs)[i] == Each(f, ys)[i];
    }
  }

  /** Equal policy values: the same grants and anchors in the same sorted order, the same actions. */
  lemma PolicyValueMeans(p: SecurityPolicy, q: SecurityPolicy)
    ensures PolicyValue(p) == PolicyValue(q) <==>
            && SortBy(GrantKey, p.grants) == SortBy(GrantKey, q.grants)
            && p.approvalRequired == q.approvalRequired
            && SortBy(AnchorKey, p.anchors) == SortBy(AnchorKey, q.anchors)
  {
    hide Obj, Sorted, SortBy;
    if PolicyValue(p) == PolicyValue(q) {
      ObjInjective(PolicyFields(p), PolicyFields(q));
      SortedInjective(p.approvalRequired, q.approvalRequired);
      forall a, b | GrantValue(a) == GrantValue(b) ensures a == b { GrantInjective(a, b); }
      forall a, b | AnchorValue(a) == AnchorValue(b) ensures a == b { AnchorInjective(a, b); }
      hide GrantValue, AnchorValue;
      EachInjective(GrantValue, SortBy(GrantKey, p.grants), SortBy(GrantKey, q.grants));
      EachInjective(AnchorValue, SortBy(AnchorKey, p.anchors), SortBy(AnchorKey, q.anchors));
    }
  }

  // ----- Order independence of the digests

  /** The same policy with its grants and anchors listed in another order. */
  ghost predicate Reordered(p: SecurityPolicy, q: SecurityPolicy) {
    && multiset(p.grants) == multiset(q.grants) && multiset(p.anchors) == multiset(q.anchors)
    && p.approvalRequired == q.approvalRequired
  }

  lemma SortedListsPermuted<T>(key: T -> seq<string>, xs: seq<T>, ys: seq<T>)
    requires SortBy(key, xs) == SortBy(key, ys)
    ensures multiset(xs) == multiset(ys)
  {
    SortSorts(key, xs);
    SortSorts(key, ys);
  }

  /** Equal hashed policies are reorderings of each other. */
  lemma PolicyValueBinds(p: SecurityPolicy, q: SecurityPolicy)
    requires PolicyValue(p) == PolicyValue(q)
    ensures Reordered(p, q)
  {
    hide PolicyValue, SortBy, GrantKey, AnchorKey;
    PolicyValueMeans(p, q);
    SortedListsPermuted(GrantKey, p.grants, q.grants);
    SortedListsPermuted(AnchorKey, p.anchors, q.anchors);
  }

  /**
   * What the policy digest hashes is the same for every order of grants and anchors exactly when no
   * two different grants and no two different anchors have the same sort key.
   */
  lemma PolicyOrderIndependence(p: SecurityPolicy)
    ensures (NoTies(GrantKey, p.grants) && NoTies(AnchorKey, p.anchors)) <==>
            forall q :: Reordered(p, q) ==> PolicyValue(q) == PolicyValue(p)
  {
    hide PolicyValue, SortBy, GrantKey, AnchorKey, NoTies;
    SortOrderIndependent(GrantKey, p.grants);
    SortOrderIndependent(AnchorKey, p.anchors);
    if NoTies(GrantKey, p.grants) && NoTies(AnchorKey, p.anchors) {
      forall q | Reordered(p, q) ensures PolicyValue(q) == PolicyValue(p) {
        PolicyValueMeans(p, q);
      }
    }
    if forall q :: Reordered(p, q) ==> PolicyValue(q) == PolicyValue(p) {
      forall gs: seq<Grant> | multiset(gs) == multiset(p.grants)
        ensures SortBy(GrantKey, gs) == SortBy(GrantKey, p.grants)
      {
        var q := p.(grants := gs);
        assert Reordered(p, q);
        PolicyValueMeans(p, q);
      }
      forall ns: seq<Anchor> | multiset(ns) == multiset(p.anchors)
        ensures SortBy(AnchorKey, ns) == SortBy(AnchorKey, p.anchors)
      {
        var q := p.(anchors := ns);
        assert Reordered(p, q);
        PolicyValueMeans(p, q);
      }
    }
  }

  /** Two grants tie exactly when they differ at most in a tenant that is None in one and "" in the other. */
  lemma GrantsTie(a: Grant, b: Grant)
    ensures GrantKey(a) == GrantKey(b) <==>
            && a.(tenantId := None) == b.(tenantId := None)
            && OrEmpty(a.tenantId) == OrEmpty(b.tenantId)
  {
    hide SortedSet;
    if GrantKey(a) == GrantKey(b) {
      assert GrantKey(a)[0] == GrantKey(b)[0] && GrantKey(a)[1] == GrantKey(b)[1] && GrantKey(a)[2] == GrantKey(b)[2];
      assert GrantKey(a)[3..] == SortedSet(a.resourceScope) && GrantKey(b)[3..] == SortedSet(b.resourceScope);
      SortedSetInjective(a.resourceScope, b.resourceScope);
    }
  }

  /** Two anchors tie exactly when they differ at most in requester fields that are None in one and "" in the other. */
  lemma AnchorsTie(a: Anchor, b: Anchor)
    ensures AnchorKey(a) == AnchorKey(b) <==>
            && a.(requesterPrincipalId := None, requesterTenantId := None)
               == b.(requesterPrincipalId := None, requesterTenantId := None)
            && OrEmpty(a.requesterPrincipalId) == OrEmpty(b.requesterPrincipalId)
            && OrEmpty(a.requesterTenantId) == OrEmpty(b.requesterTenantId)
  {
  }

  /** In the hashed policy grants are ordered by principal, action, tenant (None as empty) and resources. */
  lemma GrantOrder(a: Grant, b: Grant)
    ensures KeyLe(GrantKey(a), GrantKey(b)) <==>
            || Before(a.principalId, b.principalId)
            || (a.principalId == b.principalId &&
                (|| Before(a.action, b.action)
                 || (a.action == b.action &&
                     (|| Before(OrEmpty(a.tenantId), OrEmpty(b.tenantId))
                      || (OrEmpty(a.tenantId) == OrEmpty(b.tenantId) &&
                          (|| KeyBefore(SortedSet(a.resourceScope), SortedSet(b.resourceScope))
                           || a.resourceScope == b.resourceScope))))))
  {
    hide SortedSet, Before, KeyBefore, KeyLe;
    var x, y := SortedSet(a.resourceScope), SortedSet(b.resourceScope);
    var t, u := OrEmpty(a.tenantId), OrEmpty(b.tenantId);
    KeyLeExact(x, y);
    KeyLeCons(t, u, x, y);
    KeyLeCons(a.action, b.action, [t] + x, [u] + y);
    KeyLeCons(a.principalId, b.principalId, [a.action] + ([t] + x), [b.action] + ([u] + y));
    assert GrantKey(a) == [a.principalId] + ([a.action] + ([t] + x));
    assert GrantKey(b) == [b.principalId] + ([b.action] + ([u] + y));
    if x == y {
      SortedSetInjective(a.resourceScope, b.resourceScope);
    }
  }

  /** The order of tuples of one length: the first of the pairs that differ decides. */
  ghost predicate PairsLe(pairs: seq<(string, string)>) {
    pairs == [] || Before(pairs[0].0, pairs[0].1) || (pairs[0].0 == pairs[0].1 && PairsLe(pairs[1..]))
  }

  lemma {:induction false} KeyLeByPairs(a: seq<string>, b: seq<string>, pairs: seq<(string, string)>)
    requires |a| == |b| == |pairs| && forall i :: 0 <= i < |a| ==> pairs[i] == (a[i], b[i])
    ensures KeyLe(a, b) <==> PairsLe(pairs)
  {
    hide Before;
    if a != [] {
      KeyLeByPairs(a[1..], b[1..], pairs[1..]);
      KeyLeCons(a[0], b[0], a[1..], b[1..]);
      assert a == [a[0]] + a[1..] && b == [b[0]] + b[1..];
    }
  }

  /** Anchors are ordered by verifier, its tenant, action, intent, verification, requester and its tenant. */
  lemma AnchorOrder(a: Anchor, b: Anchor)
    ensures KeyLe(AnchorKey(a), AnchorKey(b)) <==>
            PairsLe([(a.verifierPrincipalId, b.verifierPrincipalId), (a.verifierTenantId, b.verifierTenantId),
                     (a.action, b.action), (a.intentDigest, b.intentDigest),
                     (a.verificationDigest, b.verificationDigest),
                     (OrEmpty(a.requesterPrincipalId), OrEmpty(b.requesterPrincipalId)),
                     (OrEmpty(a.requesterTenantId), OrEmpty(b.requesterTenantId))])
  {
    hide KeyLe, PairsLe;
    KeyLeByPairs(AnchorKey(a), AnchorKey(b),
                 [(a.verifierPrincipalId, b.verifierPrincipalId), (a.verifierTenantId, b.verifierTenantId),
                  (a.action, b.action), (a.intentDigest, b.intentDigest),
                  (a.verificationDigest, b.verificationDigest),
                  (OrEmpty(a.requesterPrincipalId), OrEmpty(b.requesterPrincipalId)),
                  (OrEmpty(a.requesterTenantId), OrEmpty(b.requesterTenantId))]);
  }

  /** Provenance entries are ordered by artifact id, then by digest. */
  lemma ProvenanceOrder(p: Provenance, q: Provenance)
    ensures KeyLe(ProvenanceKey(p), ProvenanceKey(q)) <==>
            PairsLe([(p.artifactId, q.artifactId), (p.artifactDigest, q.artifactDigest)])
  {
    hide KeyLe, PairsLe;
    KeyLeByPairs(ProvenanceKey(p), ProvenanceKey(q),
                 [(p.artifactId, q.artifactId), (p.artifactDigest, q.artifactDigest)]);
  }

  /** None counts as the empty text. */
  lemma OrEmptyReads(o: Option<string>)
    ensures forall s :: o == Some(s) ==> OrEmpty(o) == s
    ensures o == None ==> OrEmpty(o) == ""
  {
  }

  /** A concrete policy whose digest input depends on the order of its grants. */
  lemma PolicyOrderCanMatter()
    ensures var unbound, empty := Grant("agent", "write", {}, None), Grant("agent", "write", {}, Some(""));
            var p := SecurityPolicy([unbound, empty], {}, []);
            !forall q :: Reordered(p, q) ==> PolicyValue(q) == PolicyValue(p)
  {
    var unbound, empty := Grant("agent", "write", {}, None), Grant("agent", "write", {}, Some(""));
    var p := SecurityPolicy([unbound, empty], {}, []);
    GrantsTie(unbound, empty);
    hide GrantKey, AnchorKey, PolicyValue;
    PolicyOrderIndependence(p);
    assert p.grants[0] in p.grants && p.grants[1] in p.grants;
    assert !NoTies(GrantKey, p.grants);
  }

  /** The sort key of a provenance entry is all of it, so entries never tie. */
  lemma ProvenanceNeverTies(ps: seq<Provenance>)
    ensures NoTies(ProvenanceKey, ps)
  {
    forall a: Provenance, b: Provenance | ProvenanceKey(a) == ProvenanceKey(b) ensures a == b {
      assert ProvenanceKey(a)[0] == ProvenanceKey(b)[0] && ProvenanceKey(a)[1] == ProvenanceKey(b)[1];
    }
  }

  /** The provenance digest never depends on the order of the artifacts. */
  lemma ProvenanceOrderIndependent(h: Hasher, xs: seq<Artifact>, ys: seq<Artifact>)
    requires multiset(xs) == multiset(ys)
    ensures ArtifactsValue(h, xs) == ArtifactsValue(h, ys)
  {
    hide ProvenanceKey, SortBy, NoTies, ProvenanceOf, ProvenanceValue;
    var ps, qs := Each(ProvenanceOf(h), xs), Each(ProvenanceOf(h), ys);
    EachPermuted(ProvenanceOf(h), xs, ys);
    ProvenanceNeverTies(ps);
    SortOrderIndependent(ProvenanceKey, ps);
    assert SortBy(ProvenanceKey, ps) == SortBy(ProvenanceKey, qs);
  }

  function HashedArtifacts(xs: seq<Artifact>): set<Value> {
    set a | a in xs :: ArtifactValue(a)
  }

  /** Equal hashed provenance: the same artifacts with the same multiplicities, or a collision. */
  lemma ProvenanceBinds(h: Hasher, xs: seq<Artifact>, ys: seq<Artifact>)
    requires ArtifactsValue(h, xs) == ArtifactsValue(h, ys)
    ensures multiset(xs) == multiset(ys) || Collision(h, HashedArtifacts(xs), HashedArtifacts(ys))
  {
    var f := ProvenanceOf(h);
    var ps, qs := Each(f, xs), Each(f, ys);
    forall a, b | ProvenanceValue(a) == ProvenanceValue(b) ensures a == b { ProvenanceInjective(a, b); }
    hide ProvenanceValue, ProvenanceKey, SortBy, Encode, ArtifactValue;
    EachInjective(ProvenanceValue, SortBy(ProvenanceKey, ps), SortBy(ProvenanceKey, qs));
    SortedListsPermuted(ProvenanceKey, ps, qs);
    if !Collision(h, HashedArtifacts(xs), HashedArtifacts(ys)) {
      forall x, y | x in xs && y in ys && f(x) == f(y) ensures x == y {
        SameValue(h, ArtifactValue(x), ArtifactValue(y), HashedArtifacts(xs), HashedArtifacts(ys));
        ArtifactInjective(x, y);
      }
      EachReflectsPermutation(f, xs, ys);
    }
  }

  // ----- Digest equality stands for context equality

  /** Equal up to the order in which grants, anchors and artifacts are listed. */
  ghost predicate Equivalent(a: Context, b: Context) {
    && a.intent == b.intent && a.state == b.state
    && a.requester == b.requester && a.executor == b.executor && a.delegation == b.delegation
    && a.resources == b.resources && a.approval == b.approval
    && Reordered(a.policy, b.policy)
    && multiset(a.artifacts) == multiset(b.artifacts)
  }

  /** The values hashed when a context is evaluated. */
  function ContextValues(h: Hasher, c: Context): set<Value> {
    { IntentValue(c.intent), StateValue(c.state), PrincipalValue(c.requester),
      PrincipalValue(c.executor), DelegationValue(c.delegation), PolicyValue(c.policy),
      Sorted(c.resources), ArtifactsValue(h, c.artifacts) }
    + HashedArtifacts(c.artifacts)
    + (if c.approval.Some? then {ApprovalValue(c.approval.value)} else {})
  }

  /** All digests of two decisions agree; epoch and verdict may differ. */
  ghost predicate SameDigests(d: SecurityDecision, e: SecurityDecision) {
    && d.intentDigest == e.intentDigest && d.stateDigest == e.stateDigest
    && SameContextDigests(d, e)
  }

  /** The digests that also go into a security receipt. */
  ghost predicate SameContextDigests(d: SecurityDecision, e: SecurityDecision) {
    && d.requesterDigest == e.requesterDigest && d.executorDigest == e.executorDigest
    && d.delegationDigest == e.delegationDigest && d.policyDigest == e.policyDigest
    && d.resourcesDigest == e.resourcesDigest && d.provenanceDigest == e.provenanceDigest
    && d.approvalDigest == e.approvalDigest
  }

  lemma AuthorityDigestsBind(h: Hasher, a: Context, b: Context, xs: set<Value>, ys: set<Value>)
    requires xs == ContextValues(h, a) && ys == ContextValues(h, b) && !Collision(h, xs, ys)
    requires SameContextDigests(Evaluate(h, a, 0), Evaluate(h, b, 0))
    ensures a.requester == b.requester && a.executor == b.executor && a.delegation == b.delegation
    ensures a.resources == b.resources && Reordered(a.policy, b.policy)
  {
    hide Encode, Obj, Sorted, Verdict, Digest, Collision, PolicyValue, PrincipalValue, DelegationValue, ArtifactsValue,
         Reordered, ApprovalDigest;
    SameValue(h, PrincipalValue(a.requester), PrincipalValue(b.requester), xs, ys);
    PrincipalInjective(a.requester, b.requester);
    SameValue(h, PrincipalValue(a.executor), PrincipalValue(b.executor), xs, ys);
    PrincipalInjective(a.executor, b.executor);
    SameValue(h, DelegationValue(a.delegation), DelegationValue(b.delegation), xs, ys);
    DelegationInjective(a.delegation, b.delegation);
    SameValue(h, PolicyValue(a.policy), PolicyValue(b.policy), xs, ys);
    PolicyValueBinds(a.policy, b.policy);
    SameValue(h, Sorted(a.resources), Sorted(b.resources), xs, ys);
    SortedInjective(a.resources, b.resources);
  }

  lemma EvidenceDigestsBind(h: Hasher, a: Context, b: Context, xs: set<Value>, ys: set<Value>)
    requires xs == ContextValues(h, a) && ys == ContextValues(h, b) && !Collision(h, xs, ys)
    requires SameContextDigests(Evaluate(h, a, 0), Evaluate(h, b, 0))
    ensures multiset(a.artifacts) == multiset(b.artifacts) && a.approval == b.approval
  {
    hide Encode, Obj, Sorted, Verdict, Digest, PolicyValue, PrincipalValue, DelegationValue, ArtifactsValue,
         ApprovalValue, HashedArtifacts;
    SameValue(h, ArtifactsValue(h, a.artifacts), ArtifactsValue(h, b.artifacts), xs, ys);
    ProvenanceBinds(h, a.artifacts, b.artifacts);
    if Collision(h, HashedArtifacts(a.artifacts), HashedArtifacts(b.artifacts)) {
      Widen(h, HashedArtifacts(a.artifacts), HashedArtifacts(b.artifacts), xs, ys);
    }
    if a.approval.Some? && b.approval.Some? {
      SameValue(h, ApprovalValue(a.approval.value), ApprovalValue(b.approval.value), xs, ys);
      ApprovalInjective(a.approval.value, b.approval.value);
    }
  }

  /** Decisions with equal digests were taken in equivalent contexts, or there is a collision. */
  lemma DecisionBindsContext(h: Hasher, a: Context, b: Context, m: int, n: int)
    requires SameDigests(Evaluate(h, a, m), Evaluate(h, b, n))
    ensures Equivalent(a, b) || Collision(h, ContextValues(h, a), ContextValues(h, b))
  {
    hide Encode, Verdict, Digest, Collision, PolicyValue, PrincipalValue, DelegationValue, ArtifactsValue,
         Sorted, StateValue, IntentValue, Reordered, ApprovalDigest;
    var xs, ys := ContextValues(h, a), ContextValues(h, b);
    if !Collision(h, xs, ys) {
      SameValue(h, IntentValue(a.intent), IntentValue(b.intent), xs, ys);
      IntentValueInjective(a.intent, b.intent);
      SameValue(h, StateValue(a.state), StateValue(b.state), xs, ys);
      StateValueInjective(a.state, b.state);
      hide ContextValues;
      AuthorityDigestsBind(h, a, b, xs, ys);
      EvidenceDigestsBind(h, a, b, xs, ys);
    }
  }

  // ----- What the verdict depends on

  lemma EquivalentGrants(a: Context, b: Context)
    requires Equivalent(a, b)
    ensures CheckGrants(a) == CheckGrants(b)
  {
    var p, t := ForPrincipal(a.requester.principalId, a.intent.action), ForTenant(a.requester.tenantId);
    var gs, hs := Filter(p, a.policy.grants), Filter(p, b.policy.grants);
    FilterPermuted(p, a.policy.grants, b.policy.grants);
    FilterPermuted(t, gs, hs);
    PermutedMembers(gs, hs);
    PermutedMembers(Filter(t, gs), Filter(t, hs));
    hide Filter;
  }

  lemma EquivalentApproval(h: Hasher, a: Context, b: Context)
    requires Equivalent(a, b)
    ensures CheckApproval(h, a) == CheckApproval(h, b)
  {
    hide IntentDigest, CheckApprovalTerms, CheckVerifier, ExpectedAnchor;
    PermutedMembers(a.policy.anchors, b.policy.anchors);
  }

  /** Equivalent contexts get the same verdict, reason included, at every epoch. */
  lemma EquivalentVerdict(h: Hasher, a: Context, b: Context, epoch: int)
    requires Equivalent(a, b)
    ensures Verdict(h, a, epoch) == Verdict(h, b, epoch)
  {
    hide CheckGrants, CheckApproval, CheckDelegation;
    EquivalentGrants(a, b);
    EquivalentApproval(h, a, b);
  }

  /** Equal digests, equal verdict and reason at the same epoch: digests are a sound stand-in for contexts. */
  lemma EqualDigestsEqualVerdict(h: Hasher, a: Context, b: Context, m: int, n: int, epoch: int)
    requires SameDigests(Evaluate(h, a, m), Evaluate(h, b, n))
    ensures || Verdict(h, a, epoch) == Verdict(h, b, epoch)
            || Collision(h, ContextValues(h, a), ContextValues(h, b))
  {
    DecisionBindsContext(h, a, b, m, n);
    hide Verdict, Digest, Collision, ContextValues, SameDigests, ApprovalDigest;
    if Equivalent(a, b) {
      EquivalentVerdict(h, a, b, epoch);
    }
  }

  // ----- Authority

  /** One grant of the requester's tenant covers all requested resources. */
  ghost predicate Granted(c: Context) {
    exists g :: g in c.policy.grants
      && g.principalId == c.requester.principalId && g.tenantId == Some(c.requester.tenantId)
      && g.action == c.intent.action && c.resources <= g.resourceScope
  }

  /** The delegation links requester to executor, is live at the epoch, and covers action and resources. */
  ghost predicate Delegated(c: Context, epoch: int) {
    var d := c.delegation;
    && (d.delegatorPrincipalId, d.delegatorTenantId) == (c.requester.principalId, Some(c.requester.tenantId))
    && (d.delegatePrincipalId, d.delegateTenantId) == (c.executor.principalId, Some(c.executor.tenantId))
    && d.active && (d.expiresAtEpoch == None || epoch < d.expiresAtEpoch.value)
    && c.intent.action in d.allowedActions && c.resources <= d.resourceScope
  }

  /**
   * The policy anchors a verification of exactly this intent and action for exactly this requester,
   * by someone who is neither requester nor executor, and the approval is a granted one that cites it.
   */
  ghost predicate Approved(h: Hasher, c: Context) {
    && c.approval.Some? && c.approval.value.approved
    && exists n :: n in c.policy.anchors && Anchors(h, n, c) && Cites(c.approval.value, n)
  }

  ghost predicate Anchors(h: Hasher, n: Anchor, c: Context) {
    && (n.requesterPrincipalId, n.requesterTenantId) == (Some(c.requester.principalId), Some(c.requester.tenantId))
    && n.action == c.intent.action && n.intentDigest == IntentDigest(h, c.intent)
    && n.verifierPrincipalId != "" && n.verifierTenantId != "" && n.verificationDigest != ""
    && (n.verifierPrincipalId, n.verifierTenantId) != (c.requester.principalId, c.requester.tenantId)
    && (n.verifierPrincipalId, n.verifierTenantId) != (c.executor.principalId, c.executor.tenantId)
  }

  ghost predicate Cites(a: Approval, n: Anchor) {
    && (Some(a.principalId), a.tenantId) == (n.requesterPrincipalId, n.requesterTenantId)
    && a.action == n.action && a.intentDigest == n.intentDigest
    && a.verifierPrincipalId == Some(n.verifierPrincipalId) && a.verifierTenantId == Some(n.verifierTenantId)
    && a.verificationDigest == Some(n.verificationDigest)
  }

  ghost predicate Authorised(h: Hasher, c: Context, epoch: int) {
    && c.resources != {} && Granted(c) && Delegated(c, epoch)
    && (c.intent.action in c.policy.approvalRequired ==> Approved(h, c))
  }

  lemma GrantsExact(c: Context)
    ensures CheckGrants(c).Ok? <==> Granted(c)
  {
    var p, t := ForPrincipal(c.requester.principalId, c.intent.action), ForTenant(c.requester.tenantId);
    var gs := Filter(p, c.policy.grants);
    FilterMembers(p, c.policy.grants);
    FilterMembers(t, gs);
    hide Filter;
    if Granted(c) {
      var g :| g in c.policy.grants
        && g.principalId == c.requester.principalId && g.tenantId == Some(c.requester.tenantId)
        && g.action == c.intent.action && c.resources <= g.resourceScope;
      assert g in gs && g in Filter(t, gs);
    }
  }

  lemma ApprovalExact(h: Hasher, c: Context)
    ensures CheckApproval(h, c).Ok? <==> Approved(h, c)
  {
    hide IntentDigest;
    if CheckApproval(h, c).Ok? {
      var n := ExpectedAnchor(c.approval.value, c.requester);
      assert n in c.policy.anchors && Cites(c.approval.value, n);
    }
    if Approved(h, c) {
      var n :| n in c.policy.anchors && Anchors(h, n, c) && Cites(c.approval.value, n);
      assert n == ExpectedAnchor(c.approval.value, c.requester);
    }
  }

  lemma DelegationExact(c: Context, epoch: int)
    ensures CheckDelegation(c.delegation, c.requester, c.executor, c.intent.action, c.resources, epoch).Ok?
            <==> Delegated(c, epoch)
  {
  }

  /** The guard chain accepts exactly the authorised contexts. */
  lemma AcceptsExactly(h: Hasher, c: Context, epoch: int)
    ensures Verdict(h, c, epoch).Ok? <==> Authorised(h, c, epoch)
  {
    hide CheckGrants, CheckApproval, CheckDelegation, Granted, Approved, Delegated, Digest, ApprovalDigest;
    GrantsExact(c);
    DelegationExact(c, epoch);
    ApprovalExact(h, c);
  }

  /**
   * Authority is monotone: an accepted context stays accepted at every earlier epoch, for every
   * nonempty subset of the resources, and with any other context artifacts.
   */
  lemma AuthorityIsMonotone(h: Hasher, c: Context, epoch: int,
                            earlier: int, resources: set<string>, artifacts: seq<Artifact>)
    requires Verdict(h, c, epoch).Ok?
    requires earlier <= epoch && resources != {} && resources <= c.resources
    ensures Verdict(h, c.(resources := resources, artifacts := artifacts), earlier).Ok?
  {
    var d := c.(resources := resources, artifacts := artifacts);
    AcceptsExactly(h, c, epoch);
    AcceptsExactly(h, d, earlier);
    hide Verdict, IntentDigest;
    var g :| g in c.policy.grants
      && g.principalId == c.requester.principalId && g.tenantId == Some(c.requester.tenantId)
      && g.action == c.intent.action && c.resources <= g.resourceScope;
    assert g in d.policy.grants && d.resources <= g.resourceScope;
    assert Approved(h, c) <==> Approved(h, d);
  }

  /**
   * Time changes a verdict in one way only: from some epoch on the reason can be an expired delegation.
   * Every other verdict, refusals included, is the same at all epochs up to then.
   */
  lemma VerdictOverTime(h: Hasher, c: Context, epoch: int, later: int)
    requires epoch <= later
    ensures Verdict(h, c, later) == Verdict(h, c, epoch) || Verdict(h, c, later) == Err(DelegationExpired)
    ensures Verdict(h, c, epoch) == Err(DelegationExpired) ==> Verdict(h, c, later) == Err(DelegationExpired)
  {
    DelegationOverTime(c.delegation, c.requester, c.executor, c.intent.action, c.resources, epoch, later);
    GrantReasons(c);
    ApprovalReasons(h, c);
    hide CheckGrants, CheckApproval, CheckDelegation;
  }

  lemma DelegationOverTime(d: Delegation, requester: Principal, executor: Principal, action: string,
                           resources: set<string>, epoch: int, later: int)
    requires epoch <= later
    ensures var r := CheckDelegation(d, requester, executor, action, resources, epoch);
            var q := CheckDelegation(d, requester, executor, action, resources, later);
            && (q == r || q == Err(DelegationExpired))
            && (r == Err(DelegationExpired) ==> q == r)
  {
  }

  lemma GrantReasons(c: Context)
    ensures CheckGrants(c) != Err(DelegationExpired)
  {
    hide Filter;
  }

  lemma ApprovalReasons(h: Hasher, c: Context)
    ensures CheckApproval(h, c) != Err(DelegationExpired)
  {
    hide IntentDigest;
  }

  // ----- The check at the effect boundary

  /**
   * `secure_materialize` proceeds exactly when the context is authorised now and the decision is what
   * `evaluate_security` gives in this very context at the decision's own, not later, epoch.
   */
  lemma BoundaryExact(h: Hasher, c: Context, d: SecurityDecision, epoch: int)
    ensures SecureGuard(h, c, d, epoch).Ok? <==>
            && d.epoch <= epoch
            && Authorised(h, c, epoch)
            && d == Evaluate(h, c, d.epoch)
  {
    AcceptsExactly(h, c, epoch);
    hide Authorised, Verdict;
    if d.epoch <= epoch && Verdict(h, c, epoch).Ok? {
      AcceptedEarlier(h, c, epoch, d.epoch);
    }
    SameButEpoch(h, c, epoch, d.epoch);
    hide Evaluate;
  }

  /** Two evaluations of one context that both accept differ in nothing but the epoch. */
  lemma SameButEpoch(h: Hasher, c: Context, m: int, n: int)
    ensures Evaluate(h, c, m).accepted && Evaluate(h, c, n).accepted ==>
              Evaluate(h, c, m).(epoch := n) == Evaluate(h, c, n)
    ensures Evaluate(h, c, m).epoch == m && Evaluate(h, c, n).epoch == n
    ensures Evaluate(h, c, m).accepted == Verdict(h, c, m).Ok? && Evaluate(h, c, n).accepted == Verdict(h, c, n).Ok?
  {
    hide Verdict, Digest, ApprovalDigest;
  }

  lemma AcceptedEarlier(h: Hasher, c: Context, epoch: int, earlier: int)
    requires Verdict(h, c, epoch).Ok? && earlier <= epoch
    ensures Verdict(h, c, earlier).Ok?
  {
    AcceptsExactly(h, c, epoch);
    hide Verdict;
    AuthorityIsMonotone(h, c, epoch, earlier, c.resources, c.artifacts);
    assert c.(resources := c.resources, artifacts := c.artifacts) == c;
  }

  /** The drift check lets through only contexts equivalent to the one decided on, or there is a collision. */
  lemma DriftCheckIsSound(h: Hasher, decided: Context, at: int, c: Context, epoch: int)
    requires SecureGuard(h, c, Evaluate(h, decided, at), epoch).Ok?
    ensures Equivalent(decided, c) || Collision(h, ContextValues(h, decided), ContextValues(h, c))
  {
    BoundaryExact(h, c, Evaluate(h, decided, at), epoch);
    hide Verdict, Digest, ApprovalDigest, SecureGuard;
    DecisionBindsContext(h, decided, c, at, at);
  }

  /** No gap: what is let through was authorised at the decision's epoch, now, and at every epoch between. */
  lemma NoAcceptanceGap(h: Hasher, c: Context, d: SecurityDecision, epoch: int, between: int)
    requires SecureGuard(h, c, d, epoch).Ok? && d.epoch <= between <= epoch
    ensures Authorised(h, c, between) && SecureGuard(h, c, d, between).Ok?
  {
    hide Evaluate, SecureGuard, Authorised, Verdict;
    BoundaryExact(h, c, d, epoch);
    AcceptsExactly(h, c, epoch);
    AcceptedEarlier(h, c, epoch, between);
    AcceptsExactly(h, c, between);
    BoundaryExact(h, c, d, between);
  }

  // ----- Security receipts

  /** Whatever `secure_materialize` returns verifies, at its own epoch, which is not before the decision's. */
  lemma SecuredVerifies(h: Hasher, c: Context, coreDecision: Decision, d: SecurityDecision, corePolicy: Policy,
                        epoch: int, execute: Executor)
    ensures var r := SecureMaterialize(h, c, coreDecision, d, corePolicy, epoch, execute);
            r.Ok? ==>
              && VerifySecurityTransition(h, c, r.value.core.next, r.value.core.receipt, r.value.receipt,
                                          r.value.core.effect, epoch).Ok?
              && d.epoch <= r.value.receipt.base.epoch == epoch
  {
    MaterializedVerifies(h, c.intent, coreDecision, c.state, corePolicy, execute);
    hide Materialize, VerifyTransition, Digest, Verdict, ApprovalDigest, PolicyValue, IntentDigest, StateDigest;
  }

  /** The transition a verification call is about. */
  function LinkIn(c: Context, next: State, core: Receipt, effect: Effect): Link {
    Link(c.state, c.intent, effect, core, next)
  }

  // ----- What security verification leaves open

  /** Transition and security receipt are what `secure_materialize` makes in this context, up to receipt ids. */
  ghost predicate SecurelyMaterializable(h: Hasher, c: Context, l: Link, r: SecurityReceipt, epoch: int) {
    exists coreDecision, d, p, e ::
      SecureMaterialize(h, c, coreDecision, d, p, epoch, e).Ok?
      && var made := SecureMaterialize(h, c, coreDecision, d, p, epoch, e).value;
         && SameLink(LinkOf(c.state, c.intent, made.core), l)
         && r.(receiptId := made.receipt.receiptId) == made.receipt
  }

  /**
   * `verify_security_transition` checks digests and never authority: a transition and a security
   * receipt are some call's of `secure_materialize` exactly when they verify, the transition is
   * honest, and the context is authorised at the epoch.
   */
  lemma SecurelyMaterializableExactly(h: Hasher, c: Context, next: State, core: Receipt, r: SecurityReceipt,
                                      effect: Effect, epoch: int)
    ensures var l := LinkIn(c, next, core, effect);
            SecurelyMaterializable(h, c, l, r, epoch) <==>
            && VerifySecurityTransition(h, c, next, core, r, effect, epoch).Ok?
            && Honest(l) && Authorised(h, c, epoch)
  {
    hide SecurelyMaterializable, VerifySecurityTransition, Honest, Authorised;
    var l := LinkIn(c, next, core, effect);
    if SecurelyMaterializable(h, c, l, r, epoch) {
      SecuredIsAuthorised(h, c, l, r, epoch);
    }
    if VerifySecurityTransition(h, c, next, core, r, effect, epoch).Ok? && Honest(l) && Authorised(h, c, epoch) {
      AuthorisedIsSecured(h, c, l, r, epoch);
    }
  }

  /** Verification asks for a verified transition and for the receipt that is built for it, up to its id. */
  lemma SecurityVerifiesExactly(h: Hasher, c: Context, l: Link, r: SecurityReceipt, epoch: int)
    requires l.prior == c.state && l.intent == c.intent
    ensures VerifySecurityTransition(h, c, l.next, l.receipt, r, l.effect, epoch).Ok? <==>
            && Verified(h, l)
            && r.(receiptId := "") == BuildSecurityReceipt(h, l.receipt, Evaluate(h, c, epoch)).(receiptId := "")
  {
    hide VerifyTransition, Digest, Verdict, ApprovalDigest, PolicyValue, StateDigest, IntentDigest, ArtifactsValue,
         Sorted;
  }

  lemma SecuredIsAuthorised(h: Hasher, c: Context, l: Link, r: SecurityReceipt, epoch: int)
    requires SecurelyMaterializable(h, c, l, r, epoch) && l.prior == c.state && l.intent == c.intent
    ensures VerifySecurityTransition(h, c, l.next, l.receipt, r, l.effect, epoch).Ok?
    ensures Honest(l) && Authorised(h, c, epoch)
  {
    hide SecureGuard, Materialize, BuildSecurityReceipt, Evaluate, VerifySecurityTransition, Honest, Authorised,
         Verified;
    var coreDecision, d, p, e :|
      SecureMaterialize(h, c, coreDecision, d, p, epoch, e).Ok?
      && var made := SecureMaterialize(h, c, coreDecision, d, p, epoch, e).value;
         && SameLink(LinkOf(c.state, c.intent, made.core), l)
         && r.(receiptId := made.receipt.receiptId) == made.receipt;
    BoundaryExact(h, c, d, epoch);
    assert Materialize(h, l.intent, coreDecision, l.prior, p, e).Ok?;
    MaterializableExactly(h, l);
    SecurityVerifiesExactly(h, c, l, r, epoch);
    var made := SecureMaterialize(h, c, coreDecision, d, p, epoch, e).value;
    BuiltFromHash(h, made.core.receipt, l.receipt, Evaluate(h, c, epoch));
  }

  /** A security receipt depends on the core receipt through its hash alone. */
  lemma BuiltFromHash(h: Hasher, a: Receipt, b: Receipt, d: SecurityDecision)
    requires a.receiptHash == b.receiptHash
    ensures BuildSecurityReceipt(h, a, d) == BuildSecurityReceipt(h, b, d)
  {
  }

  /** The decision is the evaluation of the context at the very epoch of the call. */
  lemma AuthorisedIsSecured(h: Hasher, c: Context, l: Link, r: SecurityReceipt, epoch: int)
    requires VerifySecurityTransition(h, c, l.next, l.receipt, r, l.effect, epoch).Ok?
    requires l.prior == c.state && l.intent == c.intent && Honest(l) && Authorised(h, c, epoch)
    ensures SecurelyMaterializable(h, c, l, r, epoch)
  {
    hide SecureGuard, Materialize, BuildSecurityReceipt, Evaluate, VerifySecurityTransition, Honest, Authorised,
         Verified;
    SecurityVerifiesExactly(h, c, l, r, epoch);
    MaterializableExactly(h, l);
    var coreDecision, p, e :|
      Materialize(h, l.intent, coreDecision, l.prior, p, e).Ok?
      && SameLink(LinkOf(l.prior, l.intent, Materialize(h, l.intent, coreDecision, l.prior, p, e).value), l);
    var d := Evaluate(h, c, epoch);
    SameButEpoch(h, c, epoch, epoch);
    BoundaryExact(h, c, d, epoch);
    var made := SecureMaterialize(h, c, coreDecision, d, p, epoch, e).value;
    BuiltFromHash(h, made.core.receipt, l.receipt, d);
  }

  /** The id of a security receipt is made of the first sixteen characters of its hash. */
  lemma SecurityReceiptId(h: Hasher, core: Receipt, d: SecurityDecision)
    ensures var r := BuildSecurityReceipt(h, core, d);
            |r.receiptHash| >= 16 ==> r.receiptId == "security-receipt-" + r.receiptHash[..16]
  {
    hide Digest;
  }

  /** Whatever the context, a step of `materialize` verifies in it under the security receipt built for it. */
  lemma SecurityVerifiesAnyContext(h: Hasher, c: Context, coreDecision: Decision, corePolicy: Policy, epoch: int,
                                   execute: Executor)
    requires Materialize(h, c.intent, coreDecision, c.state, corePolicy, execute).Ok?
    ensures var m := Materialize(h, c.intent, coreDecision, c.state, corePolicy, execute).value;
            var r := BuildSecurityReceipt(h, m.receipt, Evaluate(h, c, epoch));
            VerifySecurityTransition(h, c, m.next, m.receipt, r, m.effect, epoch).Ok?
  {
    hide Materialize, BuildSecurityReceipt, Evaluate, VerifySecurityTransition, Verified;
    MaterializedVerifies(h, c.intent, coreDecision, c.state, corePolicy, execute);
    var m := Materialize(h, c.intent, coreDecision, c.state, corePolicy, execute).value;
    var r := BuildSecurityReceipt(h, m.receipt, Evaluate(h, c, epoch));
    SecurityVerifiesExactly(h, c, LinkOf(c.state, c.intent, m), r, epoch);
  }

  /** The values hashed by one security verification. */
  function ReceiptValues(h: Hasher, c: Context, l: Link, r: SecurityReceipt): set<Value> {
    ContextValues(h, c) + HashedValues(l) + {SecurityBaseValue(r.base)}
  }

  /** What a passed security verification establishes. */
  lemma SecurityVerifiedMeans(h: Hasher, c: Context, next: State, core: Receipt, r: SecurityReceipt, effect: Effect,
                              epoch: int)
    requires VerifySecurityTransition(h, c, next, core, r, effect, epoch).Ok?
    ensures Verified(h, LinkIn(c, next, core, effect)) && SecurityReceiptVerifies(h, r)
    ensures r.base.coreReceiptHash == core.receiptHash && r.base.epoch == epoch
    ensures var d := Evaluate(h, c, 0);
            && r.base.requesterDigest == d.requesterDigest && r.base.executorDigest == d.executorDigest
            && r.base.delegationDigest == d.delegationDigest && r.base.policyDigest == d.policyDigest
            && r.base.resourcesDigest == d.resourcesDigest && r.base.provenanceDigest == d.provenanceDigest
            && r.base.approvalDigest == d.approvalDigest
  {
    hide VerifyTransition, Digest, Verdict, ApprovalDigest, PolicyValue, StateDigest;
  }

  /**
   * A security receipt binds its whole context: under receipts of the same hash (ids may differ),
   * verification succeeds for two calls only if they concern the same transition, equivalent
   * contexts and the same epoch, or there is a collision.
   */
  lemma SecurityReceiptBinds(h: Hasher, a: Context, b: Context, next: State, next': State,
                             core: Receipt, core': Receipt, r: SecurityReceipt, r': SecurityReceipt,
                             effect: Effect, effect': Effect, m: int, n: int)
    requires VerifySecurityTransition(h, a, next, core, r, effect, m).Ok?
    requires VerifySecurityTransition(h, b, next', core', r', effect', n).Ok?
    requires r.receiptHash == r'.receiptHash
    ensures var l, l' := LinkIn(a, next, core, effect), LinkIn(b, next', core', effect');
            || (SameLink(l, l') && Equivalent(a, b) && m == n)
            || Collision(h, ReceiptValues(h, a, l, r), ReceiptValues(h, b, l', r'))
  {
    SecurityVerifiedMeans(h, a, next, core, r, effect, m);
    SecurityVerifiedMeans(h, b, next', core', r', effect', n);
    hide VerifySecurityTransition, Verdict, Encode, SecurityBaseValue, ContextValues, HashedValues, Verified, Collision,
         Reordered, ApprovalDigest;
    var l, l' := LinkIn(a, next, core, effect), LinkIn(b, next', core', effect');
    var xs, ys := ReceiptValues(h, a, l, r), ReceiptValues(h, b, l', r');
    if !Collision(h, xs, ys) {
      SameValue(h, SecurityBaseValue(r.base), SecurityBaseValue(r'.base), xs, ys);
      SecurityBaseInjective(r.base, r'.base);
      hide Digest;
      ReceiptBindsTransition(h, l, l');
      if Collision(h, HashedValues(l), HashedValues(l')) {
        Widen(h, HashedValues(l), HashedValues(l'), xs, ys);
      }
      if Collision(h, ContextValues(h, a), ContextValues(h, b)) {
        Widen(h, ContextValues(h, a), ContextValues(h, b), xs, ys);
      }
      AuthorityDigestsBind(h, a, b, ContextValues(h, a), ContextValues(h, b));
      EvidenceDigestsBind(h, a, b, ContextValues(h, a), ContextValues(h, b));
    }
  }
}
