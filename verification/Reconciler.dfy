/** ukrl.py: reconciling claims about (subject, predicate) pairs. */
module Reconciler {
  import opened Prelude
  import opened Lists
  import opened Ordering

  /** `observed` is the claim's time stamp as an epoch in seconds. */
  datatype Claim = Claim(
    claimId: string,
    subject: string,
    attribute: string,
    value: string,
    source: string,
    observed: real,
    verified: bool,
    authority: string,
    evidenceRef: Option<string>,
    environment: Option<string>)

  datatype Status = Active | Conflict | Stale | Unverified

  datatype Resolution = Resolution(
    subject: string,
    attribute: string,
    status: Status,
    selected: Option<Claim>,
    conflicts: seq<Claim>,
    rationale: string)

  datatype Anomaly =
    | UnknownAuthority(claimId: string, authority: string)
    | VerifiedWithoutEvidence(claimId: string)
    | StaleClaim(claimId: string, ageDays: real)

  datatype Report = Report(resolutions: seq<Resolution>, anomalies: seq<Anomaly>)

  /** A (subject, predicate) pair. */
  type Key = (string, string)

  function KeyOf(c: Claim): Key {
    (c.subject, c.attribute)
  }

  function KeyText(k: Key): seq<string> {
    [k.0, k.1]
  }

  // ----- Judging one claim

  function AgeDays(now: real, c: Claim): real {
    var age := (now - c.observed) / 86400.0;
    if age < 0.0 then 0.0 else age
  }

  predicate Fresh(now: real, maxAge: int, c: Claim) {
    AgeDays(now, c) <= maxAge as real
  }

  /** `bool(c.evidence_ref)` */
  predicate Evidenced(c: Claim) {
    c.evidenceRef.Some? && c.evidenceRef.value != ""
  }

  function InGroup(k: Key): Claim -> bool {
    (c: Claim) => KeyOf(c) == k
  }

  /** The conflicts of a selected claim. */
  function Disputes(selected: Claim): Claim -> bool {
    (c: Claim) => c.claimId != selected.claimId && c.value != selected.value
  }

  function ValuesOf(bucket: seq<Claim>): set<string> {
    set c | c in bucket :: c.value
  }

  /** What `max` compares; where the source leaves `verified` out of the key it is constant here. */
  datatype Priority = Priority(rank: int, verified: bool, observed: real)

  predicate Below(p: Priority, q: Priority) {
    p.rank < q.rank
    || (p.rank == q.rank && ((!p.verified && q.verified) || (p.verified == q.verified && p.observed < q.observed)))
  }

  /** `max(xs, key=priority)`: Python keeps the first of several maximal elements. */
  function FirstMax(priority: Claim -> Priority, xs: seq<Claim>): Claim
    requires xs != []
  {
    var last := xs[|xs| - 1];
    if |xs| == 1 then last
    else
      var best := FirstMax(priority, xs[..|xs| - 1]);
      if Below(priority(best), priority(last)) then last else best
  }

  datatype Settings = Settings(canonicalSources: seq<string>, authorityRank: map<string, int>) {

    /** `UKRL(...)`: a missing or empty ranking means the default one. */
    static function Make(canonicalSources: seq<string>, authorityRank: Option<map<string, int>>): Settings {
      Settings(canonicalSources,
               if authorityRank.Some? && authorityRank.value != map[] then authorityRank.value
               else map["canonical" := 3, "verified" := 2, "secondary" := 1])
    }

    function Rank(authority: string): int {
      if authority in authorityRank then authorityRank[authority] else 0
    }

    function CanonicalPriority(): Claim -> Priority {
      (c: Claim) => Priority(Rank(c.authority), true, c.observed)
    }

    function SinglePriority(): Claim -> Priority {
      (c: Claim) => Priority(Rank(c.authority), c.verified, c.observed)
    }

    predicate Canonical(c: Claim) {
      c.source in canonicalSources
    }

    /** Claims that may settle a disagreement. */
    function Decisive(now: real, maxAge: int): Claim -> bool {
      (c: Claim) => Canonical(c) && c.verified && Evidenced(c) && Fresh(now, maxAge, c)
    }

    /** The resolution of one group. */
    function Resolve(now: real, maxAge: int, k: Key, bucket: seq<Claim>): Resolution
      requires bucket != []
    {
      if |ValuesOf(bucket)| > 1 then
        var decisive := Filter(Decisive(now, maxAge), bucket);
        if |ValuesOf(decisive)| == 1 then
          assert decisive != [];
          var selected := FirstMax(CanonicalPriority(), decisive);
          Resolution(k.0, k.1, Active, Some(selected), Filter(Disputes(selected), bucket),
                     "verified-canonical-source-resolves-secondary-disagreement")
        else
          Resolution(k.0, k.1, Conflict, None, bucket, "no-single-verified-canonical-value")
      else
        var candidate := FirstMax(SinglePriority(), bucket);
        if !Fresh(now, maxAge, candidate) then
          Resolution(k.0, k.1, Stale, None, bucket, "only-evidence-is-stale")
        else if candidate.verified && Evidenced(candidate) then
          Resolution(k.0, k.1, Active, Some(candidate), [], "verified-evidence-selected")
        else
          Resolution(k.0, k.1, Unverified, None, bucket, "claim-lacks-verification-evidence")
    }

    function AnomaliesOf(now: real, maxAge: int, c: Claim): seq<Anomaly> {
      (if c.authority !in authorityRank then [UnknownAuthority(c.claimId, c.authority)] else [])
      + (if c.verified && !Evidenced(c) then [VerifiedWithoutEvidence(c.claimId)] else [])
      + (if !Fresh(now, maxAge, c) then [StaleClaim(c.claimId, AgeDays(now, c))] else [])
    }

    // ----- What the report holds

    /** The claims of a group, in input order. */
    static function Bucket(claims: seq<Claim>, k: Key): seq<Claim> {
      Filter(InGroup(k), claims)
    }

    /** The groups, in the order of their first claims. */
    static function Groups(claims: seq<Claim>): seq<Key> {
      if claims == [] then []
      else
        var before, k := Groups(claims[..|claims| - 1]), KeyOf(claims[|claims| - 1]);
        if k in before then before else before + [k]
    }

    static function SortedGroups(claims: seq<Claim>): seq<Key> {
      SortBy(KeyText, Groups(claims))
    }

    function Anomalies(now: real, maxAge: int, claims: seq<Claim>): seq<Anomaly> {
      if claims == [] then []
      else Anomalies(now, maxAge, claims[..|claims| - 1]) + AnomaliesOf(now, maxAge, claims[|claims| - 1])
    }

    /** The dictionary after some claims: its keys in insertion order, and each key's list. */
    static ghost predicate Grouped(claims: seq<Claim>, groups: map<Key, seq<Claim>>, order: seq<Key>) {
      && order == Groups(claims)
      && (forall k :: k in groups <==> k in order)
      && (forall k :: k in groups ==> groups[k] != [] && groups[k] == Bucket(claims, k))
      && (forall k :: k !in groups ==> Bucket(claims, k) == [])
    }

    static lemma GroupedStep(claims: seq<Claim>, c: Claim, groups: map<Key, seq<Claim>>, order: seq<Key>)
      requires Grouped(claims, groups, order)
      ensures var k := KeyOf(c);
              Grouped(claims + [c], groups[k := (if k in groups then groups[k] else []) + [c]],
                      if k in groups then order else order + [k])
    {
      assert (claims + [c])[..|claims|] == claims;
      forall k ensures Bucket(claims + [c], k) == Bucket(claims, k) + if KeyOf(c) == k then [c] else [] {
        FilterAppend(InGroup(k), claims, [c]);
      }
      hide Filter, Bucket;
    }

    /** The first loop of `reconcile`: it fills the dictionary of groups and the list of anomalies. */
    method GroupClaims(claims: seq<Claim>, now: real, maxAge: int)
      returns (groups: map<Key, seq<Claim>>, order: seq<Key>, anomalies: seq<Anomaly>)
      ensures Grouped(claims, groups, order)
      ensures anomalies == Anomalies(now, maxAge, claims)
    {
      hide AnomaliesOf, Grouped;
      groups, order, anomalies := map[], [], [];
      NoClaims();
      for i := 0 to |claims|
        invariant Grouped(claims[..i], groups, order)
        invariant anomalies == Anomalies(now, maxAge, claims[..i])
      {
        var c := claims[i];
        assert claims[..i + 1] == claims[..i] + [c] && claims[..i + 1][..i] == claims[..i];
        anomalies := anomalies + AnomaliesOf(now, maxAge, c);
        GroupedStep(claims[..i], c, groups, order);
        ghost var grown := groups[KeyOf(c) := (if KeyOf(c) in groups then groups[KeyOf(c)] else []) + [c]];
        if KeyOf(c) !in groups {
          groups := groups[KeyOf(c) := []];
          order := order + [KeyOf(c)];
        }
        groups := groups[KeyOf(c) := groups[KeyOf(c)] + [c]];
        assert groups == grown;
      }
      assert claims[..|claims|] == claims;
    }

    /** `reconcile`: after grouping, the second loop resolves the groups in key order. */
    method Reconcile(claims: seq<Claim>, now: real, maxAge: int) returns (report: Report)
      ensures report.anomalies == Anomalies(now, maxAge, claims)
      ensures |report.resolutions| == |SortedGroups(claims)|
      ensures forall i :: 0 <= i < |report.resolutions| ==>
                var k := SortedGroups(claims)[i];
                Bucket(claims, k) != [] && report.resolutions[i] == Resolve(now, maxAge, k, Bucket(claims, k))
    {
      hide Resolve, Bucket, SortBy, Anomalies;
      var groups, order, anomalies := GroupClaims(claims, now, maxAge);
      var keys := SortBy(KeyText, order);
      SortSorts(KeyText, order);
      PermutedMembers(keys, order);
      var resolutions: seq<Resolution> := [];
      for i := 0 to |keys|
        invariant |resolutions| == i
        invariant forall j :: 0 <= j < i ==>
                    Bucket(claims, keys[j]) != []
                    && resolutions[j] == Resolve(now, maxAge, keys[j], Bucket(claims, keys[j]))
      {
        assert keys[i] in keys;
        resolutions := resolutions + [Resolve(now, maxAge, keys[i], groups[keys[i]])];
      }
      report := Report(resolutions, anomalies);
    }

    static lemma NoClaims()
      ensures Grouped([], map[], [])
    {
    }
  }

  // ----- The report as a gate

  /** `pass_count` */
  function PassCount(rs: seq<Resolution>): nat {
    if rs == [] then 0 else (if rs[0].status == Active then 1 else 0) + PassCount(rs[1..])
  }

  /** `fail_count` */
  function FailCount(rs: seq<Resolution>): nat {
    if rs == [] then 0 else (if rs[0].status != Active then 1 else 0) + FailCount(rs[1..])
  }

  function NotActive(): Resolution -> bool {
    (r: Resolution) => r.status != Active
  }

  /** `assert_fail_closed`: raises unless every resolution is active; the listing in its message is left out. */
  function AssertFailClosed(report: Report): Result<()> {
    Require(Filter(NotActive(), report.resolutions) == [], FailClosed)
  }
}
