/** What the reconciler decides, and how it reacts to order, to more claims and to time. */
module ReconcilerProofs {
  import opened Prelude
  import opened Lists
  import opened Ordering
  import opened Reconciler

  // ----- Groups

  lemma {:induction false} GroupsExact(claims: seq<Claim>)
    ensures Distinct(Settings.Groups(claims))
    ensures forall k :: k in Settings.Groups(claims) <==> exists c :: c in claims && KeyOf(c) == k
  {
    if claims != [] {
      var front, last := claims[..|claims| - 1], claims[|claims| - 1];
      GroupsExact(front);
      assert claims == front + [last];
    }
  }

  lemma KeyTextInjective(a: Key, b: Key)
    requires KeyText(a) == KeyText(b)
    ensures a == b
  {
    assert KeyText(a)[0] == KeyText(b)[0] && KeyText(a)[1] == KeyText(b)[1];
  }

  /** The report has one resolution per (subject, predicate) pair of the input, in strictly increasing order. */
  lemma SortedGroupsExact(claims: seq<Claim>)
    ensures var ks := Settings.SortedGroups(claims);
            && (forall k :: k in ks <==> exists c :: c in claims && KeyOf(c) == k)
            && (forall i, j :: 0 <= i < j < |ks| ==> GroupBefore(ks[i], ks[j]))
  {
    var gs, ks := Settings.Groups(claims), Settings.SortedGroups(claims);
    GroupsExact(claims);
    SortSorts(KeyText, gs);
    PermutedMembers(ks, gs);
    IncreasingGroups(gs, ks);
    hide SortBy, Settings.Groups, GroupBefore;
  }

  lemma IncreasingGroups(gs: seq<Key>, ks: seq<Key>)
    requires Distinct(gs) && multiset(gs) == multiset(ks) && SortedBy(KeyText, ks)
    ensures forall i, j :: 0 <= i < j < |ks| ==> GroupBefore(ks[i], ks[j])
  {
    hide KeyLe, GroupBefore;
    forall i, j | 0 <= i < j < |ks| ensures GroupBefore(ks[i], ks[j]) {
      if ks[i] == ks[j] {
        DistinctCount(gs, ks[i]);
        TwiceCounted(ks, i, j);
      }
      GroupOrder(ks[i], ks[j]);
    }
  }

  /** By subject, and for one subject by predicate, both by code point. */
  ghost predicate GroupBefore(a: Key, b: Key) {
    Before(a.0, b.0) || (a.0 == b.0 && Before(a.1, b.1))
  }

  lemma GroupOrder(a: Key, b: Key)
    ensures KeyLe(KeyText(a), KeyText(b)) <==> a == b || GroupBefore(a, b)
  {
    hide Before, TextLe;
    KeyLeCons(a.0, b.0, [a.1], [b.1]);
    KeyLeCons(a.1, b.1, [], []);
    assert KeyText(a) == [a.0] + [a.1] && KeyText(b) == [b.0] + [b.1] && [a.1] + [] == [a.1] && [b.1] + [] == [b.1];
  }

  /** A bucket holds exactly the claims of its group. */
  lemma BucketExact(claims: seq<Claim>, k: Key)
    ensures forall c :: c in Settings.Bucket(claims, k) <==> c in claims && KeyOf(c) == k
  {
    FilterMembers(InGroup(k), claims);
  }

  // ----- Selection

  /** `t` is a maximal element of `xs`, and the first one: what Python's `max` returns. */
  ghost predicate IsFirstMax(priority: Claim -> Priority, xs: seq<Claim>, t: Claim) {
    exists i :: 0 <= i < |xs| && xs[i] == t
      && (forall j :: 0 <= j < |xs| ==> !Below(priority(t), priority(xs[j])))
      && (forall j :: 0 <= j < i ==> Below(priority(xs[j]), priority(t)))
  }

  lemma {:induction false} FirstMaxExact(priority: Claim -> Priority, xs: seq<Claim>)
    requires xs != []
    ensures IsFirstMax(priority, xs, FirstMax(priority, xs))
  {
    var last := xs[|xs| - 1];
    if |xs| == 1 {
      assert xs[0] == FirstMax(priority, xs);
    } else {
      var front := xs[..|xs| - 1];
      FirstMaxExact(priority, front);
      assert xs == front + [last];
      FirstMaxExtends(priority, front, FirstMax(priority, front), last);
    }
  }

  // ----- Settings

  /** A missing or empty ranking means the default one; what a ranking leaves out has rank 0. */
  lemma MakeExact(sources: seq<string>, ranking: Option<map<string, int>>, authority: string)
    ensures var s := Settings.Make(sources, ranking);
            && s.canonicalSources == sources
            && (ranking.Some? && ranking.value != map[] ==>
                  s.Rank(authority) == if authority in ranking.value then ranking.value[authority] else 0)
            && (ranking in {None, Some(map[])} ==>
                  s.Rank(authority) == if authority == "canonical" then 3 else if authority == "verified" then 2
                                       else if authority == "secondary" then 1 else 0)
  {
    assert "canonical"[0] == 'c' && "verified"[0] == 'v' && "secondary"[0] == 's';
  }

  // ----- Judging claims, in terms of their fields

  /** The rank of the claim's authority; an unknown authority has rank 0. */
  ghost function RankOf(s: Settings, c: Claim): int {
    if c.authority in s.authorityRank then s.authorityRank[c.authority] else 0
  }

  /** In a group with one value: rank comes first, then verified before unverified, then the later time. */
  ghost predicate NotAbove(s: Settings, c: Claim, top: Claim) {
    RankOf(s, c) < RankOf(s, top)
    || (RankOf(s, c) == RankOf(s, top)
        && ((!c.verified && top.verified) || (c.verified == top.verified && c.observed <= top.observed)))
  }

  /** Among the claims that may settle a disagreement: rank comes first, then the later time. */
  ghost predicate NotAboveDecisive(s: Settings, c: Claim, top: Claim) {
    RankOf(s, c) < RankOf(s, top) || (RankOf(s, c) == RankOf(s, top) && c.observed <= top.observed)
  }

  /** What `max` compares, for both selections. */
  lemma BelowExact(s: Settings, c: Claim, top: Claim)
    ensures !Below(s.SinglePriority()(top), s.SinglePriority()(c)) <==> NotAbove(s, c, top)
    ensures !Below(s.CanonicalPriority()(top), s.CanonicalPriority()(c)) <==> NotAboveDecisive(s, c, top)
  {
  }

  /** The first claim of the bucket above which there is none. */
  ghost predicate IsTop(s: Settings, bucket: seq<Claim>, top: Claim) {
    exists i :: 0 <= i < |bucket| && bucket[i] == top
      && (forall j :: 0 <= j < |bucket| ==> NotAbove(s, bucket[j], top))
      && (forall j :: 0 <= j < i ==> !NotAbove(s, top, bucket[j]))
  }

  lemma IsTopExact(s: Settings, bucket: seq<Claim>, top: Claim)
    ensures IsFirstMax(s.SinglePriority(), bucket, top) <==> IsTop(s, bucket, top)
  {
    forall a, b ensures !Below(s.SinglePriority()(a), s.SinglePriority()(b)) <==> NotAbove(s, b, a) {
      BelowExact(s, b, a);
    }
    hide Below, NotAbove, Settings.SinglePriority;
    if i :| && 0 <= i < |bucket| && bucket[i] == top
            && (forall j :: 0 <= j < |bucket| ==> NotAbove(s, bucket[j], top))
            && (forall j :: 0 <= j < i ==> !NotAbove(s, top, bucket[j])) {
      assert IsFirstMax(s.SinglePriority(), bucket, top);
    }
  }

  /** The first decisive claim of the bucket above which there is no decisive one. */
  ghost predicate IsDecisiveTop(s: Settings, now: real, maxAge: int, bucket: seq<Claim>, top: Claim) {
    exists i :: 0 <= i < |bucket| && bucket[i] == top && s.Decisive(now, maxAge)(top)
      && (forall j :: 0 <= j < |bucket| && s.Decisive(now, maxAge)(bucket[j]) ==> NotAboveDecisive(s, bucket[j], top))
      && (forall j :: 0 <= j < i && s.Decisive(now, maxAge)(bucket[j]) ==> !NotAboveDecisive(s, top, bucket[j]))
  }

  /** `max` over the decisive claims finds that one. */
  lemma {:induction false} DecisiveTopFound(s: Settings, now: real, maxAge: int, bucket: seq<Claim>)
    requires Filter(s.Decisive(now, maxAge), bucket) != []
    ensures IsDecisiveTop(s, now, maxAge, bucket,
                          FirstMax(s.CanonicalPriority(), Filter(s.Decisive(now, maxAge), bucket)))
    decreases |bucket|
  {
    var p, n := s.Decisive(now, maxAge), |bucket| - 1;
    var front, last := bucket[..n], bucket[n];
    var ds := Filter(p, front);
    assert bucket == front + [last];
    FilterAppend(p, front, [last]);
    FilterMembers(p, front);
    assert Filter(p, [last]) == if p(last) then [last] else [];
    hide Settings.Decisive, Settings.CanonicalPriority, Filter, IsDecisiveTop, FirstMax;
    if ds == [] {
      assert FirstMax(s.CanonicalPriority(), ds + [last]) == last by { MaxOfOne(s.CanonicalPriority(), last); }
      OnlyDecisive(s, now, maxAge, front, last);
    } else {
      DecisiveTopFound(s, now, maxAge, front);
      var best := FirstMax(s.CanonicalPriority(), ds);
      MaxOfMore(s.CanonicalPriority(), ds, last);
      BelowExact(s, last, best);
      DecisiveTopExtends(s, now, maxAge, front, best, last);
    }
  }

  lemma MaxOfOne(priority: Claim -> Priority, c: Claim)
    ensures FirstMax(priority, [] + [c]) == c
  {
  }

  lemma MaxOfMore(priority: Claim -> Priority, xs: seq<Claim>, last: Claim)
    requires xs != []
    ensures xs + [] == xs
    ensures var best := FirstMax(priority, xs);
            FirstMax(priority, xs + [last]) == if Below(priority(best), priority(last)) then last else best
  {
    assert (xs + [last])[..|xs|] == xs;
  }

  lemma OnlyDecisive(s: Settings, now: real, maxAge: int, front: seq<Claim>, last: Claim)
    requires s.Decisive(now, maxAge)(last) && forall c :: c in front ==> !s.Decisive(now, maxAge)(c)
    ensures IsDecisiveTop(s, now, maxAge, front + [last], last)
  {
    hide Settings.Decisive;
    var all := front + [last];
    assert all[|front|] == last;
    forall j | 0 <= j < |front| ensures !s.Decisive(now, maxAge)(all[j]) {
      assert all[j] in front;
    }
  }

  lemma DecisiveTopExtends(s: Settings, now: real, maxAge: int, front: seq<Claim>, best: Claim, last: Claim)
    requires IsDecisiveTop(s, now, maxAge, front, best)
    ensures IsDecisiveTop(s, now, maxAge, front + [last],
                          if s.Decisive(now, maxAge)(last) && !NotAboveDecisive(s, last, best) then last else best)
  {
    hide Settings.Decisive;
    var p, all := s.Decisive(now, maxAge), front + [last];
    var i :| 0 <= i < |front| && front[i] == best && p(best)
      && (forall j :: 0 <= j < |front| && p(front[j]) ==> NotAboveDecisive(s, front[j], best))
      && (forall j :: 0 <= j < i && p(front[j]) ==> !NotAboveDecisive(s, best, front[j]));
    assert all[i] == best && all[|front|] == last;
    assert forall j :: 0 <= j < |front| ==> all[j] == front[j];
  }

  /** A claim is fresh when it is at most `maxAge` days old; a negative limit leaves nothing fresh. */
  lemma FreshExact(now: real, maxAge: int, c: Claim)
    ensures Fresh(now, maxAge, c) <==> maxAge >= 0 && now - c.observed <= maxAge as real * 86400.0
  {
  }

  /** The claims that may settle a disagreement. */
  lemma DecisiveExact(s: Settings, now: real, maxAge: int, c: Claim)
    ensures s.Decisive(now, maxAge)(c) <==>
            && c.source in s.canonicalSources && c.verified
            && (exists ref :: ref != "" && c.evidenceRef == Some(ref))
            && maxAge >= 0 && now - c.observed <= maxAge as real * 86400.0
  {
    FreshExact(now, maxAge, c);
    hide Fresh;
    if c.evidenceRef.Some? {
      assert Evidenced(c) <==> c.evidenceRef == Some(c.evidenceRef.value) && c.evidenceRef.value != "";
    }
  }

  /** One more element replaces the maximum exactly when the maximum is below it. */
  lemma FirstMaxExtends(priority: Claim -> Priority, xs: seq<Claim>, best: Claim, last: Claim)
    requires IsFirstMax(priority, xs, best)
    ensures IsFirstMax(priority, xs + [last], if Below(priority(best), priority(last)) then last else best)
  {
    var all := xs + [last];
    var i :| 0 <= i < |xs| && xs[i] == best
      && (forall j :: 0 <= j < |xs| ==> !Below(priority(best), priority(xs[j])))
      && (forall j :: 0 <= j < i ==> Below(priority(xs[j]), priority(best)));
    assert all[i] == best && all[|xs|] == last;
    if Below(priority(best), priority(last)) {
      forall j | 0 <= j < |xs| ensures Below(priority(all[j]), priority(last)) {
        assert all[j] == xs[j];
      }
    }
  }

  lemma FirstMaxUnique(priority: Claim -> Priority, xs: seq<Claim>, s: Claim, t: Claim)
    requires IsFirstMax(priority, xs, s) && IsFirstMax(priority, xs, t)
    ensures s == t
  {
  }

  // ----- Classification

  lemma SingletonSet<T>(s: set<T>)
    ensures |s| == 1 <==> exists x :: s == {x}
    ensures |s| > 1 <==> exists x, y :: x in s && y in s && x != y
  {
    if s != {} {
      var x :| x in s;
      assert s == {x} + (s - {x});
      if s - {x} != {} {
        var y :| y in s - {x};
        assert x in s && y in s && x != y;
      }
    }
  }

  ghost predicate MultiValued(bucket: seq<Claim>) {
    exists a, b :: a in bucket && b in bucket && a.value != b.value
  }

  lemma MultiValuedCounts(bucket: seq<Claim>)
    ensures MultiValued(bucket) <==> |ValuesOf(bucket)| > 1
  {
    SingletonSet(ValuesOf(bucket));
    if MultiValued(bucket) {
      var a, b :| a in bucket && b in bucket && a.value != b.value;
      assert a.value in ValuesOf(bucket) && b.value in ValuesOf(bucket);
    }
  }

  /** The decisive claims of a bucket exist and carry one value, `v`. */
  ghost predicate Settled(s: Settings, now: real, maxAge: int, bucket: seq<Claim>, v: string) {
    && (exists c :: c in bucket && s.Decisive(now, maxAge)(c))
    && (forall c :: c in bucket && s.Decisive(now, maxAge)(c) ==> c.value == v)
  }

  lemma SettledCounts(s: Settings, now: real, maxAge: int, bucket: seq<Claim>)
    ensures |ValuesOf(Filter(s.Decisive(now, maxAge), bucket))| == 1 <==>
            exists v :: Settled(s, now, maxAge, bucket, v)
  {
    var ds := Filter(s.Decisive(now, maxAge), bucket);
    FilterMembers(s.Decisive(now, maxAge), bucket);
    SingletonSet(ValuesOf(ds));
    hide Filter, Settings.Decisive;
    if v :| Settled(s, now, maxAge, bucket, v) {
      var c :| c in bucket && s.Decisive(now, maxAge)(c);
      assert c.value in ValuesOf(ds);
      assert ValuesOf(ds) == {v};
    }
    if |ValuesOf(ds)| == 1 {
      var v :| ValuesOf(ds) == {v};
      assert v in ValuesOf(ds);
      forall c | c in bucket && s.Decisive(now, maxAge)(c) ensures c.value == v {
        assert c.value in ValuesOf(ds);
      }
      assert Settled(s, now, maxAge, bucket, v);
    }
  }

  /**
   * A group with several values is active exactly when its fresh, verified, evidenced claims from
   * canonical sources exist and carry one value; then the first of those with the highest rank and,
   * among them, the latest time stamp is selected, and the conflicts are the claims that differ from
   * it in id and in value. Otherwise it is a conflict.
   */
  lemma MultiValuedExact(s: Settings, now: real, maxAge: int, k: Key, bucket: seq<Claim>)
    requires MultiValued(bucket)
    ensures var r := s.Resolve(now, maxAge, k, bucket);
            && (r.status == Active <==> exists v :: Settled(s, now, maxAge, bucket, v))
            && (r.status == Active ==>
                  r.selected.Some? && r.selected.value in bucket
                  && s.Decisive(now, maxAge)(r.selected.value)
                  && Settled(s, now, maxAge, bucket, r.selected.value.value)
                  && IsFirstMax(s.CanonicalPriority(), Filter(s.Decisive(now, maxAge), bucket), r.selected.value)
                  && IsDecisiveTop(s, now, maxAge, bucket, r.selected.value)
                  && (forall c :: c in r.conflicts <==>
                        c in bucket && c.claimId != r.selected.value.claimId && c.value != r.selected.value.value)
                  && r.conflicts == Filter(Disputes(r.selected.value), bucket))
            && (r.status != Active ==> r.status == Conflict && r.selected == None && r.conflicts == bucket)
  {
    MultiValuedCounts(bucket);
    SettledCounts(s, now, maxAge, bucket);
    var ds := Filter(s.Decisive(now, maxAge), bucket);
    FilterMembers(s.Decisive(now, maxAge), bucket);
    if ds != [] {
      FirstMaxExact(s.CanonicalPriority(), ds);
      DecisiveTopFound(s, now, maxAge, bucket);
      FilterMembers(Disputes(FirstMax(s.CanonicalPriority(), ds)), bucket);
    }
    hide Filter, FirstMax, Settings.Decisive, IsDecisiveTop;
  }

  lemma SingleValuedByMax(s: Settings, now: real, maxAge: int, k: Key, bucket: seq<Claim>, top: Claim)
    requires bucket != [] && !MultiValued(bucket) && IsFirstMax(s.SinglePriority(), bucket, top)
    ensures var r := s.Resolve(now, maxAge, k, bucket);
            && (r.status == Stale <==> !Fresh(now, maxAge, top))
            && (r.status == Active <==> Fresh(now, maxAge, top) && top.verified && Evidenced(top))
            && r.status != Conflict
            && r.selected == (if r.status == Active then Some(top) else None)
            && r.conflicts == (if r.status == Active then [] else bucket)
  {
    MultiValuedCounts(bucket);
    FirstMaxExact(s.SinglePriority(), bucket);
    FirstMaxUnique(s.SinglePriority(), bucket, top, FirstMax(s.SinglePriority(), bucket));
    hide IsFirstMax, FirstMax, Fresh;
  }

  /**
   * A group with one value is stale exactly when its first top-ranked claim is stale, and active exactly
   * when that claim is fresh, verified and evidenced; then it is the selected one.
   */
  lemma SingleValuedExact(s: Settings, now: real, maxAge: int, k: Key, bucket: seq<Claim>, top: Claim)
    requires bucket != [] && !MultiValued(bucket) && IsTop(s, bucket, top)
    ensures var r := s.Resolve(now, maxAge, k, bucket);
            && (r.status == Stale <==> !Fresh(now, maxAge, top))
            && (r.status == Active <==> Fresh(now, maxAge, top) && top.verified && Evidenced(top))
            && r.status != Conflict
            && r.selected == (if r.status == Active then Some(top) else None)
            && r.conflicts == (if r.status == Active then [] else bucket)
  {
    IsTopExact(s, bucket, top);
    SingleValuedByMax(s, now, maxAge, k, bucket, top);
  }

  /** Such a claim exists in every bucket, and it is the only one. */
  lemma TopExists(s: Settings, bucket: seq<Claim>) returns (top: Claim)
    requires bucket != []
    ensures IsTop(s, bucket, top) && forall c :: IsTop(s, bucket, c) ==> c == top
  {
    top := FirstMax(s.SinglePriority(), bucket);
    FirstMaxExact(s.SinglePriority(), bucket);
    IsTopExact(s, bucket, top);
    forall c | IsTop(s, bucket, c) ensures c == top {
      IsTopExact(s, bucket, c);
      FirstMaxUnique(s.SinglePriority(), bucket, c, top);
    }
  }

  /** Over all groups: stale is what a group with one value and a stale top-ranked claim is, and no other. */
  lemma StaleExactly(s: Settings, now: real, maxAge: int, k: Key, bucket: seq<Claim>, top: Claim)
    requires bucket != [] && IsTop(s, bucket, top)
    ensures s.Resolve(now, maxAge, k, bucket).status == Stale <==> !MultiValued(bucket) && !Fresh(now, maxAge, top)
  {
    IsTopExact(s, bucket, top);
    StaleByMax(s, now, maxAge, k, bucket, top);
  }

  lemma StaleByMax(s: Settings, now: real, maxAge: int, k: Key, bucket: seq<Claim>, top: Claim)
    requires bucket != [] && IsFirstMax(s.SinglePriority(), bucket, top)
    ensures s.Resolve(now, maxAge, k, bucket).status == Stale <==> !MultiValued(bucket) && !Fresh(now, maxAge, top)
  {
    if MultiValued(bucket) {
      MultiValuedExact(s, now, maxAge, k, bucket);
    } else {
      SingleValuedByMax(s, now, maxAge, k, bucket, top);
    }
    hide Settings.Resolve, Fresh, IsFirstMax;
  }

  /** Over all groups: a conflict is a group with several values whose decisive claims are none, or disagree. */
  lemma ConflictExactly(s: Settings, now: real, maxAge: int, k: Key, bucket: seq<Claim>)
    requires bucket != []
    ensures s.Resolve(now, maxAge, k, bucket).status == Conflict <==>
            && MultiValued(bucket)
            && ((forall c :: c in bucket ==> !s.Decisive(now, maxAge)(c)) || DecisiveDisagree(s, now, maxAge, bucket))
  {
    if MultiValued(bucket) {
      MultiValuedExact(s, now, maxAge, k, bucket);
      hide Settings.Resolve, Settings.Decisive;
      if c :| c in bucket && s.Decisive(now, maxAge)(c) {
        assert !DecisiveDisagree(s, now, maxAge, bucket) ==> Settled(s, now, maxAge, bucket, c.value);
      }
    } else {
      FirstMaxExact(s.SinglePriority(), bucket);
      SingleValuedByMax(s, now, maxAge, k, bucket, FirstMax(s.SinglePriority(), bucket));
    }
  }

  ghost predicate DecisiveDisagree(s: Settings, now: real, maxAge: int, bucket: seq<Claim>) {
    exists a, b :: a in bucket && b in bucket && s.Decisive(now, maxAge)(a) && s.Decisive(now, maxAge)(b)
      && a.value != b.value
  }

  /**
   * When a conflict follows from two claims that disagree: exactly when the decisive claims of their
   * group do not settle it, and so whenever both are themselves decisive.
   */
  lemma DisagreementConflictsExactly(s: Settings, now: real, maxAge: int, k: Key, bucket: seq<Claim>,
                                     a: Claim, b: Claim)
    requires a in bucket && b in bucket && a.value != b.value
    ensures s.Resolve(now, maxAge, k, bucket).status == Conflict <==> !exists v :: Settled(s, now, maxAge, bucket, v)
    ensures s.Decisive(now, maxAge)(a) && s.Decisive(now, maxAge)(b) ==>
              s.Resolve(now, maxAge, k, bucket).status == Conflict
  {
    MultiValuedExact(s, now, maxAge, k, bucket);
    hide Settings.Resolve, Settings.Decisive;
  }

  /** A resolution names its group, holds claims of that group only, and says why it has its status. */
  lemma ResolutionNamesGroup(s: Settings, now: real, maxAge: int, claims: seq<Claim>, k: Key)
    requires Settings.Bucket(claims, k) != []
    ensures var bucket := Settings.Bucket(claims, k);
            var r := s.Resolve(now, maxAge, k, bucket);
            && (forall c :: c in bucket <==> c in claims && c.subject == r.subject && c.attribute == r.attribute)
            && (forall c :: c in r.conflicts || r.selected == Some(c) ==>
                  c in claims && c.subject == r.subject && c.attribute == r.attribute)
            && r.rationale == (match r.status
                               case Active => if MultiValued(bucket)
                                              then "verified-canonical-source-resolves-secondary-disagreement"
                                              else "verified-evidence-selected"
                               case Conflict => "no-single-verified-canonical-value"
                               case Stale => "only-evidence-is-stale"
                               case Unverified => "claim-lacks-verification-evidence")
  {
    var bucket := Settings.Bucket(claims, k);
    BucketExact(claims, k);
    if MultiValued(bucket) {
      MultiValuedExact(s, now, maxAge, k, bucket);
    } else {
      var top := TopExists(s, bucket);
      SingleValuedExact(s, now, maxAge, k, bucket, top);
    }
    ResolveShape(s, now, maxAge, k, bucket);
    hide Settings.Resolve, Settings.Bucket, IsTop, IsDecisiveTop, Settled, IsFirstMax, Filter, Fresh, Evidenced;
  }

  lemma ResolveShape(s: Settings, now: real, maxAge: int, k: Key, bucket: seq<Claim>)
    requires bucket != []
    ensures var r := s.Resolve(now, maxAge, k, bucket);
            && r.subject == k.0 && r.attribute == k.1
            && (r.status == Active ==>
                  r.rationale == (if MultiValued(bucket)
                                  then "verified-canonical-source-resolves-secondary-disagreement"
                                  else "verified-evidence-selected"))
            && (r.status == Conflict ==> r.rationale == "no-single-verified-canonical-value")
            && (r.status == Stale ==> r.rationale == "only-evidence-is-stale")
            && (r.status == Unverified ==> r.rationale == "claim-lacks-verification-evidence")
  {
    MultiValuedCounts(bucket);
    hide Filter, FirstMax, Fresh, Evidenced, Settings.Decisive, MultiValued;
  }

  /** Whatever is active rests on an input claim that is verified, evidenced and fresh. */
  lemma ActiveIsGrounded(s: Settings, now: real, maxAge: int, claims: seq<Claim>, k: Key)
    requires Settings.Bucket(claims, k) != []
    ensures var r := s.Resolve(now, maxAge, k, Settings.Bucket(claims, k));
            && (r.status == Active <==> r.selected.Some?)
            && (r.status == Active ==>
                  var c := r.selected.value;
                  c in claims && KeyOf(c) == k && c.verified && Evidenced(c) && Fresh(now, maxAge, c))
  {
    var bucket := Settings.Bucket(claims, k);
    BucketExact(claims, k);
    if MultiValued(bucket) {
      MultiValuedExact(s, now, maxAge, k, bucket);
    } else {
      FirstMaxExact(s.SinglePriority(), bucket);
      var top := FirstMax(s.SinglePriority(), bucket);
      assert top in bucket;
      SingleValuedByMax(s, now, maxAge, k, bucket, top);
    }
    hide Settings.Resolve, Settings.Bucket, Fresh, FirstMax;
  }

  // ----- Order

  /** Claims with the same id are the same claim. */
  ghost predicate IdsIdentify(claims: seq<Claim>) {
    forall a, b :: a in claims && b in claims && a.claimId == b.claimId ==> a == b
  }

  function Differs(v: string): Claim -> bool {
    (c: Claim) => c.value != v
  }

  /** When ids identify claims, the conflicts are the claims with another value. */
  lemma ConflictsAreDiffering(bucket: seq<Claim>, selected: Claim)
    requires IdsIdentify(bucket) && selected in bucket
    ensures Filter(Disputes(selected), bucket) == Filter(Differs(selected.value), bucket)
  {
    FilterAgree(Disputes(selected), Differs(selected.value), bucket);
  }

  /**
   * Permuting the claims of a group with several values changes neither its status nor the selected
   * value; when ids identify claims, it only permutes the conflicts.
   */
  lemma MultiValuedOrderIndependent(s: Settings, now: real, maxAge: int, k: Key, xs: seq<Claim>, ys: seq<Claim>)
    requires MultiValued(xs) && multiset(xs) == multiset(ys)
    ensures MultiValued(ys)
    ensures var r, q := s.Resolve(now, maxAge, k, xs), s.Resolve(now, maxAge, k, ys);
            && r.status == q.status
            && (r.status == Active ==>
                       r.selected.Some? && q.selected.Some? && r.selected.value.value == q.selected.value.value)
            && (IdsIdentify(xs) ==> multiset(r.conflicts) == multiset(q.conflicts))
  {
    hide Settings.Resolve, Settings.Decisive, Filter, IsFirstMax;
    PermutedMembers(xs, ys);
    MultiValuedExact(s, now, maxAge, k, xs);
    MultiValuedExact(s, now, maxAge, k, ys);
    var r, q := s.Resolve(now, maxAge, k, xs), s.Resolve(now, maxAge, k, ys);
    assert forall v :: Settled(s, now, maxAge, xs, v) <==> Settled(s, now, maxAge, ys, v);
    if r.status == Active && IdsIdentify(xs) {
      ConflictsAreDiffering(xs, r.selected.value);
      ConflictsAreDiffering(ys, q.selected.value);
      FilterPermuted(Differs(r.selected.value.value), xs, ys);
    }
  }

  /** A decisive claim that no decisive claim of the bucket outranks. */
  ghost predicate TopDecisive(s: Settings, now: real, maxAge: int, bucket: seq<Claim>, c: Claim) {
    && c in bucket && s.Decisive(now, maxAge)(c)
    && forall d :: d in bucket && s.Decisive(now, maxAge)(d) ==>
         !Below(s.CanonicalPriority()(c), s.CanonicalPriority()(d))
  }

  /**
   * In an active group with several values the selected claim itself, and not only its value, is the
   * same for every order of the claims exactly when only one decisive claim is top-ranked.
   */
  lemma SelectedOrderIndependence(s: Settings, now: real, maxAge: int, k: Key, xs: seq<Claim>)
    requires MultiValued(xs) && s.Resolve(now, maxAge, k, xs).status == Active
    ensures (forall a, b :: TopDecisive(s, now, maxAge, xs, a) && TopDecisive(s, now, maxAge, xs, b) ==> a == b) <==>
            forall ys: seq<Claim> :: ys != [] && multiset(ys) == multiset(xs) ==>
              s.Resolve(now, maxAge, k, ys).selected == s.Resolve(now, maxAge, k, xs).selected
  {
    hide Settings.Resolve, TopDecisive;
    if forall a, b :: TopDecisive(s, now, maxAge, xs, a) && TopDecisive(s, now, maxAge, xs, b) ==> a == b {
      SelectedIsTop(s, now, maxAge, k, xs, xs);
      forall ys: seq<Claim> | ys != [] && multiset(ys) == multiset(xs)
        ensures s.Resolve(now, maxAge, k, ys).selected == s.Resolve(now, maxAge, k, xs).selected
      {
        SelectedIsTop(s, now, maxAge, k, xs, ys);
      }
    } else {
      var a, b :| TopDecisive(s, now, maxAge, xs, a) && TopDecisive(s, now, maxAge, xs, b) && a != b;
      var ys := SelectedFirst(s, now, maxAge, k, xs, a);
      var zs := SelectedFirst(s, now, maxAge, k, xs, b);
    }
  }

  lemma SelectedIsTop(s: Settings, now: real, maxAge: int, k: Key, xs: seq<Claim>, ys: seq<Claim>)
    requires MultiValued(xs) && s.Resolve(now, maxAge, k, xs).status == Active
    requires ys != [] && multiset(ys) == multiset(xs)
    ensures var q := s.Resolve(now, maxAge, k, ys);
            q.selected.Some? && TopDecisive(s, now, maxAge, xs, q.selected.value)
  {
    MultiValuedOrderIndependent(s, now, maxAge, k, xs, ys);
    MultiValuedExact(s, now, maxAge, k, ys);
    FilterMembers(s.Decisive(now, maxAge), ys);
    PermutedMembers(xs, ys);
    hide Settings.Resolve, Filter, Settings.Decisive, Settings.CanonicalPriority;
    var c := s.Resolve(now, maxAge, k, ys).selected.value;
    var ds := Filter(s.Decisive(now, maxAge), ys);
    forall d | d in xs && s.Decisive(now, maxAge)(d)
      ensures !Below(s.CanonicalPriority()(c), s.CanonicalPriority()(d))
    {
      assert d in ds;
    }
  }

  /** A top-ranked decisive claim moved to the front is the selected one. */
  lemma SelectedFirst(s: Settings, now: real, maxAge: int, k: Key, xs: seq<Claim>, a: Claim)
    returns (ys: seq<Claim>)
    requires MultiValued(xs) && s.Resolve(now, maxAge, k, xs).status == Active && TopDecisive(s, now, maxAge, xs, a)
    ensures ys != [] && multiset(ys) == multiset(xs)
    ensures s.Resolve(now, maxAge, k, ys).selected == Some(a)
  {
    var i := IndexOf(xs, a);
    ys := MoveToFront(xs, i);
    PermutedMembers(xs, ys);
    MultiValuedOrderIndependent(s, now, maxAge, k, xs, ys);
    MultiValuedExact(s, now, maxAge, k, ys);
    FilterMembers(s.Decisive(now, maxAge), ys);
    var ds := Filter(s.Decisive(now, maxAge), ys);
    assert ys[0] == a && ds[0] == a;
    hide Settings.Resolve, Filter, Settings.Decisive, Settings.CanonicalPriority;
    FirstMaxUnique(s.CanonicalPriority(), ds, a, s.Resolve(now, maxAge, k, ys).selected.value);
  }

  /** The claims that tie with the top-ranked one agree on having evidence. */
  ghost predicate TopAgrees(s: Settings, bucket: seq<Claim>) {
    forall a, b :: a in bucket && b in bucket && IsMaximal(s, bucket, a) && IsMaximal(s, bucket, b) ==>
      Evidenced(a) == Evidenced(b)
  }

  ghost predicate IsMaximal(s: Settings, bucket: seq<Claim>, c: Claim) {
    forall d :: d in bucket ==> !Below(s.SinglePriority()(c), s.SinglePriority()(d))
  }

  /** Some top-ranked claim is stale or unverified; by the ranking key then all of them are. */
  ghost predicate TopIsIdle(s: Settings, now: real, maxAge: int, bucket: seq<Claim>) {
    exists c :: c in bucket && IsMaximal(s, bucket, c) && !(Fresh(now, maxAge, c) && c.verified)
  }

  lemma FirstMaxIsMaximal(s: Settings, bucket: seq<Claim>)
    requires bucket != []
    ensures var top := FirstMax(s.SinglePriority(), bucket);
            top in bucket && IsMaximal(s, bucket, top)
  {
    FirstMaxExact(s.SinglePriority(), bucket);
    hide FirstMax;
  }

  /** Maximal claims share rank, verification and time stamp, hence freshness. */
  lemma MaximalsTie(s: Settings, now: real, maxAge: int, bucket: seq<Claim>, a: Claim, b: Claim)
    requires a in bucket && b in bucket && IsMaximal(s, bucket, a) && IsMaximal(s, bucket, b)
    ensures s.SinglePriority()(a) == s.SinglePriority()(b)
    ensures a.verified == b.verified && Fresh(now, maxAge, a) == Fresh(now, maxAge, b)
  {
  }

  lemma SingleValuedStatus(s: Settings, now: real, maxAge: int, k: Key, bucket: seq<Claim>, top: Claim)
    requires bucket != [] && !MultiValued(bucket) && top == FirstMax(s.SinglePriority(), bucket)
    ensures s.Resolve(now, maxAge, k, bucket).status ==
            if !Fresh(now, maxAge, top) then Stale else if top.verified && Evidenced(top) then Active else Unverified
  {
    FirstMaxExact(s.SinglePriority(), bucket);
    hide FirstMax, IsFirstMax;
    SingleValuedByMax(s, now, maxAge, k, bucket, top);
  }

  /**
   * The status of a group with one value is the same for every order of its claims exactly when its
   * top-ranked claims are stale or unverified, or agree on having evidence.
   */
  lemma SingleValuedOrderIndependence(s: Settings, now: real, maxAge: int, k: Key, xs: seq<Claim>)
    requires xs != [] && !MultiValued(xs)
    ensures TopIsIdle(s, now, maxAge, xs) || TopAgrees(s, xs) <==>
            forall ys: seq<Claim> :: ys != [] && multiset(ys) == multiset(xs) ==>
              s.Resolve(now, maxAge, k, ys).status == s.Resolve(now, maxAge, k, xs).status
  {
    if TopIsIdle(s, now, maxAge, xs) || TopAgrees(s, xs) {
      forall ys: seq<Claim> | ys != [] && multiset(ys) == multiset(xs)
        ensures s.Resolve(now, maxAge, k, ys).status == s.Resolve(now, maxAge, k, xs).status
      {
        SingleValuedStable(s, now, maxAge, k, xs, ys);
      }
    } else {
      var a, b :| a in xs && b in xs && IsMaximal(s, xs, a) && IsMaximal(s, xs, b) && Evidenced(a) != Evidenced(b);
      var ys := Fronted(s, now, maxAge, k, xs, a);
      var zs := Fronted(s, now, maxAge, k, xs, b);
    }
  }

  lemma SingleValuedStable(s: Settings, now: real, maxAge: int, k: Key, xs: seq<Claim>, ys: seq<Claim>)
    requires xs != [] && !MultiValued(xs) && ys != [] && multiset(ys) == multiset(xs)
    requires TopIsIdle(s, now, maxAge, xs) || TopAgrees(s, xs)
    ensures s.Resolve(now, maxAge, k, ys).status == s.Resolve(now, maxAge, k, xs).status
  {
    PermutedMembers(xs, ys);
    var t, u := FirstMax(s.SinglePriority(), xs), FirstMax(s.SinglePriority(), ys);
    FirstMaxIsMaximal(s, xs);
    FirstMaxIsMaximal(s, ys);
    SingleValuedStatus(s, now, maxAge, k, xs, t);
    SingleValuedStatus(s, now, maxAge, k, ys, u);
    hide FirstMax, Settings.Resolve, Fresh, Settings.SinglePriority;
    assert u in xs && IsMaximal(s, xs, u);
    MaximalsTie(s, now, maxAge, xs, t, u);
    if TopIsIdle(s, now, maxAge, xs) {
      var c :| c in xs && IsMaximal(s, xs, c) && !(Fresh(now, maxAge, c) && c.verified);
      MaximalsTie(s, now, maxAge, xs, t, c);
    }
  }

  /** A maximal claim moved to the front decides the status. */
  lemma Fronted(s: Settings, now: real, maxAge: int, k: Key, xs: seq<Claim>, a: Claim) returns (ys: seq<Claim>)
    requires a in xs && IsMaximal(s, xs, a) && !MultiValued(xs) && !TopIsIdle(s, now, maxAge, xs)
    ensures ys != [] && multiset(ys) == multiset(xs)
    ensures s.Resolve(now, maxAge, k, ys).status == if Evidenced(a) then Active else Unverified
  {
    var i := IndexOf(xs, a);
    ys := MoveToFront(xs, i);
    FirstDecides(s, now, maxAge, k, xs, ys, a);
  }

  lemma FirstDecides(s: Settings, now: real, maxAge: int, k: Key, xs: seq<Claim>, ys: seq<Claim>, a: Claim)
    requires a in xs && IsMaximal(s, xs, a) && !MultiValued(xs) && !TopIsIdle(s, now, maxAge, xs)
    requires multiset(ys) == multiset(xs) && ys != [] && ys[0] == a
    ensures s.Resolve(now, maxAge, k, ys).status == if Evidenced(a) then Active else Unverified
  {
    PermutedMembers(xs, ys);
    assert a in ys;
    hide FirstMax, Settings.Resolve, Fresh;
    assert IsFirstMax(s.SinglePriority(), ys, a) by {
      forall j | 0 <= j < |ys| ensures !Below(s.SinglePriority()(a), s.SinglePriority()(ys[j])) {
        assert ys[j] in xs;
      }
    }
    SingleValuedByMax(s, now, maxAge, k, ys, a);
  }

  /** Permuted input gives the same list of groups. */
  lemma SortedGroupsPermuted(xs: seq<Claim>, ys: seq<Claim>)
    requires multiset(xs) == multiset(ys)
    ensures Settings.SortedGroups(xs) == Settings.SortedGroups(ys)
  {
    var gs, hs := Settings.Groups(xs), Settings.Groups(ys);
    PermutedMembers(xs, ys);
    GroupsExact(xs);
    GroupsExact(ys);
    hide SortBy, Settings.Groups;
    assert forall k :: k in gs <==> k in hs;
    DistinctSameMembers(gs, hs);
    forall a: Key, b: Key | KeyText(a) == KeyText(b) ensures a == b { KeyTextInjective(a, b); }
    hide KeyText;
    assert NoTies(KeyText, gs);
    SortOrderIndependent(KeyText, gs);
    assert SortBy(KeyText, hs) == SortBy(KeyText, gs);
  }

  /**
   * Order independence of the report: with the claims in another order it has the same groups in the
   * same places, and every group with several values keeps status, selected value and (when ids
   * identify claims) its conflicts up to order.
   */
  lemma ReportOrderIndependent(s: Settings, now: real, maxAge: int, xs: seq<Claim>, ys: seq<Claim>)
    requires multiset(xs) == multiset(ys)
    ensures Settings.SortedGroups(xs) == Settings.SortedGroups(ys)
    ensures forall k :: MultiValued(Settings.Bucket(xs, k)) ==>
              && Settings.Bucket(ys, k) != []
              && var r := s.Resolve(now, maxAge, k, Settings.Bucket(xs, k));
                 var q := s.Resolve(now, maxAge, k, Settings.Bucket(ys, k));
                 && r.status == q.status
                 && (r.status == Active ==>
                       r.selected.Some? && q.selected.Some? && r.selected.value.value == q.selected.value.value)
                 && (IdsIdentify(xs) ==> multiset(r.conflicts) == multiset(q.conflicts))
  {
    hide SortBy, Settings.Groups, Settings.Resolve, Filter, IdsIdentify;
    SortedGroupsPermuted(xs, ys);
    forall k | MultiValued(Settings.Bucket(xs, k))
      ensures && Settings.Bucket(ys, k) != []
              && var r := s.Resolve(now, maxAge, k, Settings.Bucket(xs, k));
                 var q := s.Resolve(now, maxAge, k, Settings.Bucket(ys, k));
                 && r.status == q.status
                 && (r.status == Active ==>
                       r.selected.Some? && q.selected.Some? && r.selected.value.value == q.selected.value.value)
                 && (IdsIdentify(xs) ==> multiset(r.conflicts) == multiset(q.conflicts))
    {
      FilterPermuted(InGroup(k), xs, ys);
      FilterMembers(InGroup(k), xs);
      MultiValuedOrderIndependent(s, now, maxAge, k, Settings.Bucket(xs, k), Settings.Bucket(ys, k));
      assert IdsIdentify(xs) ==> IdsIdentify(Settings.Bucket(xs, k)) by { FewerIds(xs, Settings.Bucket(xs, k)); }
    }
  }

  lemma FewerIds(xs: seq<Claim>, some: seq<Claim>)
    requires forall c :: c in some ==> c in xs
    ensures IdsIdentify(xs) ==> IdsIdentify(some)
  {
  }

  /** The claims of the group decide its status whatever order they come in. */
  ghost predicate OrderSafe(s: Settings, now: real, maxAge: int, bucket: seq<Claim>) {
    MultiValued(bucket) || TopIsIdle(s, now, maxAge, bucket) || TopAgrees(s, bucket)
  }

  /** Both inputs give every group of the first the same status. */
  ghost predicate SameStatuses(s: Settings, now: real, maxAge: int, xs: seq<Claim>, ys: seq<Claim>) {
    forall k :: Settings.Bucket(xs, k) != [] && Settings.Bucket(ys, k) != [] ==>
      s.Resolve(now, maxAge, k, Settings.Bucket(ys, k)).status
      == s.Resolve(now, maxAge, k, Settings.Bucket(xs, k)).status
  }

  /**
   * The statuses of the whole report are the same for every order of the claims exactly when every
   * group has several values, or top-ranked claims that are idle or agree on having evidence.
   */
  lemma ReportStatusOrderIndependence(s: Settings, now: real, maxAge: int, xs: seq<Claim>)
    ensures (forall k :: Settings.Bucket(xs, k) != [] ==> OrderSafe(s, now, maxAge, Settings.Bucket(xs, k))) <==>
            forall ys: seq<Claim> :: multiset(ys) == multiset(xs) ==> SameStatuses(s, now, maxAge, xs, ys)
  {
    hide SameStatuses, OrderSafe, Settings.Bucket;
    if forall k :: Settings.Bucket(xs, k) != [] ==> OrderSafe(s, now, maxAge, Settings.Bucket(xs, k)) {
      forall ys: seq<Claim> | multiset(ys) == multiset(xs) ensures SameStatuses(s, now, maxAge, xs, ys) {
        SafeGroupsKeepStatus(s, now, maxAge, xs, ys);
      }
    } else {
      var k :| Settings.Bucket(xs, k) != [] && !OrderSafe(s, now, maxAge, Settings.Bucket(xs, k));
      var ys := UnsafeGroupFlips(s, now, maxAge, xs, k);
    }
  }

  lemma SafeGroupsKeepStatus(s: Settings, now: real, maxAge: int, xs: seq<Claim>, ys: seq<Claim>)
    requires multiset(ys) == multiset(xs)
    requires forall k :: Settings.Bucket(xs, k) != [] ==> OrderSafe(s, now, maxAge, Settings.Bucket(xs, k))
    ensures SameStatuses(s, now, maxAge, xs, ys)
  {
    hide Settings.Resolve, MultiValued, TopIsIdle, TopAgrees;
    forall k | Settings.Bucket(xs, k) != [] && Settings.Bucket(ys, k) != []
      ensures s.Resolve(now, maxAge, k, Settings.Bucket(ys, k)).status
           == s.Resolve(now, maxAge, k, Settings.Bucket(xs, k)).status
    {
      FilterPermuted(InGroup(k), xs, ys);
      if MultiValued(Settings.Bucket(xs, k)) {
        MultiValuedOrderIndependent(s, now, maxAge, k, Settings.Bucket(xs, k), Settings.Bucket(ys, k));
      } else {
        SingleValuedStable(s, now, maxAge, k, Settings.Bucket(xs, k), Settings.Bucket(ys, k));
      }
    }
  }

  lemma UnsafeGroupFlips(s: Settings, now: real, maxAge: int, xs: seq<Claim>, k: Key) returns (ys: seq<Claim>)
    requires Settings.Bucket(xs, k) != [] && !OrderSafe(s, now, maxAge, Settings.Bucket(xs, k))
    ensures multiset(ys) == multiset(xs) && !SameStatuses(s, now, maxAge, xs, ys)
  {
    var bucket := Settings.Bucket(xs, k);
    var a, b :| a in bucket && b in bucket && IsMaximal(s, bucket, a) && IsMaximal(s, bucket, b)
      && Evidenced(a) != Evidenced(b);
    ys := FrontedInput(s, now, maxAge, xs, k, a);
    var zs := FrontedInput(s, now, maxAge, xs, k, b);
    hide Settings.Resolve, Settings.Bucket, IsMaximal, TopIsIdle, TopAgrees, MultiValued;
    if SameStatuses(s, now, maxAge, xs, ys) {
      ys := zs;
    }
  }

  /** A maximal claim of a group moved to the front of the whole input decides the status of the group. */
  lemma FrontedInput(s: Settings, now: real, maxAge: int, xs: seq<Claim>, k: Key, a: Claim) returns (ys: seq<Claim>)
    requires var bucket := Settings.Bucket(xs, k);
             a in bucket && IsMaximal(s, bucket, a) && !MultiValued(bucket) && !TopIsIdle(s, now, maxAge, bucket)
    ensures multiset(ys) == multiset(xs) && Settings.Bucket(ys, k) != []
    ensures s.Resolve(now, maxAge, k, Settings.Bucket(ys, k)).status == if Evidenced(a) then Active else Unverified
  {
    BucketExact(xs, k);
    var i := IndexOf(xs, a);
    ys := MoveToFront(xs, i);
    FilterPermuted(InGroup(k), xs, ys);
    assert Settings.Bucket(ys, k)[0] == a;
    hide Filter, Settings.Resolve, IsMaximal, TopIsIdle, MultiValued;
    FirstDecides(s, now, maxAge, k, Settings.Bucket(xs, k), Settings.Bucket(ys, k), a);
  }

  // ----- More claims

  function FromCanonical(s: Settings): Claim -> bool {
    (c: Claim) => s.Canonical(c)
  }

  /** The decisive claims of a bucket are among its canonical-source claims. */
  lemma DecisiveAmongCanonical(s: Settings, now: real, maxAge: int, xs: seq<Claim>)
    ensures Filter(s.Decisive(now, maxAge), xs) == Filter(s.Decisive(now, maxAge), Filter(FromCanonical(s), xs))
  {
    FilterTwice(s.Decisive(now, maxAge), FromCanonical(s), xs);
  }

  /**
   * Claims from other than canonical sources decide nothing: two groups with several values and the
   * same canonical-source claims in the same order get the same status and the same selected claim.
   */
  lemma OnlyCanonicalClaimsDecide(s: Settings, now: real, maxAge: int, k: Key, xs: seq<Claim>, ys: seq<Claim>)
    requires MultiValued(xs) && MultiValued(ys)
    requires Filter(FromCanonical(s), xs) == Filter(FromCanonical(s), ys)
    ensures var r, q := s.Resolve(now, maxAge, k, xs), s.Resolve(now, maxAge, k, ys);
            r.status == q.status && r.selected == q.selected
  {
    hide Filter, FirstMax, Settings.Decisive, MultiValued, FromCanonical;
    MultiValuedCounts(xs);
    MultiValuedCounts(ys);
    DecisiveAmongCanonical(s, now, maxAge, xs);
    DecisiveAmongCanonical(s, now, maxAge, ys);
  }

  lemma AddedToBucket(s: Settings, now: real, maxAge: int, k: Key, xs: seq<Claim>, more: seq<Claim>)
    requires MultiValued(xs) && s.Resolve(now, maxAge, k, xs).status == Active
    requires forall c :: c in more ==> !s.Canonical(c)
    ensures var r := s.Resolve(now, maxAge, k, xs);
            s.Resolve(now, maxAge, k, xs + more) ==
            r.(conflicts := r.conflicts + Filter(Disputes(r.selected.value), more))
  {
    hide Filter, Settings.Resolve, Settings.Canonical;
    assert MultiValued(xs + more) by {
      var a, b :| a in xs && b in xs && a.value != b.value;
      assert a in xs + more && b in xs + more;
    }
    NoneCanonical(s, more);
    FilterAppend(FromCanonical(s), xs, more);
    OnlyCanonicalClaimsDecide(s, now, maxAge, k, xs, xs + more);
    ActiveShape(s, now, maxAge, k, xs);
    ActiveShape(s, now, maxAge, k, xs + more);
    FilterAppend(Disputes(s.Resolve(now, maxAge, k, xs).selected.value), xs, more);
  }

  /**
   * Adding claims from other than canonical sources leaves an active group with several values active,
   * with the same selected claim and the old conflicts in place, and appends those that dispute it.
   */
  lemma AddedSecondaryClaims(s: Settings, now: real, maxAge: int, k: Key, claims: seq<Claim>, extra: seq<Claim>)
    requires MultiValued(Settings.Bucket(claims, k))
    requires forall c :: c in extra ==> !s.Canonical(c)
    requires s.Resolve(now, maxAge, k, Settings.Bucket(claims, k)).status == Active
    ensures Settings.Bucket(claims + extra, k) != []
    ensures var r := s.Resolve(now, maxAge, k, Settings.Bucket(claims, k));
            r.selected.Some? &&
            s.Resolve(now, maxAge, k, Settings.Bucket(claims + extra, k)) ==
            r.(conflicts := r.conflicts + Filter(Disputes(r.selected.value), Settings.Bucket(extra, k)))
  {
    FilterAppend(InGroup(k), claims, extra);
    BucketExact(extra, k);
    ActiveShape(s, now, maxAge, k, Settings.Bucket(claims, k));
    AddedToBucket(s, now, maxAge, k, Settings.Bucket(claims, k), Settings.Bucket(extra, k));
    hide Settings.Resolve, Filter, Settings.Canonical;
  }

  lemma {:induction false} NoneCanonical(s: Settings, xs: seq<Claim>)
    requires forall c :: c in xs ==> !s.Canonical(c)
    ensures Filter(FromCanonical(s), xs) == []
  {
    if xs != [] {
      assert xs[0] in xs;
      NoneCanonical(s, xs[1..]);
    }
  }

  lemma ActiveShape(s: Settings, now: real, maxAge: int, k: Key, bucket: seq<Claim>)
    requires MultiValued(bucket) && s.Resolve(now, maxAge, k, bucket).status == Active
    ensures var r := s.Resolve(now, maxAge, k, bucket);
            r.selected.Some? &&
            r == Resolution(k.0, k.1, Active, r.selected, Filter(Disputes(r.selected.value), bucket),
                            "verified-canonical-source-resolves-secondary-disagreement")
  {
    MultiValuedCounts(bucket);
    hide Filter, FirstMax, ValuesOf;
  }

  // ----- Time

  /** As time passes a group with one value can become stale, once; it changes in no other way. */
  lemma SingleValuedOnlyStales(s: Settings, now: real, later: real, maxAge: int, k: Key, bucket: seq<Claim>)
    requires bucket != [] && !MultiValued(bucket) && now <= later
    ensures var r, q := s.Resolve(now, maxAge, k, bucket), s.Resolve(later, maxAge, k, bucket);
            q.status == Stale || (q == r && r.status != Stale)
  {
    MultiValuedCounts(bucket);
    FreshnessFadesFor(now, later, maxAge, FirstMax(s.SinglePriority(), bucket));
    hide Fresh, FirstMax, ValuesOf;
  }

  /** Claims only age. */
  lemma FreshnessFadesFor(now: real, later: real, maxAge: int, c: Claim)
    requires now <= later
    ensures Fresh(later, maxAge, c) ==> Fresh(now, maxAge, c)
  {
  }

  /**
   * As time passes an active group with several values stays active with the same value, or becomes a
   * conflict when all its decisive claims have aged.
   */
  lemma MultiValuedNeverSwitches(s: Settings, now: real, later: real, maxAge: int, k: Key, bucket: seq<Claim>)
    requires MultiValued(bucket) && now <= later
    requires s.Resolve(now, maxAge, k, bucket).status == Active
    ensures var r, q := s.Resolve(now, maxAge, k, bucket), s.Resolve(later, maxAge, k, bucket);
            && (q.status == Active ==> q.selected.value.value == r.selected.value.value)
            && (q.status != Active <==> forall c :: c in bucket ==> !s.Decisive(later, maxAge)(c))
  {
    MultiValuedExact(s, now, maxAge, k, bucket);
    MultiValuedExact(s, later, maxAge, k, bucket);
    forall c ensures s.Decisive(later, maxAge)(c) ==> s.Decisive(now, maxAge)(c) {
      FreshnessFadesFor(now, later, maxAge, c);
    }
    hide Settings.Resolve, Settings.Decisive;
    var r := s.Resolve(now, maxAge, k, bucket);
    if c :| c in bucket && s.Decisive(later, maxAge)(c) {
      assert Settled(s, later, maxAge, bucket, r.selected.value.value);
    }
  }

  /**
   * A conflict between canonical sources is not final: it resolves itself exactly when ageing leaves
   * decisive claims that carry one value.
   */
  lemma ConflictResolvesExactly(s: Settings, now: real, later: real, maxAge: int, k: Key, bucket: seq<Claim>)
    requires MultiValued(bucket) && now <= later
    requires s.Resolve(now, maxAge, k, bucket).status == Conflict
    ensures s.Resolve(later, maxAge, k, bucket).status == Active <==>
            exists v :: Settled(s, later, maxAge, bucket, v)
              && exists c :: c in bucket && s.Decisive(now, maxAge)(c) && c.value != v && !Fresh(later, maxAge, c)
  {
    MultiValuedExact(s, now, maxAge, k, bucket);
    MultiValuedExact(s, later, maxAge, k, bucket);
    forall c ensures s.Decisive(later, maxAge)(c) ==> s.Decisive(now, maxAge)(c) {
      FreshnessFadesFor(now, later, maxAge, c);
    }
    hide Settings.Resolve;
    if v :| Settled(s, later, maxAge, bucket, v) {
      assert !Settled(s, now, maxAge, bucket, v);
      var c :| c in bucket && s.Decisive(now, maxAge)(c) && c.value != v;
      assert !s.Decisive(later, maxAge)(c);
    }
  }

  function DatedClaim(id: string, value: string, observed: real): Claim {
    Claim(id, "twin", "status", value, "github", observed, true, "canonical", Some("sha"), None)
  }

  /** Two verified canonical claims that disagree: a conflict today, settled for the newer one 20 days later. */
  lemma ConflictSettledByAgeing()
    ensures var s := Settings.Make(["github"], None);
            var older, newer := DatedClaim("a", "PASS", 0.0), DatedClaim("b", "PENDING", 1728000.0);
            var k := ("twin", "status");
            && s.Resolve(1728000.0, 30, k, [older, newer]).status == Conflict
            && s.Resolve(3456000.0, 30, k, [older, newer]).status == Active
  {
    var s := Settings.Make(["github"], None);
    var older, newer := DatedClaim("a", "PASS", 0.0), DatedClaim("b", "PENDING", 1728000.0);
    var k, both := ("twin", "status"), [older, newer];
    assert s.canonicalSources == ["github"];
    assert older in both && newer in both && older.value[1] == 'A' && newer.value[1] == 'E';
    hide Settings.Resolve, Settings.Make;
    assert s.Decisive(1728000.0, 30)(older) && s.Decisive(1728000.0, 30)(newer);
    assert !s.Decisive(3456000.0, 30)(older) && s.Decisive(3456000.0, 30)(newer);
    hide Settings.Decisive, DatedClaim;
    MultiValuedExact(s, 1728000.0, 30, k, both);
    MultiValuedExact(s, 3456000.0, 30, k, both);
    assert Settled(s, 3456000.0, 30, both, newer.value);
  }

  /** Two fresh, verified canonical claims that disagree without a conflict: the one without evidence gives way. */
  lemma UnevidencedSourceGivesWay()
    ensures var s := Settings.Make(["github"], None);
            var proved, bare := DatedClaim("a", "PASS", 0.0), DatedClaim("b", "PENDING", 0.0).(evidenceRef := None);
            && s.Canonical(proved) && s.Canonical(bare) && proved.verified && bare.verified
            && Fresh(0.0, 30, proved) && Fresh(0.0, 30, bare) && proved.value != bare.value
            && s.Resolve(0.0, 30, ("twin", "status"), [proved, bare]).status == Active
  {
    var s := Settings.Make(["github"], None);
    var proved, bare := DatedClaim("a", "PASS", 0.0), DatedClaim("b", "PENDING", 0.0).(evidenceRef := None);
    hide Settings.Resolve;
    assert s.canonicalSources == ["github"] && s.canonicalSources[0] == "github";
    hide Settings.Make;
    assert proved.value[1] == 'A' && bare.value[1] == 'E';
    assert s.Decisive(0.0, 30)(proved) && !s.Decisive(0.0, 30)(bare);
    OneDecisive(s, 0.0, 30, ("twin", "status"), proved, bare);
  }

  lemma OneDecisive(s: Settings, now: real, maxAge: int, k: Key, a: Claim, b: Claim)
    requires s.Decisive(now, maxAge)(a) && !s.Decisive(now, maxAge)(b) && a.value != b.value
    ensures s.Resolve(now, maxAge, k, [a, b]).status == Active
  {
    hide Settings.Resolve, Settings.Decisive;
    assert [a, b][0] == a && [a, b][1] == b;
    MultiValuedExact(s, now, maxAge, k, [a, b]);
    assert Settled(s, now, maxAge, [a, b], a.value);
  }

  /** A group with several values is not stale for holding stale evidence: here a fresh claim settles it. */
  lemma StaleEvidenceNotStale()
    ensures var s := Settings.Make(["github"], None);
            var older, newer := DatedClaim("a", "PASS", 0.0), DatedClaim("b", "PENDING", 1728000.0);
            && !Fresh(3456000.0, 30, older) && Fresh(3456000.0, 30, newer)
            && s.Resolve(3456000.0, 30, ("twin", "status"), [older, newer]).status == Active
  {
    ConflictSettledByAgeing();
    hide Settings.Resolve, Settings.Make;
  }

  /** A group is stale for its stale top-ranked claim although it holds fresh, verified, evidenced evidence. */
  lemma StaleDespiteFreshEvidence()
    ensures var s := Settings.Make(["github"], None);
            var older := DatedClaim("a", "PASS", 0.0);
            var newer := DatedClaim("b", "PASS", 3456000.0).(authority := "secondary");
            && Fresh(3456000.0, 30, newer) && newer.verified && Evidenced(newer)
            && s.Resolve(3456000.0, 30, ("twin", "status"), [older, newer]).status == Stale
  {
    var s := Settings.Make(["github"], None);
    var older := DatedClaim("a", "PASS", 0.0);
    var newer := DatedClaim("b", "PASS", 3456000.0).(authority := "secondary");
    var both := [older, newer];
    assert s.Rank("canonical") == 3 && s.Rank("secondary") == 1;
    hide Settings.Resolve, Settings.Make, Settings.Rank;
    assert both[0] == older && both[1] == newer;
    assert IsFirstMax(s.SinglePriority(), both, older);
    assert !MultiValued(both);
    StaleByMax(s, 3456000.0, 30, ("twin", "status"), both, older);
  }

  /** Two claims of one value that tie in rank and time, one without evidence: the first one decides. */
  lemma SingleValuedOrderCanMatter(s: Settings, k: Key)
    ensures var proved := DatedClaim("a", "PASS", 0.0);
            var bare := DatedClaim("b", "PASS", 0.0).(evidenceRef := None);
            && s.Resolve(0.0, 30, k, [proved, bare]).status == Active
            && s.Resolve(0.0, 30, k, [bare, proved]).status == Unverified
  {
    var proved := DatedClaim("a", "PASS", 0.0);
    var bare := DatedClaim("b", "PASS", 0.0).(evidenceRef := None);
    hide Settings.Resolve;
    assert proved.verified && proved.value == bare.value;
    assert Fresh(0.0, 30, proved) && Fresh(0.0, 30, bare);
    assert Evidenced(proved) && !Evidenced(bare) && s.SinglePriority()(proved) == s.SinglePriority()(bare);
    hide DatedClaim, Fresh, Evidenced, Settings.SinglePriority;
    TiedPairFlips(s, 0.0, 30, k, proved, bare);
  }

  lemma TiedPairFlips(s: Settings, now: real, maxAge: int, k: Key, proved: Claim, bare: Claim)
    requires proved.value == bare.value && s.SinglePriority()(proved) == s.SinglePriority()(bare)
    requires proved.verified && Fresh(now, maxAge, proved) && Evidenced(proved)
    requires Fresh(now, maxAge, bare) && !Evidenced(bare)
    ensures s.Resolve(now, maxAge, k, [proved, bare]).status == Active
    ensures s.Resolve(now, maxAge, k, [bare, proved]).status == Unverified
  {
    FirstOfTwo(s, proved, bare);
    FirstOfTwo(s, bare, proved);
    hide Settings.Resolve, Settings.SinglePriority, IsFirstMax, MultiValued, Fresh, Evidenced;
    SingleValuedByMax(s, now, maxAge, k, [proved, bare], proved);
    SingleValuedByMax(s, now, maxAge, k, [bare, proved], bare);
  }

  lemma FirstOfTwo(s: Settings, a: Claim, b: Claim)
    requires a.value == b.value && s.SinglePriority()(a) == s.SinglePriority()(b)
    ensures IsFirstMax(s.SinglePriority(), [a, b], a) && !MultiValued([a, b])
  {
    assert [a, b][0] == a;
  }

  // ----- Anomalies

  /** An anomaly is reported exactly when some claim of the input has it. */
  lemma {:induction false} AnomaliesExact(s: Settings, now: real, maxAge: int, claims: seq<Claim>, a: Anomaly)
    ensures a in s.Anomalies(now, maxAge, claims) <==> exists c :: c in claims && HasAnomaly(s, now, maxAge, c, a)
  {
    if claims != [] {
      var front, last := claims[..|claims| - 1], claims[|claims| - 1];
      AnomaliesExact(s, now, maxAge, front, a);
      assert claims == front + [last];
      assert forall c :: c in claims <==> c in front || c == last;
      OneClaimsAnomalies(s, now, maxAge, last, a);
      hide Settings.AnomaliesOf, HasAnomaly;
    }
  }

  /** Anomalies come in the order of the claims: those of a longer input begin with those of a shorter one. */
  lemma {:induction false} AnomaliesInOrder(s: Settings, now: real, maxAge: int, xs: seq<Claim>, ys: seq<Claim>)
    ensures s.Anomalies(now, maxAge, xs + ys) == s.Anomalies(now, maxAge, xs) + s.Anomalies(now, maxAge, ys)
    decreases |ys|
  {
    hide Settings.AnomaliesOf;
    if ys == [] {
      assert xs + ys == xs;
    } else {
      var n := |ys| - 1;
      assert (xs + ys)[..|xs| + n] == xs + ys[..n] && (xs + ys)[|xs| + n] == ys[n];
      AnomaliesInOrder(s, now, maxAge, xs, ys[..n]);
    }
  }

  /** Those of one claim: its authority, then its evidence, then its age, each at most once. */
  lemma AnomaliesOfOne(s: Settings, now: real, maxAge: int, c: Claim, i: nat, j: nat)
    requires i < j < |s.Anomalies(now, maxAge, [c])|
    ensures var found := s.Anomalies(now, maxAge, [c]);
            && !found[i].StaleClaim? && !found[j].UnknownAuthority?
            && (found[i].VerifiedWithoutEvidence? ==> found[j].StaleClaim?)
            && (found[j].VerifiedWithoutEvidence? ==> found[i].UnknownAuthority?)
  {
    hide Fresh, Evidenced, AgeDays;
    assert [c][..0] == [];
  }

  lemma OneClaimsAnomalies(s: Settings, now: real, maxAge: int, c: Claim, a: Anomaly)
    ensures a in s.AnomaliesOf(now, maxAge, c) <==> HasAnomaly(s, now, maxAge, c, a)
  {
    assert Evidenced(c) <==> c.evidenceRef !in {None, Some("")};
    assert AgeDays(now, c) == if now < c.observed then 0.0 else (now - c.observed) / 86400.0;
    hide AgeDays, Evidenced;
  }

  ghost predicate HasAnomaly(s: Settings, now: real, maxAge: int, c: Claim, a: Anomaly) {
    match a
    case UnknownAuthority(id, authority) =>
      id == c.claimId && authority == c.authority && c.authority !in s.authorityRank
    case VerifiedWithoutEvidence(id) => id == c.claimId && c.verified && c.evidenceRef in {None, Some("")}
    case StaleClaim(id, age) =>
      id == c.claimId && age > maxAge as real
      && age == (if now < c.observed then 0.0 else (now - c.observed) / 86400.0)
  }

  // ----- The gate

  /** The report passes the gate exactly when every resolution is active, that is when nothing failed. */
  lemma {:induction false} GateExact(report: Report)
    ensures PassCount(report.resolutions) + FailCount(report.resolutions) == |report.resolutions|
    ensures PassCount(report.resolutions) == |Filter((r: Resolution) => r.status == Active, report.resolutions)|
    ensures AssertFailClosed(report).Ok? <==> FailCount(report.resolutions) == 0
    ensures AssertFailClosed(report).Ok? <==> forall r :: r in report.resolutions ==> r.status == Active
    decreases |report.resolutions|
  {
    var rs := report.resolutions;
    FilterMembers(NotActive(), rs);
    if rs != [] {
      GateExact(report.(resolutions := rs[1..]));
      assert rs == [rs[0]] + rs[1..];
    }
  }
}
