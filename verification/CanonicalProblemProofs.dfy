/** The round trip of the problem state, what validation means, and what every chain of revisions keeps. */
module CanonicalProblemProofs {
  import opened Prelude
  import opened Json
  import opened JsonRoundTrip
  import opened Hashing
  import opened Markers
  import opened CanonicalProblem

  // ----- What validation means

  /** A nonempty string. */
  ghost predicate IsText(v: Value) {
    exists t :: t != "" && v == Str(t)
  }

  ghost predicate EvidenceStatus(v: Value) {
    v in {Str("verified"), Str("stale"), Str("contradictory"), Str("unavailable")}
  }

  ghost predicate ProblemStatus(status: string) {
    status in {"DISCOVERY", "EVIDENCE", "RECONCILIATION", "SOLVING", "VERIFYING", "VERIFIED",
               "VERIFIED_PENDING_EXTERNAL_GATE", "FAIL_CLOSED"}
  }

  ghost predicate ValidEvidence(e: Evidence) {
    && IsText(e.source) && IsText(e.kind) && IsText(e.locator) && IsText(e.observedAt) && IsText(e.digest)
    && EvidenceStatus(e.status)
    && exists rest :: |rest| == 64 && e.digest == Str("sha256:" + rest)
  }

  lemma TextExact(v: Value)
    ensures Text(v) <==> IsText(v)
  {
    if v.Str? {
      assert v == Str(v.s);
    }
  }

  lemma OneEvidenceExact(e: Evidence)
    ensures ValidateEvidence(e).Ok? <==> ValidEvidence(e)
  {
    TextExact(e.source);
    TextExact(e.kind);
    TextExact(e.locator);
    TextExact(e.observedAt);
    TextExact(e.digest);
    assert Text(e.digest) ==> e.digest.Str?;
    hide Text, IsText;
    StatusExact(e.status);
    DigestShape(e.digest);
    hide EvidenceStatus;
    assert EvidenceStatus(e.status) ==> e.status.Str?;
  }

  lemma StatusExact(v: Value)
    ensures EvidenceStatus(v) ==> v.Str?
    ensures v.Str? && v.s in EVIDENCE_STATUS_VALUES <==> EvidenceStatus(v)
  {
  }

  lemma DigestShape(v: Value)
    ensures v.Str? && "sha256:" <= v.s && |v.s| == 71 <==> exists rest :: |rest| == 64 && v == Str("sha256:" + rest)
  {
    if v.Str? && "sha256:" <= v.s && |v.s| == 71 {
      assert v.s == "sha256:" + v.s[7..];
    }
  }

  ghost predicate SoundFields(s: ProblemState) {
    && ProblemStatus(s.status) && s.revision >= 0
    && s.problemId != "" && s.title != "" && s.objective != "" && s.createdAt != "" && s.updatedAt != ""
    && (forall e :: e in s.evidence ==> ValidEvidence(e))
    && (forall d :: d in s.decisions ==> IsText(d))
    && AllMaps(s.artifacts) && (forall a :: a in s.artifacts ==> TextMapping(a))
  }

  /** A dict whose values are all nonempty strings. */
  ghost predicate TextMapping(v: Value) {
    v.Map? && forall k :: k in v.m ==> IsText(v.m[k])
  }

  /** Every promise of `validate` at once; the last one looks at every dict at every depth. */
  ghost predicate Sound(s: ProblemState) {
    && SoundFields(s)
    && (s.status == "VERIFIED" ==> forall e :: e in s.evidence ==> e.status == Str("verified"))
    && (forall path :: !MarkedAt(ForbiddenKey, ToDict(s), path))
  }

  /** A list of evidence passes exactly when all of it is valid; of a digest, prefix and length are looked at. */
  lemma {:induction false} EvidenceExact(es: seq<Evidence>)
    ensures ValidateAllEvidence(es).Ok? <==> forall e :: e in es ==> ValidEvidence(e)
  {
    hide ValidateEvidence, ValidEvidence;
    if es != [] {
      OneEvidenceExact(es[0]);
      EvidenceExact(es[1..]);
      assert es[0] in es && forall e :: e in es <==> e == es[0] || e in es[1..];
    }
  }

  /**
   * The error message asks for 64 hexadecimal digits: here is evidence that passes although no
   * character of its digest after the prefix is one.
   */
  lemma DigestNeedNotBeHex()
    ensures var text := Str("text");
            var digest := "sha256:" + seq(64, i => 'z');
            && ValidateEvidence(Evidence(text, text, text, text, Str(digest), Str("verified"))).Ok?
            && forall i :: 7 <= i < |digest| ==> HexValue(digest[i]).None?
  {
  }

  lemma {:induction false} ArtifactsExact(items: seq<Value>)
    ensures ValidateArtifacts(items).Ok? <==> forall a :: a in items ==> TextMapping(a)
  {
    hide TextPairs, TextMapping;
    if items != [] {
      OneArtifactExact(items[0]);
      ArtifactsExact(items[1..]);
      assert items[0] in items && forall a :: a in items <==> a == items[0] || a in items[1..];
    }
  }

  lemma MappingsAreMaps(items: seq<Value>)
    ensures (forall a :: a in items ==> TextMapping(a)) ==> AllMaps(items)
  {
    hide IsText;
    if forall a :: a in items ==> TextMapping(a) {
      forall i | 0 <= i < |items| ensures items[i].Map? { assert items[i] in items; }
    }
  }

  lemma OneArtifactExact(v: Value)
    ensures v.Map? && TextPairs(v.m) <==> TextMapping(v)
  {
    forall x: Value ensures Text(x) <==> IsText(x) { TextExact(x); }
    hide Text, IsText;
  }

  lemma FieldsExact(s: ProblemState)
    ensures ValidateFields(s).Ok? <==> SoundFields(s)
  {
    hide ValidateAllEvidence, ValidateArtifacts, ValidEvidence, TextMapping, TextPairs;
    forall x: Value ensures Text(x) <==> IsText(x) { TextExact(x); }
    hide Text, IsText;
    EvidenceExact(s.evidence);
    ArtifactsExact(s.artifacts);
    MappingsAreMaps(s.artifacts);
    assert (forall i :: 0 <= i < |s.decisions| ==> Text(s.decisions[i])) <==> forall d :: d in s.decisions ==> Text(d);
  }

  /** `validate` passes exactly the sound states. */
  lemma ValidateExact(s: ProblemState)
    ensures Validate(s).Ok? <==> Sound(s)
  {
    hide ValidateFields, ToDict, ContainsKey, MarkedAt, SoundFields;
    FieldsExact(s);
    if ValidateFields(s).Ok? {
      ScanIsExact(ForbiddenKey, ToDict(s));
    }
    assert Unverified(s.evidence) <==> exists e :: e in s.evidence && e.status != Str("verified");
  }

  // ----- Round trip

  lemma FieldsAreDistinct(s: ProblemState)
    ensures DistinctKeys(ProblemFields(s))
  {
  }

  lemma EvidenceReadsBack(e: Evidence)
    ensures ReadEvidence(Obj(EvidenceFields(e))) == Ok(e)
  {
    var fs := EvidenceFields(e);
    assert DistinctKeys(fs);
    FieldLookup(fs, |fs|, 0);
    FieldLookup(fs, |fs|, 1);
    FieldLookup(fs, |fs|, 2);
    FieldLookup(fs, |fs|, 3);
    FieldLookup(fs, |fs|, 4);
    FieldLookup(fs, |fs|, 5);
    hide Json.Members, DistinctKeys;
  }

  lemma {:induction false} AllEvidenceReadsBack(es: seq<Evidence>)
    ensures ReadAllEvidence(EvidenceValues(es)) == Ok(es)
  {
    if es != [] {
      EvidenceReadsBack(es[0]);
      AllEvidenceReadsBack(es[1..]);
      hide ReadEvidence, Obj, EvidenceFields;
      assert EvidenceValues(es)[0] == Obj(EvidenceFields(es[0]));
      assert EvidenceValues(es)[1..] == EvidenceValues(es[1..]);
      assert es == [es[0]] + es[1..];
    }
  }

  lemma HeadFieldsReadBack(s: ProblemState, data: map<string, Value>)
    requires data == Obj(ProblemFields(s)).m
    ensures GetOr(data, "schema_version", Null) == Str(SCHEMA_VERSION)
    ensures Lookup(data, "problem_id") == Ok(Str(s.problemId)) && Lookup(data, "title") == Ok(Str(s.title))
    ensures Lookup(data, "objective") == Ok(Str(s.objective)) && Lookup(data, "status") == Ok(Str(s.status))
    ensures Lookup(data, "revision") == Ok(Num(s.revision))
    ensures Lookup(data, "created_at") == Ok(Str(s.createdAt)) && Lookup(data, "updated_at") == Ok(Str(s.updatedAt))
  {
    FieldsAreDistinct(s);
    hide Json.Members, DistinctKeys;
    var fs := ProblemFields(s);
    FieldLookup(fs, |fs|, 0);
    FieldLookup(fs, |fs|, 1);
    FieldLookup(fs, |fs|, 2);
    FieldLookup(fs, |fs|, 3);
    FieldLookup(fs, |fs|, 4);
    FieldLookup(fs, |fs|, 5);
    FieldLookup(fs, |fs|, 6);
    FieldLookup(fs, |fs|, 7);
  }

  lemma TailFieldsReadBack(s: ProblemState, data: map<string, Value>)
    requires data == Obj(ProblemFields(s)).m
    ensures GetOr(data, "evidence", List([])) == List(EvidenceValues(s.evidence))
    ensures GetOr(data, "decisions", List([])) == List(s.decisions)
    ensures GetOr(data, "artifacts", List([])) == List(s.artifacts)
    ensures GetOr(data, "verification", Map(map[])) == Map(s.verification)
    ensures GetOr(data, "next_actions", List([])) == List(s.nextActions)
  {
    FieldsAreDistinct(s);
    hide Json.Members, DistinctKeys;
    var fs := ProblemFields(s);
    FieldLookup(fs, |fs|, 8);
    FieldLookup(fs, |fs|, 9);
    FieldLookup(fs, |fs|, 10);
    FieldLookup(fs, |fs|, 11);
    FieldLookup(fs, |fs|, 12);
  }

  /** `from_dict` rebuilds, field by field, the state a record was made from. */
  lemma StateReadsBack(py: Coercions, s: ProblemState)
    ensures BuildState(py, Obj(ProblemFields(s)).m) == Ok(s)
  {
    var data := Obj(ProblemFields(s)).m;
    HeadFieldsReadBack(s, data);
    TailFieldsReadBack(s, data);
    AllEvidenceReadsBack(s.evidence);
    hide Json.Members, ProblemFields, GetOr, Lookup, ReadAllEvidence, EvidenceValues;
  }

  /**
   * Round trip: a valid state written as JSON, with any white space around it such as the newline
   * that `save_state` appends, reads back as the same state with the same digest.
   */
  lemma ProblemRoundTrip(h: Hasher, py: Coercions, s: ProblemState, before: string, after: string)
    requires Validate(s).Ok? && AllSpace(before) && AllSpace(after)
    ensures FromJson(py, before + ToJson(s) + after) == Ok(s)
    ensures ProblemDigest(h, s) == Ok("sha256:" + h(ToJson(s)))
  {
    RoundTrip(ToDict(s), before, after);
    StateReadsBack(py, s);
    hide Validate, BuildState, Encode, ReadText, Json.Members, ProblemFields;
  }

  /** Whatever `from_json` accepts is sound, and written again it is read as the same state. */
  lemma AcceptedIsSound(py: Coercions, payload: string)
    ensures var r := FromJson(py, payload);
            r.Ok? ==> Sound(r.value) && FromJson(py, ToJson(r.value)) == r
  {
    hide Validate, BuildState, Encode, ReadText, ToDict;
    var r := FromJson(py, payload);
    if r.Ok? {
      ValidateExact(r.value);
      ProblemRoundTrip(s => s, py, r.value, "", "");
      assert "" + ToJson(r.value) + "" == ToJson(r.value);
    }
  }

  /** States with the same text are equal. */
  lemma TextBindsProblem(s: ProblemState, t: ProblemState)
    requires AllMaps(s.artifacts) && AllMaps(t.artifacts) && ToJson(s) == ToJson(t)
    ensures s == t
  {
    var py := Coercions(_ => "", _ => Err(WrongType), _ => Err(WrongType), _ => Err(WrongType));
    EncodeInjective(ToDict(s), ToDict(t));
    StateReadsBack(py, s);
    StateReadsBack(py, t);
    hide BuildState, Encode, Json.Members, ProblemFields;
    assert ToDict(s).m == Obj(ProblemFields(s)).m && ToDict(t).m == Obj(ProblemFields(t)).m;
  }

  lemma DigestText(h: Hasher, s: ProblemState)
    ensures ProblemDigest(h, s).Ok? <==> Validate(s).Ok?
    ensures Validate(s).Ok? ==> ProblemDigest(h, s).value == "sha256:" + h(ToJson(s))
  {
    hide Validate, Encode, ToDict;
  }

  /** The digest binds the state: equal digests mean equal states, or a collision. */
  lemma DigestBindsProblem(h: Hasher, s: ProblemState, t: ProblemState)
    requires Validate(s).Ok? && Validate(t).Ok? && ProblemDigest(h, s) == ProblemDigest(h, t)
    ensures s == t || Collision(h, {ToDict(s)}, {ToDict(t)})
  {
    DigestText(h, s);
    DigestText(h, t);
    hide Validate, ToDict, Encode, ProblemDigest;
    var a, b := h(ToJson(s)), h(ToJson(t));
    assert ("sha256:" + a)[7..] == a && ("sha256:" + b)[7..] == b;
    if ToJson(s) == ToJson(t) {
      TextBindsProblem(s, t);
    } else {
      assert Collides(h, ToDict(s), ToDict(t));
    }
  }

  // ----- Chains of revisions

  ghost predicate SameIdentity(s: ProblemState, t: ProblemState) {
    && s.problemId == t.problemId && s.title == t.title && s.objective == t.objective && s.createdAt == t.createdAt
  }

  /**
   * Along a chain of `advance` calls that runs through, after `n` calls the revision has risen by
   * exactly `n`, the identity and the creation time are untouched, and the state is sound (the first
   * state too, once it has been advanced).
   */
  lemma {:induction false} AdvanceChain(s: ProblemState, requests: seq<Request>, n: nat)
    requires AdvanceAll(s, requests).Ok? && n <= |requests|
    ensures var r := AdvanceAll(s, requests[..n]);
            && r.Ok? && r.value.revision == s.revision + n && SameIdentity(s, r.value)
            && (requests != [] ==> Sound(r.value))
    decreases |requests|
  {
    hide Advance, Sound;
    if requests == [] {
      assert requests[..n] == [];
    } else {
      var front, last := requests[..|requests| - 1], requests[|requests| - 1];
      AdvanceStep(AdvanceAll(s, front).value, last);
      if n == |requests| {
        assert requests[..n] == requests && front[..|front|] == front;
        AdvanceChain(s, front, |front|);
      } else {
        assert front[..n] == requests[..n];
        AdvanceChain(s, front, n);
        assert front == [] ==> requests[..n] == [];
      }
    }
  }

  /** One call: what it was given replaces the old value, everything else stays. */
  lemma AdvanceStep(s: ProblemState, r: Request)
    requires Advance(s, r).Ok?
    ensures var t := Advance(s, r).value;
            && t.revision == s.revision + 1 && SameIdentity(s, t) && Sound(s) && Sound(t)
            && t.status == r.status && t.updatedAt == r.now
            && Replaced(s.evidence, r.evidence, t.evidence) && Replaced(s.decisions, r.decisions, t.decisions)
            && Replaced(s.artifacts, r.artifacts, t.artifacts)
            && Replaced(s.verification, r.verification, t.verification)
            && Replaced(s.nextActions, r.nextActions, t.nextActions)
  {
    hide Validate, Sound;
    assert Validate(s).Ok? && Validate(Revised(s, r)).Ok? by { hide Revised; }
    ValidateExact(s);
    ValidateExact(Revised(s, r));
  }

  ghost predicate Replaced<T>(before: T, given: Option<T>, after: T) {
    (given == None ==> after == before) && (given != None ==> given == Some(after))
  }
}
