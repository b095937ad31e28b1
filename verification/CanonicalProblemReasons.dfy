/** Which error each refusal of the problem state gives, and what `from_dict` makes of a record. */
module CanonicalProblemReasons {
  import opened Prelude
  import opened Checks
  import opened Json
  import JsonGrammar
  import opened Markers
  import opened CanonicalProblem
  import opened CanonicalProblemProofs

  // ----- validate

  ghost function EvidenceChecks(e: Evidence): seq<Check> {
    [Check(IsText(e.source) && IsText(e.kind) && IsText(e.locator) && IsText(e.observedAt) && IsText(e.digest),
           EvidenceFieldsNotText),
     Check(!e.status.List? && !e.status.Map?, WrongType),
     Check(EvidenceStatus(e.status), InvalidEvidenceStatus),
     Check(exists rest :: |rest| == 64 && e.digest == Str("sha256:" + rest), EvidenceDigestMalformed)]
  }

  ghost function AllEvidenceChecks(es: seq<Evidence>): seq<Check> {
    if es == [] then [] else EvidenceChecks(es[0]) + AllEvidenceChecks(es[1..])
  }

  ghost function ArtifactChecks(a: Value): seq<Check> {
    [Check(a.Map?, ArtifactsNotMappings), Check(TextMapping(a), ArtifactFieldsNotText)]
  }

  ghost function AllArtifactChecks(items: seq<Value>): seq<Check> {
    if items == [] then [] else ArtifactChecks(items[0]) + AllArtifactChecks(items[1..])
  }

  ghost function IdentityChecks(s: ProblemState): seq<Check> {
    [Check(ProblemStatus(s.status), InvalidCanonicalStatus),
     Check("" !in {s.problemId, s.title, s.objective, s.createdAt, s.updatedAt}, IdentityFieldsEmpty),
     Check(s.revision >= 0, RevisionNegative)]
  }

  /** The checks that look at the state as a whole. */
  ghost function WholeChecks(s: ProblemState): seq<Check> {
    [Check(AllMaps(s.artifacts) ==> forall path :: !MarkedAt(ForbiddenKey, ToDict(s), path), ContainsSecretMaterial),
     Check(s.status == "VERIFIED" ==> forall e :: e in s.evidence ==> e.status == Str("verified"),
           VerifiedNeedsVerifiedEvidence)]
  }

  /** Everything `validate` asks for, in order: items of a list one after the other. */
  ghost function ValidateChecks(s: ProblemState): seq<Check> {
    IdentityChecks(s) + AllEvidenceChecks(s.evidence)
    + [Check(forall d :: d in s.decisions ==> IsText(d), DecisionsNotText)]
    + AllArtifactChecks(s.artifacts) + WholeChecks(s)
  }

  lemma EvidenceReasons(e: Evidence)
    ensures DecidedBy(ValidateEvidence(e), EvidenceChecks(e))
  {
    forall v: Value ensures Text(v) <==> IsText(v) { TextExact(v); }
    assert Text(e.digest) ==> e.digest.Str?;
    hide Text, IsText;
    StatusExact(e.status);
    DigestShape(e.digest);
    hide EvidenceStatus;
    var k := EvidenceChecks(e);
    assert [k[0], k[1], k[2], k[3]] == k;
    Decided(ValidateEvidence(e), k);
  }

  lemma {:induction false} AllEvidenceReasons(es: seq<Evidence>)
    ensures DecidedBy(ValidateAllEvidence(es), AllEvidenceChecks(es))
  {
    if es == [] {
      Decided(ValidateAllEvidence(es), []);
    } else {
      EvidenceReasons(es[0]);
      AllEvidenceReasons(es[1..]);
      hide ValidateEvidence, EvidenceChecks, DecidedBy;
      TwoChains(ValidateAllEvidence(es), EvidenceChecks(es[0]), AllEvidenceChecks(es[1..]),
                ValidateEvidence(es[0]), ValidateAllEvidence(es[1..]));
    }
  }

  lemma ArtifactReasons(a: Value) returns (r: Result<()>)
    ensures r == if !a.Map? then Err(ArtifactsNotMappings) else Require(TextPairs(a.m), ArtifactFieldsNotText)
    ensures DecidedBy(r, ArtifactChecks(a))
  {
    r := if !a.Map? then Err(ArtifactsNotMappings) else Require(TextPairs(a.m), ArtifactFieldsNotText);
    OneArtifactExact(a);
    hide TextPairs, TextMapping;
    var k := ArtifactChecks(a);
    assert [k[0], k[1]] == k;
    Decided(r, k);
  }

  lemma {:induction false} AllArtifactReasons(items: seq<Value>)
    ensures DecidedBy(ValidateArtifacts(items), AllArtifactChecks(items))
  {
    if items == [] {
      Decided(ValidateArtifacts(items), []);
    } else {
      var first := ArtifactReasons(items[0]);
      AllArtifactReasons(items[1..]);
      hide ArtifactChecks, DecidedBy, TextPairs;
      TwoChains(ValidateArtifacts(items), ArtifactChecks(items[0]), AllArtifactChecks(items[1..]),
                first, ValidateArtifacts(items[1..]));
    }
  }

  lemma IdentityReasons(s: ProblemState) returns (r: Result<()>)
    ensures r == if s.status !in STATUS_VALUES then Err(InvalidCanonicalStatus)
                 else if !(s.problemId != "" && s.title != "" && s.objective != "" && s.createdAt != ""
                           && s.updatedAt != "") then Err(IdentityFieldsEmpty)
                 else Require(s.revision >= 0, RevisionNegative)
    ensures DecidedBy(r, IdentityChecks(s))
  {
    r := if s.status !in STATUS_VALUES then Err(InvalidCanonicalStatus)
    else if !(s.problemId != "" && s.title != "" && s.objective != "" && s.createdAt != "" && s.updatedAt != "")
    then Err(IdentityFieldsEmpty)
    else Require(s.revision >= 0, RevisionNegative);
    assert s.status in STATUS_VALUES <==> ProblemStatus(s.status);
    hide ProblemStatus;
    var k := IdentityChecks(s);
    assert [k[0], k[1], k[2]] == k;
    Decided(r, k);
  }

  lemma FieldReasons(s: ProblemState)
    ensures DecidedBy(ValidateFields(s),
                      IdentityChecks(s) + AllEvidenceChecks(s.evidence)
                      + [Check(forall d :: d in s.decisions ==> IsText(d), DecisionsNotText)]
                      + AllArtifactChecks(s.artifacts))
  {
    var identity := IdentityReasons(s);
    AllEvidenceReasons(s.evidence);
    AllArtifactReasons(s.artifacts);
    var texts := forall d :: d in s.decisions ==> IsText(d);
    OneCheck(texts, DecisionsNotText);
    FieldParts(s, identity);
    hide ValidateFields, ValidateAllEvidence, ValidateArtifacts, IdentityChecks, AllEvidenceChecks, AllArtifactChecks,
         DecidedBy, IsText;
    var k := [Check(texts, DecisionsNotText)];
    var evidence, decisions := ValidateAllEvidence(s.evidence), Require(texts, DecisionsNotText);
    var two: Result<()> := if identity.Err? then identity else evidence;
    var three: Result<()> := if two.Err? then two else decisions;
    TwoChains(two, IdentityChecks(s), AllEvidenceChecks(s.evidence), identity, evidence);
    TwoChains(three, IdentityChecks(s) + AllEvidenceChecks(s.evidence), k, two, decisions);
    TwoChains(ValidateFields(s), IdentityChecks(s) + AllEvidenceChecks(s.evidence) + k,
              AllArtifactChecks(s.artifacts), three, ValidateArtifacts(s.artifacts));
  }

  /** The checks that need only the fields, part by part. */
  lemma FieldParts(s: ProblemState, identity: Result<()>)
    requires identity == if s.status !in STATUS_VALUES then Err(InvalidCanonicalStatus)
                         else if !(s.problemId != "" && s.title != "" && s.objective != "" && s.createdAt != ""
                                   && s.updatedAt != "") then Err(IdentityFieldsEmpty)
                         else Require(s.revision >= 0, RevisionNegative)
    ensures var evidence := ValidateAllEvidence(s.evidence);
            var decisions := Require(forall d :: d in s.decisions ==> IsText(d), DecisionsNotText);
            ValidateFields(s) == if identity.Err? then identity else if evidence.Err? then evidence
                                 else if decisions.Err? then decisions else ValidateArtifacts(s.artifacts)
  {
    forall v: Value ensures Text(v) <==> IsText(v) { TextExact(v); }
    hide Text, IsText, ValidateAllEvidence, ValidateArtifacts;
    assert (forall i :: 0 <= i < |s.decisions| ==> Text(s.decisions[i]))
      <==> forall d :: d in s.decisions ==> IsText(d);
  }

  /** Every refusal by `validate` says what failed first. */
  lemma ValidateReasons(s: ProblemState)
    ensures DecidedBy(Validate(s), ValidateChecks(s))
  {
    FieldReasons(s);
    var k := WholeChecks(s);
    var first := ValidateFields(s);
    var second: Result<()> := if first.Ok? then Validate(s) else Err(WrongType);
    if first.Ok? {
      ScanIsExact(ForbiddenKey, ToDict(s));
      assert Unverified(s.evidence) <==> exists e :: e in s.evidence && e.status != Str("verified");
      hide ToDict, ContainsKey, MarkedAt, Unverified, ValidateFields;
      assert [k[0], k[1]] == k;
      Decided(second, k);
    }
    hide DecidedBy, IdentityChecks, AllEvidenceChecks, AllArtifactChecks, WholeChecks, ToDict, ContainsKey,
         Unverified, ValidateFields;
    TwoChains(Validate(s),
              IdentityChecks(s) + AllEvidenceChecks(s.evidence)
              + [Check(forall d :: d in s.decisions ==> IsText(d), DecisionsNotText)]
              + AllArtifactChecks(s.artifacts), k, first, second);
  }

  lemma KnownStatus(status: string)
    ensures status in STATUS_VALUES <==> ProblemStatus(status)
  {
  }

  /** A refused `advance` says what failed first: the old state, the new status, or the new state. */
  lemma AdvanceReasons(s: ProblemState, r: Request)
    ensures DecidedBy(Advance(s, r),
                      ValidateChecks(s) + [Check(ProblemStatus(r.status), InvalidCanonicalStatus)]
                      + ValidateChecks(Revised(s, r)))
  {
    ValidateReasons(s);
    ValidateReasons(Revised(s, r));
    hide Validate, ValidateChecks, ProblemStatus, Revised, DecidedBy;
    KnownStatus(r.status);
    OneCheck(ProblemStatus(r.status), InvalidCanonicalStatus);
    var k := [Check(ProblemStatus(r.status), InvalidCanonicalStatus)];
    var status := Require(r.status in STATUS_VALUES, InvalidCanonicalStatus);
    var two: Result<()> := if Validate(s).Err? then Validate(s) else status;
    TwoChains(two, ValidateChecks(s), k, Validate(s), status);
    TwoChains(Advance(s, r), ValidateChecks(s) + k, ValidateChecks(Revised(s, r)), two, Validate(Revised(s, r)));
  }

  // ----- from_dict and from_json

  /** A text that is not JSON, JSON that is not an object, and else whatever `from_dict` says. */
  lemma FromJsonReasons(py: Coercions, payload: string)
    ensures var r := FromJson(py, payload);
            && ((forall v :: !JsonGrammar.IsTextOf(payload, v)) ==> r == Err(InvalidCanonicalJSON))
            && (forall v :: JsonGrammar.IsTextOf(payload, v) ==>
                  r == if v.Map? then FromDict(py, v.m) else Err(RootNotObject))
  {
    forall v ensures ReadText(payload) == Some(v) <==> JsonGrammar.IsTextOf(payload, v) {
      JsonGrammar.ReadsExactly(payload, v);
    }
    hide ReadText, FromDict, JsonGrammar.IsTextOf;
    if ReadText(payload).Some? {
      assert JsonGrammar.IsTextOf(payload, ReadText(payload).value);
    }
  }

  /** A valid state reads back from every JSON text of its dict, however it is spaced, spelled and ordered. */
  lemma AnyTextReadsBack(py: Coercions, s: ProblemState, payload: string)
    requires Validate(s).Ok? && JsonGrammar.IsTextOf(payload, ToDict(s))
    ensures FromJson(py, payload) == Ok(s)
  {
    FromJsonReasons(py, payload);
    StateReadsBack(py, s);
    hide Validate, BuildState, JsonGrammar.IsTextOf, FromJson, Json.Members, ProblemFields;
  }

  /** What one item of the evidence list becomes: five members must be there, the status defaults to verified. */
  lemma EvidenceItem(item: Value)
    ensures var r := ReadEvidence(item);
            && (!item.Map? ==> r == Err(WrongType))
            && (item.Map? ==>
                  var m := item.m;
                  && (r.Ok? <==> {"source", "kind", "locator", "observed_at", "digest"} <= m.Keys)
                  && (r.Ok? ==> r.value == Evidence(m["source"], m["kind"], m["locator"], m["observed_at"], m["digest"],
                                                    if "status" in m then m["status"] else Str("verified")))
                  && (r.Err? ==> r.error == MissingKey(if "source" !in m then "source" else if "kind" !in m then "kind"
                                                       else if "locator" !in m then "locator"
                                                       else if "observed_at" !in m then "observed_at" else "digest")))
  {
  }

  /** The members `from_dict` insists on, in the order in which it asks for them. */
  ghost function RecordChecks(py: Coercions, data: map<string, Value>): seq<Check> {
    [Check("problem_id" in data, MissingKey("problem_id")),
     Check("title" in data, MissingKey("title")),
     Check("objective" in data, MissingKey("objective")),
     Check("status" in data, MissingKey("status")),
     Check("revision" in data, MissingKey("revision")),
     CoercionCheck("revision" in data, if "revision" in data then py.Number(data["revision"]) else Ok(0)),
     Check("created_at" in data, MissingKey("created_at")),
     Check("updated_at" in data, MissingKey("updated_at")),
     CoercionCheck("decisions" in data, if "decisions" in data then py.Items(data["decisions"]) else Ok([])),
     CoercionCheck("artifacts" in data, if "artifacts" in data then py.Items(data["artifacts"]) else Ok([])),
     CoercionCheck("verification" in data,
                   if "verification" in data then py.Members(data["verification"]) else Ok(map[])),
     CoercionCheck("next_actions" in data, if "next_actions" in data then py.Items(data["next_actions"]) else Ok([]))]
  }

  /** A member that is there must be of a kind Python can convert. */
  ghost function CoercionCheck<T>(present: bool, r: Result<T>): Check {
    Check(present ==> r.Ok?, if r.Err? then r.error else WrongType)
  }

  lemma {:induction false} EvidenceItems(items: seq<Value>)
    ensures var r := ReadAllEvidence(items);
            && (r.Ok? ==>
                  |r.value| == |items| && forall i :: 0 <= i < |items| ==> ReadEvidence(items[i]) == Ok(r.value[i]))
            && (r.Err? ==> exists i :: 0 <= i < |items| && ReadEvidence(items[i]) == Err(r.error)
                             && forall j :: 0 <= j < i ==> ReadEvidence(items[j]).Ok?)
  {
    hide ReadEvidence;
    if items != [] {
      EvidenceItems(items[1..]);
      var tail := ReadAllEvidence(items[1..]);
      if ReadEvidence(items[0]).Ok? && tail.Err? {
        var i :| 0 <= i < |items[1..]| && ReadEvidence(items[1..][i]) == Err(tail.error)
          && forall j :: 0 <= j < i ==> ReadEvidence(items[1..][j]).Ok?;
        assert ReadEvidence(items[i + 1]) == Err(tail.error);
        forall j | 0 <= j < i + 1 ensures ReadEvidence(items[j]).Ok? {
          if j > 0 { assert items[j] == items[1..][j - 1]; }
        }
      }
    }
  }

  /**
   * The state that `from_dict` builds before it validates: each member under its own name, and the
   * defaults of those that may be absent.
   */
  lemma BuiltState(py: Coercions, data: map<string, Value>)
    requires BuildState(py, data).Ok?
    ensures {"schema_version", "problem_id", "title", "objective", "status", "revision", "created_at", "updated_at"}
            <= data.Keys
    ensures data["schema_version"] == Str("1.0")
    ensures var s := BuildState(py, data).value;
            && s.problemId == py.Text(data["problem_id"]) && s.title == py.Text(data["title"])
            && s.objective == py.Text(data["objective"]) && s.status == py.Text(data["status"])
            && Ok(s.revision) == py.Number(data["revision"])
            && s.createdAt == py.Text(data["created_at"]) && s.updatedAt == py.Text(data["updated_at"])
            && (if "evidence" in data
                then data["evidence"].List? && ReadAllEvidence(data["evidence"].items) == Ok(s.evidence)
                else s.evidence == [])
            && (if "decisions" in data then py.Items(data["decisions"]) == Ok(s.decisions) else s.decisions == [])
            && (if "artifacts" in data then py.Items(data["artifacts"]) == Ok(s.artifacts) else s.artifacts == [])
            && (if "verification" in data
                then py.Members(data["verification"]) == Ok(s.verification) else s.verification == map[])
            && (if "next_actions" in data
                then py.Items(data["next_actions"]) == Ok(s.nextActions) else s.nextActions == [])
  {
    hide ReadEvidence;
  }

  /** Every refusal by `from_dict` says what failed first, up to the checks of `validate`. */
  lemma BuildReasons(py: Coercions, data: map<string, Value>)
    ensures var r := BuildState(py, data);
            && ("schema_version" !in data || data["schema_version"] != Str("1.0") ==>
                  r == Err(UnsupportedSchemaVersion))
            && ("schema_version" in data && data["schema_version"] == Str("1.0") ==>
                  && ("evidence" in data && !data["evidence"].List? ==> r == Err(EvidenceNotList))
                  && ("evidence" in data && data["evidence"].List? && ReadAllEvidence(data["evidence"].items).Err? ==>
                        r == Err(ReadAllEvidence(data["evidence"].items).error))
                  && (("evidence" in data ==> data["evidence"].List? && ReadAllEvidence(data["evidence"].items).Ok?) ==>
                        DecidedBy(r, RecordChecks(py, data))))
  {
    hide ReadEvidence;
    var k := RecordChecks(py, data);
    assert [k[0], k[1], k[2], k[3], k[4], k[5], k[6], k[7], k[8], k[9], k[10], k[11]] == k;
    if "schema_version" in data && data["schema_version"] == Str("1.0")
       && ("evidence" in data ==> data["evidence"].List? && ReadAllEvidence(data["evidence"].items).Ok?) {
      Decided(BuildState(py, data), k);
    }
  }
}
