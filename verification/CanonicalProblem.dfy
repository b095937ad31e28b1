/** canonical.py: the problem state carried between sessions, its validation, encoding and revisions. */
module CanonicalProblem {
  import opened Prelude
  import opened Json
  import opened Hashing
  import opened Markers

  const SCHEMA_VERSION := "1.0"

  const STATUS_VALUES: set<string> :=
    {"DISCOVERY", "EVIDENCE", "RECONCILIATION", "SOLVING", "VERIFYING", "VERIFIED", "VERIFIED_PENDING_EXTERNAL_GATE",
     "FAIL_CLOSED"}

  const EVIDENCE_STATUS_VALUES: set<string> := {"verified", "stale", "contradictory", "unavailable"}

  /** Fields that `from_dict` copies without a check can hold any value until `validate` looks at them. */
  datatype Evidence = Evidence(
    source: Value,
    kind: Value,
    locator: Value,
    observedAt: Value,
    digest: Value,
    status: Value)

  datatype ProblemState = ProblemState(
    problemId: string,
    title: string,
    objective: string,
    status: string,
    revision: int,
    createdAt: string,
    updatedAt: string,
    evidence: seq<Evidence>,
    decisions: seq<Value>,
    artifacts: seq<Value>,
    verification: map<string, Value>,
    nextActions: seq<Value>)

  // ----- validate

  /** `isinstance(v, str) and v` */
  predicate Text(v: Value) {
    v.Str? && v.s != ""
  }

  /** `Evidence.validate`; a list or dict as status cannot even be looked up in the set of statuses. */
  function ValidateEvidence(e: Evidence): Result<()> {
    var _ :- Require(Text(e.source) && Text(e.kind) && Text(e.locator) && Text(e.observedAt) && Text(e.digest),
                     EvidenceFieldsNotText);
    var _ :- Require(!e.status.List? && !e.status.Map?, WrongType);
    var _ :- Require(e.status.Str? && e.status.s in EVIDENCE_STATUS_VALUES, InvalidEvidenceStatus);
    Require("sha256:" <= e.digest.s && |e.digest.s| == 71, EvidenceDigestMalformed)
  }

  function ValidateAllEvidence(es: seq<Evidence>): Result<()> {
    if es == [] then Ok(())
    else
      var _ :- ValidateEvidence(es[0]);
      ValidateAllEvidence(es[1..])
  }

  predicate TextPairs(m: map<string, Value>) {
    forall k :: k in m ==> Text(m[k])
  }

  function ValidateArtifacts(items: seq<Value>): (r: Result<()>)
    ensures r.Ok? ==> AllMaps(items)
  {
    if items == [] then Ok(())
    else
      var _ :- Require(items[0].Map?, ArtifactsNotMappings);
      var _ :- Require(TextPairs(items[0].m), ArtifactFieldsNotText);
      ValidateArtifacts(items[1..])
  }

  predicate AllMaps(items: seq<Value>) {
    forall i :: 0 <= i < |items| ==> items[i].Map?
  }

  /** The checks of `validate` that come before it builds the dict form. */
  function ValidateFields(s: ProblemState): (r: Result<()>)
    ensures r.Ok? ==> AllMaps(s.artifacts)
  {
    var _ :- Require(s.status in STATUS_VALUES, InvalidCanonicalStatus);
    var _ :- Require(s.problemId != "" && s.title != "" && s.objective != "" && s.createdAt != "" && s.updatedAt != "",
                     IdentityFieldsEmpty);
    var _ :- Require(s.revision >= 0, RevisionNegative);
    var _ :- ValidateAllEvidence(s.evidence);
    var _ :- Require(forall i :: 0 <= i < |s.decisions| ==> Text(s.decisions[i]),
                     DecisionsNotText);
    ValidateArtifacts(s.artifacts)
  }

  /** Some evidence item is not verified. */
  predicate Unverified(es: seq<Evidence>) {
    exists i :: 0 <= i < |es| && es[i].status != Str("verified")
  }

  function Validate(s: ProblemState): (r: Result<()>)
    ensures r.Ok? ==> AllMaps(s.artifacts)
  {
    var _ :- ValidateFields(s);
    var _ :- Require(!ContainsKey(ForbiddenKey, ToDict(s)), ContainsSecretMaterial);
    Require(!(s.status == "VERIFIED" && Unverified(s.evidence)),
            VerifiedNeedsVerifiedEvidence)
  }

  // ----- to_dict, to_json, digest

  function EvidenceFields(e: Evidence): Fields {
    [("source", e.source),
     ("kind", e.kind),
     ("locator", e.locator),
     ("observed_at", e.observedAt),
     ("digest", e.digest),
     ("status", e.status)]
  }

  function EvidenceValues(es: seq<Evidence>): seq<Value> {
    seq(|es|, i requires 0 <= i < |es| => Obj(EvidenceFields(es[i])))
  }

  function ProblemFields(s: ProblemState): Fields {
    [("schema_version", Str(SCHEMA_VERSION)),
     ("problem_id", Str(s.problemId)),
     ("title", Str(s.title)),
     ("objective", Str(s.objective)),
     ("status", Str(s.status)),
     ("revision", Num(s.revision)),
     ("created_at", Str(s.createdAt)),
     ("updated_at", Str(s.updatedAt)),
     ("evidence", List(EvidenceValues(s.evidence))),
     ("decisions", List(s.decisions)),
     ("artifacts", List(s.artifacts)),
     ("verification", Map(s.verification)),
     ("next_actions", List(s.nextActions))]
  }

  /** `dict(item)` copies each artifact, so each must be a mapping. */
  function ToDict(s: ProblemState): Value
    requires AllMaps(s.artifacts)
  {
    Obj(ProblemFields(s))
  }

  function ToJson(s: ProblemState): string
    requires AllMaps(s.artifacts)
  {
    Encode(ToDict(s))
  }

  /** The `digest` property: validates first. */
  function ProblemDigest(h: Hasher, s: ProblemState): Result<string> {
    var r := Validate(s);
    if r.Err? then Err(r.error)
    else Ok("sha256:" + Digest(h, ToDict(s)))
  }

  // ----- from_dict, from_json

  /**
   * What Python makes of values that are not of the expected type: `str`, `int`, `tuple` and `dict`
   * applied to something that is not already a string, integer, list or mapping.
   */
  datatype Coercions = Coercions(
    text: Value -> string,
    number: Value -> Result<int>,
    items: Value -> Result<seq<Value>>,
    members: Value -> Result<map<string, Value>>)
  {
    function Text(v: Value): string {
      if v.Str? then v.s else text(v)
    }

    function Number(v: Value): Result<int> {
      if v.Num? then Ok(v.n) else number(v)
    }

    function Items(v: Value): Result<seq<Value>> {
      if v.List? then Ok(v.items) else items(v)
    }

    function Members(v: Value): Result<map<string, Value>> {
      if v.Map? then Ok(v.m) else members(v)
    }
  }

  /** `data[key]` */
  function Lookup(data: map<string, Value>, key: string): Result<Value> {
    if key in data then Ok(data[key]) else Err(MissingKey(key))
  }

  /** `data.get(key, default)` */
  function GetOr(data: map<string, Value>, key: string, default: Value): Value {
    if key in data then data[key] else default
  }

  function ReadEvidence(item: Value): Result<Evidence> {
    var _ :- Require(item.Map?, WrongType);
    var source :- Lookup(item.m, "source");
    var kind :- Lookup(item.m, "kind");
    var locator :- Lookup(item.m, "locator");
    var observedAt :- Lookup(item.m, "observed_at");
    var digest :- Lookup(item.m, "digest");
    Ok(Evidence(source, kind, locator, observedAt, digest, GetOr(item.m, "status", Str("verified"))))
  }

  function ReadAllEvidence(items: seq<Value>): Result<seq<Evidence>> {
    if items == [] then Ok([])
    else
      var head :- ReadEvidence(items[0]);
      var tail :- ReadAllEvidence(items[1..]);
      Ok([head] + tail)
  }

  function LookupText(py: Coercions, data: map<string, Value>, key: string): Result<string> {
    var v :- Lookup(data, key);
    Ok(py.Text(v))
  }

  /** The unvalidated state that `from_dict` builds from a record. */
  function BuildState(py: Coercions, data: map<string, Value>): Result<ProblemState> {
    var _ :- Require(GetOr(data, "schema_version", Null) == Str(SCHEMA_VERSION), UnsupportedSchemaVersion);
    var rawEvidence := GetOr(data, "evidence", List([]));
    var _ :- Require(rawEvidence.List?, EvidenceNotList);
    var evidence :- ReadAllEvidence(rawEvidence.items);
    var problemId :- LookupText(py, data, "problem_id");
    var title :- LookupText(py, data, "title");
    var objective :- LookupText(py, data, "objective");
    var status :- LookupText(py, data, "status");
    var rawRevision :- Lookup(data, "revision");
    var revision :- py.Number(rawRevision);
    var createdAt :- LookupText(py, data, "created_at");
    var updatedAt :- LookupText(py, data, "updated_at");
    var decisions :- py.Items(GetOr(data, "decisions", List([])));
    var artifacts :- py.Items(GetOr(data, "artifacts", List([])));
    var verification :- py.Members(GetOr(data, "verification", Map(map[])));
    var nextActions :- py.Items(GetOr(data, "next_actions", List([])));
    Ok(ProblemState(problemId, title, objective, status, revision, createdAt, updatedAt,
                    evidence, decisions, artifacts, verification, nextActions))
  }

  function FromDict(py: Coercions, data: map<string, Value>): Result<ProblemState> {
    var state :- BuildState(py, data);
    var _ :- Validate(state);
    Ok(state)
  }

  function FromJson(py: Coercions, payload: string): Result<ProblemState> {
    var data := ReadText(payload);
    var _ :- Require(data.Some?, InvalidCanonicalJSON);
    var _ :- Require(data.value.Map?, RootNotObject);
    FromDict(py, data.value.m)
  }

  // ----- advance

  /** The keyword arguments of one `advance` call, and the time it reads. */
  datatype Request = Request(
    status: string,
    evidence: Option<seq<Evidence>>,
    decisions: Option<seq<Value>>,
    artifacts: Option<seq<Value>>,
    verification: Option<map<string, Value>>,
    nextActions: Option<seq<Value>>,
    now: string)

  function Or<T>(o: Option<T>, default: T): T {
    if o.Some? then o.value else default
  }

  function Revised(s: ProblemState, r: Request): ProblemState {
    ProblemState(
      s.problemId, s.title, s.objective, r.status, s.revision + 1, s.createdAt, r.now,
      Or(r.evidence, s.evidence), Or(r.decisions, s.decisions), Or(r.artifacts, s.artifacts),
      Or(r.verification, s.verification), Or(r.nextActions, s.nextActions))
  }

  function Advance(s: ProblemState, r: Request): Result<ProblemState> {
    var _ :- Validate(s);
    var _ :- Require(r.status in STATUS_VALUES, InvalidCanonicalStatus);
    var _ :- Validate(Revised(s, r));
    Ok(Revised(s, r))
  }

  /** A chain of `advance` calls; it stops at the first that raises. */
  function AdvanceAll(s: ProblemState, requests: seq<Request>): Result<ProblemState> {
    if requests == [] then Ok(s)
    else
      var t :- AdvanceAll(s, requests[..|requests| - 1]);
      Advance(t, requests[|requests| - 1])
  }
}
