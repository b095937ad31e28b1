/** The in-memory target of core.py and what `materialize` does to it. */
module Target {
  import opened Prelude
  import opened Json
  import opened Hashing
  import opened ControlPlane
  import opened Decisions
  import Markers

  /** `str(v)`: a string is itself; how Python prints other values is left to `render`. */
  function KeyText(render: Value -> string, v: Value): string {
    if v.Str? then v.s else render(v)
  }

  /** `execute` gets as far as its write. */
  predicate Writes(action: string, payload: Payload) {
    action == "set_value" && "key" in payload && "value" in payload
  }

  /** What `execute` returns or raises; the value it reads back is the one just written. */
  function TargetEffect(h: Hasher, render: Value -> string, action: string, payload: Payload): Result<Effect> {
    var _ :- Require(action == "set_value", UnsupportedTargetAction);
    var _ :- Require("key" in payload, MissingKey("key"));
    var _ :- Require("value" in payload, MissingKey("value"));
    var observed := map["key" := Str(KeyText(render, payload["key"])), "value" := payload["value"]];
    var id := Digest(h, Obj([("action", Str(action)), ("payload", Map(observed))]));
    Ok(Effect("effect-" + First16(id), action, payload, observed))
  }

  /** What `execute` leaves in the target. */
  function ValuesAfter(render: Value -> string, values: Payload, action: string, payload: Payload): Payload {
    if Writes(action, payload) then values[KeyText(render, payload["key"]) := payload["value"]] else values
  }

  function TargetExecutor(h: Hasher, render: Value -> string): Executor {
    (action: string, payload: Payload) => TargetEffect(h, render, action, payload)
  }

  /** `materialize` with the target's `execute` as its executor. */
  function AttemptResult(h: Hasher, render: Value -> string,
                         intent: Intent, decision: Decision, state: State, policy: Policy): Result<Materialized> {
    Materialize(h, intent, decision, state, policy, TargetExecutor(h, render))
  }

  /** The target's values after that call. */
  function AttemptValues(h: Hasher, render: Value -> string, values: Payload,
                         intent: Intent, decision: Decision, state: State, policy: Policy): Payload {
    if Guard(h, intent, decision, state, policy).Ok? then ValuesAfter(render, values, intent.action, intent.payload)
    else values
  }

  class InMemoryTarget {
    var values: map<string, Value>

    constructor ()
      ensures values == map[]
    {
      values := map[];
    }

    method Execute(h: Hasher, render: Value -> string, action: string, payload: Payload) returns (r: Result<Effect>)
      modifies this
      ensures r == TargetEffect(h, render, action, payload)
      ensures values == ValuesAfter(render, old(values), action, payload)
      ensures action != "set_value" ==> r == Err(UnsupportedTargetAction) && values == old(values)
      ensures action == "set_value" && !("key" in payload && "value" in payload) ==>
                values == old(values)
                && r == Err(MissingKey(if "key" in payload then "value" else "key"))
      ensures action == "set_value" && "key" in payload && "value" in payload ==>
                var key := if payload["key"].Str? then payload["key"].s else render(payload["key"]);
                && values == old(values)[key := payload["value"]]
                && r.Ok? && r.value.action == action && r.value.requested == payload
                && r.value.observed == map["key" := Str(key), "value" := values[key]]
    {
      if action != "set_value" {
        return Err(UnsupportedTargetAction);
      }
      if "key" !in payload {
        return Err(MissingKey("key"));
      }
      var key := KeyText(render, payload["key"]);
      if "value" !in payload {
        return Err(MissingKey("value"));
      }
      var value := payload["value"];
      values := values[key := value];
      var observed := map["key" := Str(key), "value" := values[key]];
      var id := Digest(h, Obj([("action", Str(action)), ("payload", Map(observed))]));
      r := Ok(Effect("effect-" + First16(id), action, payload, observed));
    }
  }

  /** `materialize(..., execute=target.execute)`: the effect happens between the guard and the readback. */
  method MaterializeOn(h: Hasher, render: Value -> string, intent: Intent, decision: Decision, state: State,
                       policy: Policy, target: InMemoryTarget) returns (r: Result<Materialized>)
    modifies target
    ensures r == AttemptResult(h, render, intent, decision, state, policy)
    ensures target.values == AttemptValues(h, render, old(target.values), intent, decision, state, policy)
    ensures r.Ok? ==> ExactPayload(intent.payload)
                      && target.values == old(target.values)[intent.payload["key"].s := intent.payload["value"]]
  {
    SuccessWrites(h, render, target.values, intent, decision, state, policy);
    hide Digest, StateDigest, IntentDigest, BuildReceipt, TargetEffect, ValuesAfter, ExactPayload, AttemptResult,
         AttemptValues;
    var guard := Guard(h, intent, decision, state, policy);
    if guard.Err? {
      return Err(guard.error);
    }
    var effect := target.Execute(h, render, intent.action, intent.payload);
    if effect.Err? {
      return Err(effect.error);
    }
    var check := CheckEffect(intent, effect.value);
    if check.Err? {
      return Err(check.error);
    }
    r := Ok(Promote(h, state, intent, effect.value));
  }

  /** The id of an effect is made of the hash of the action and of what was read back. */
  lemma EffectId(h: Hasher, render: Value -> string, action: string, payload: Payload)
    ensures var r := TargetEffect(h, render, action, payload);
            r.Ok? ==>
              var hash := h(Encode(Map(map["action" := Str(action), "payload" := Map(r.value.observed)])));
              |hash| >= 16 ==> r.value.effectId == "effect-" + hash[..16]
  {
    hide Encode;
    forall v: Value
      ensures Obj([("action", Str(action)), ("payload", v)]) == Map(map["action" := Str(action), "payload" := v])
    {
      ActionDict(action, v);
    }
    hide Obj;
  }

  lemma ActionDict(action: string, v: Value)
    ensures Obj([("action", Str(action)), ("payload", v)]) == Map(map["action" := Str(action), "payload" := v])
  {
    var fields: Fields := [("action", Str(action)), ("payload", v)];
    assert Json.Members(fields, 0) == map[] && Json.Members(fields, 1) == map["action" := Str(action)];
  }

  // ----- When an attempt succeeds, and when a failed one leaves a trace

  /** The payload is exactly a string key and a value. */
  predicate ExactPayload(payload: Payload) {
    payload.Keys == {"key", "value"} && payload["key"].Str?
  }

  lemma ReadbackMatches(h: Hasher, render: Value -> string, intent: Intent)
    ensures var r := TargetEffect(h, render, intent.action, intent.payload);
            && (r.Ok? <==> Writes(intent.action, intent.payload))
            && (r.Ok? ==> (CheckEffect(intent, r.value).Ok? <==> ExactPayload(intent.payload)))
  {
    hide Digest;
    var p := intent.payload;
    if Writes(intent.action, p) {
      var observed := map["key" := Str(KeyText(render, p["key"])), "value" := p["value"]];
      assert TargetEffect(h, render, intent.action, p).value.observed == observed;
      assert observed.Keys == {"key", "value"};
      if ExactPayload(p) {
        assert forall k :: k in p ==> k == "key" || k == "value";
        assert observed == p;
      }
    }
  }

  /**
   * Against this target an attempt succeeds exactly when its guard passes, the action is `set_value`
   * and the payload is exactly a string key and a value.
   */
  lemma SucceedsExactly(h: Hasher, render: Value -> string, intent: Intent, decision: Decision, state: State,
                        policy: Policy)
    ensures AttemptResult(h, render, intent, decision, state, policy).Ok? <==>
            && Guard(h, intent, decision, state, policy).Ok?
            && intent.action == "set_value" && ExactPayload(intent.payload)
  {
    ReadbackMatches(h, render, intent);
    hide Digest, StateDigest, IntentDigest, BuildReceipt, TargetEffect;
    assert ExactPayload(intent.payload) ==> "key" in intent.payload && "value" in intent.payload;
    assert TargetExecutor(h, render)(intent.action, intent.payload)
        == TargetEffect(h, render, intent.action, intent.payload);
  }

  /** A successful attempt leaves the value of its payload under the key of its payload, and all else as it was. */
  lemma SuccessWrites(h: Hasher, render: Value -> string, values: Payload, intent: Intent, decision: Decision,
                      state: State, policy: Policy)
    ensures AttemptResult(h, render, intent, decision, state, policy).Ok? ==>
              && intent.payload.Keys == {"key", "value"} && intent.payload["key"].Str?
              && AttemptValues(h, render, values, intent, decision, state, policy)
                 == values[intent.payload["key"].s := intent.payload["value"]]
  {
    SucceedsExactly(h, render, intent, decision, state, policy);
    hide AttemptResult, Guard;
    assert ExactPayload(intent.payload) ==> "key" in intent.payload && "value" in intent.payload;
  }

  /**
   * A rejected attempt changes the target exactly when the guard passed and `execute` wrote a new
   * value under a payload that the readback then refused. In particular every rejection before
   * `execute` leaves the target as it was.
   */
  lemma RejectionChangesTargetExactly(h: Hasher, render: Value -> string, values: Payload, intent: Intent,
                                      decision: Decision, state: State, policy: Policy)
    requires AttemptResult(h, render, intent, decision, state, policy).Err?
    ensures AttemptValues(h, render, values, intent, decision, state, policy) != values <==>
            && Guard(h, intent, decision, state, policy).Ok?
            && Writes(intent.action, intent.payload) && !ExactPayload(intent.payload)
            && !MapsTo(values, KeyText(render, intent.payload["key"]), intent.payload["value"])
  {
    SucceedsExactly(h, render, intent, decision, state, policy);
    hide Guard, AttemptResult;
    if Writes(intent.action, intent.payload) {
      var k, v := KeyText(render, intent.payload["key"]), intent.payload["value"];
      assert values[k := v] == values <==> MapsTo(values, k, v) by {
        assert values[k := v][k] == v;
      }
    }
  }

  predicate MapsTo(values: Payload, key: string, value: Value) {
    key in values && values[key] == value
  }

  /** A concrete rejected attempt that still wrote: a payload with one key too many. */
  lemma RejectedButWritten(h: Hasher, render: Value -> string)
    ensures var intent := Intent("intent-001", 0, "ZERO", "set_value", NotedPayload());
            var policy := Policy({"set_value"});
            var decision := Decide(h, intent, INITIAL, policy);
            && AttemptResult(h, render, intent, decision, INITIAL, policy).Err?
            && AttemptValues(h, render, map[], intent, decision, INITIAL, policy) == map["mode" := Str("safe")]
  {
    var intent := Intent("intent-001", 0, "ZERO", "set_value", NotedPayload());
    var policy := Policy({"set_value"});
    NotedPayloadFacts();
    hide NotedPayload, Markers.ContainsKey, ExactPayload, AttemptResult, Guard, Digest;
    DecisionPassesGuard(h, intent, INITIAL, policy);
    SucceedsExactly(h, render, intent, Decide(h, intent, INITIAL, policy), INITIAL, policy);
  }

  function NotedPayload(): Payload {
    map["key" := Str("mode"), "value" := Str("safe"), "note" := Null]
  }

  lemma NotedPayloadFacts()
    ensures var p := NotedPayload();
            && !ExactPayload(p) && Writes("set_value", p)
            && p["key"] == Str("mode") && p["value"] == Str("safe")
            && !Markers.ContainsKey(Markers.SecretKey, Map(p))
  {
    var p := NotedPayload();
    assert "note" in p && "note" !in {"key", "value"};
    assert forall k :: k in p ==> (k == "key" || k == "value" || k == "note") && !p[k].Map? && !p[k].List?;
    hide NotedPayload, Markers.SecretKey;
    OrdinaryKeys();
  }

  lemma OrdinaryKeys()
    ensures !Markers.SecretKey("key") && !Markers.SecretKey("value") && !Markers.SecretKey("note")
  {
    hide Markers.Lower;
    Markers.LowerFixed("key");
    Markers.LowerFixed("value");
    Markers.LowerFixed("note");
  }
}
