/**
 * Whole runs of the control plane: any number of agents decide and attempt to materialise, in any
 * order, with decisions of any age or origin, against one canonical state and one in-memory target.
 * One attempt is one atomic step.
 */
module Runs {
  import opened Prelude
  import opened Lists
  import opened Json
  import opened JsonRoundTrip
  import opened Hashing
  import opened ControlPlane
  import opened Decisions
  import opened Markers
  import opened Receipts
  import opened Target

  datatype Event =
    /** An agent evaluates an intent against the current state and keeps the decision. */
    | Deciding(intent: Intent, policy: Policy)
    /** An agent calls `materialize` with any intent and any decision, kept or made up. */
    | Attempting(intent: Intent, decision: Decision, policy: Policy)

  /** A kept decision, with the state it was taken in and the length the log had then. */
  datatype Taken = Taken(intent: Intent, policy: Policy, decision: Decision, seen: State, at: nat)

  datatype System = System(state: State, values: Payload, taken: seq<Taken>, log: seq<Link>)

  const START := System(INITIAL, map[], [], [])

  function StepOf(h: Hasher, render: Value -> string, sys: System, e: Event): System {
    match e
    case Deciding(intent, policy) =>
      sys.(taken := sys.taken + [Taken(intent, policy, Decide(h, intent, sys.state, policy), sys.state, |sys.log|)])
    case Attempting(intent, decision, policy) =>
      var r := AttemptResult(h, render, intent, decision, sys.state, policy);
      var values := AttemptValues(h, render, sys.values, intent, decision, sys.state, policy);
      if r.Ok? then
        sys.(state := r.value.next, values := values, log := sys.log + [LinkOf(sys.state, intent, r.value)])
      else sys.(values := values)
  }

  /** The states a run passes through: one before each event, and the last one. */
  ghost predicate IsRun(h: Hasher, render: Value -> string, events: seq<Event>, trace: seq<System>) {
    && |trace| == |events| + 1 && trace[0] == START
    && forall i :: 0 <= i < |events| ==> trace[i + 1] == StepOf(h, render, trace[i], events[i])
  }

  /** `sys` is where the run of these events ends; every state a run passes through is such an end. */
  ghost predicate RunEnds(h: Hasher, render: Value -> string, events: seq<Event>, sys: System) {
    exists trace :: IsRun(h, render, events, trace) && trace[|events|] == sys
  }

  lemma NoEvents(h: Hasher, render: Value -> string)
    ensures RunEnds(h, render, [], START)
  {
    assert IsRun(h, render, [], [START]);
  }

  /** Every run can go on with any event. */
  lemma RunGoesOn(h: Hasher, render: Value -> string, events: seq<Event>, sys: System, e: Event)
    requires RunEnds(h, render, events, sys)
    ensures RunEnds(h, render, events + [e], StepOf(h, render, sys, e))
  {
    hide StepOf;
    var trace :| IsRun(h, render, events, trace) && trace[|events|] == sys;
    var more, longer := events + [e], trace + [StepOf(h, render, sys, e)];
    forall i | 0 <= i < |more| ensures longer[i + 1] == StepOf(h, render, longer[i], more[i]) {
      if i < |events| {
        assert longer[i + 1] == trace[i + 1] && longer[i] == trace[i] && more[i] == events[i];
      }
    }
    assert IsRun(h, render, more, longer);
  }

  /** The last step of a nonempty run. */
  lemma RunLastStep(h: Hasher, render: Value -> string, events: seq<Event>, sys: System) returns (before: System)
    requires RunEnds(h, render, events, sys) && events != []
    ensures RunEnds(h, render, events[..|events| - 1], before)
    ensures sys == StepOf(h, render, before, events[|events| - 1])
  {
    hide StepOf;
    var trace :| IsRun(h, render, events, trace) && trace[|events|] == sys;
    var n := |events| - 1;
    before := trace[n];
    assert trace[n + 1] == StepOf(h, render, trace[n], events[n]);
    assert IsRun(h, render, events[..n], trace[..n + 1]);
  }

  // ----- What every run keeps

  function CheckpointAt(revision: int): string {
    if revision == 0 then "ZERO" else CheckpointText(revision)
  }

  /**
   * The state is the end of a verified history; revision, processed intents and receipts count the
   * same thing; the checkpoint is a function of the revision; the stored hash is the last receipt's.
   */
  ghost predicate Consistent(h: Hasher, sys: System) {
    && History(h, sys.log) && End(sys.log) == sys.state
    && sys.state.revision == |sys.log| == |sys.state.processed|
    && (forall i :: 0 <= i < |sys.log| ==> sys.log[i].intent.intentId == sys.state.processed[i])
    && Distinct(sys.state.processed)
    && sys.state.checkpoint == CheckpointAt(sys.state.revision)
    && sys.state.previousReceiptHash
       == (if sys.log == [] then None else Some(sys.log[|sys.log| - 1].receipt.receiptHash))
  }

  /** One intent per revision: link `i` takes revision `i` to `i + 1` and adds its intent as the `i`-th. */
  ghost predicate OnePerRevision(sys: System) {
    |sys.log| == |sys.state.processed| &&
    forall i :: 0 <= i < |sys.log| ==>
      && sys.log[i].prior.revision == sys.log[i].receipt.base.fromRevision == i
      && sys.log[i].next.revision == sys.log[i].receipt.base.toRevision == i + 1
      && sys.log[i].prior.processed == sys.state.processed[..i]
      && sys.log[i].next.processed == sys.state.processed[..i + 1]
  }

  /**
   * Every logged intent named the exact revision and checkpoint it was applied at, wrote exactly a
   * string key and a value, and has no secret-like key at any depth.
   */
  ghost predicate OnlyExactIntents(sys: System) {
    forall i :: 0 <= i < |sys.log| ==>
      && sys.log[i].intent.expectedRevision == i && sys.log[i].intent.expectedCheckpoint == CheckpointAt(i)
      && ExactIntent(sys.log[i].intent)
  }

  ghost predicate ExactIntent(intent: Intent) {
    && intent.action == "set_value" && ExactPayload(intent.payload)
    && forall path :: !MarkedAt(SecretKey, Map(intent.payload), path)
  }

  /** Kept decisions are bound to the state of the log position at which they were taken. */
  ghost predicate TakenFaithfully(h: Hasher, sys: System) {
    forall t :: t in sys.taken ==>
      && t.at <= |sys.log| && t.seen == End(sys.log[..t.at]) && t.seen.revision == t.at
      && t.decision == Decide(h, t.intent, t.seen, t.policy)
  }

  /** A link that one successful attempt adds to a state. */
  ghost predicate AddedTo(h: Hasher, state: State, link: Link) {
    && Verified(h, link) && link.prior == state
    && link.next == NextWithoutHash(state, link.intent).(previousReceiptHash := Some(link.receipt.receiptHash))
    && link.receipt.base.fromRevision == state.revision && link.receipt.base.toRevision == state.revision + 1
    && link.intent.intentId !in state.processed
    && link.intent.expectedRevision == state.revision && link.intent.expectedCheckpoint == state.checkpoint
    && ExactIntent(link.intent)
  }

  ghost predicate BoundTo(h: Hasher, t: Taken, sys: System) {
    t.seen == sys.state && t.at == |sys.log| && t.decision == Decide(h, t.intent, t.seen, t.policy)
  }

  lemma SuccessAdds(h: Hasher, render: Value -> string,
                    intent: Intent, decision: Decision, state: State, policy: Policy)
    requires AttemptResult(h, render, intent, decision, state, policy).Ok?
    ensures AddedTo(h, state, LinkOf(state, intent, AttemptResult(h, render, intent, decision, state, policy).value))
  {
    MaterializedVerifies(h, intent, decision, state, policy, TargetExecutor(h, render));
    SucceedsExactly(h, render, intent, decision, state, policy);
    MaterializeExact(h, intent, decision, state, policy, TargetExecutor(h, render));
    hide Verified, Digest, StateDigest, IntentDigest, EffectDigest, TargetExecutor, Guard, ExactPayload, MarkedAt;
  }

  /** A step keeps one more decision, or adds one link to the log, or changes neither. */
  lemma StepShape(h: Hasher, render: Value -> string, sys: System, e: Event)
    ensures var after := StepOf(h, render, sys, e);
            || (&& after.log == sys.log && after.state == sys.state
                && (after.taken == sys.taken
                    || (exists t :: after.taken == sys.taken + [t] && BoundTo(h, t, sys))))
            || (&& after.taken == sys.taken
                && (exists link :: after.log == sys.log + [link] && after.state == link.next
                                   && AddedTo(h, sys.state, link)))
  {
    hide AttemptResult, AttemptValues, AddedTo;
    match e
    case Deciding(intent, policy) =>
      var t := Taken(intent, policy, Decide(h, intent, sys.state, policy), sys.state, |sys.log|);
      assert BoundTo(h, t, sys) by { hide Decide; }
    case Attempting(intent, decision, policy) =>
      if AttemptResult(h, render, intent, decision, sys.state, policy).Ok? {
        SuccessAdds(h, render, intent, decision, sys.state, policy);
      }
  }

  lemma ExtendHistory(h: Hasher, links: seq<Link>, link: Link)
    requires History(h, links) && Verified(h, link) && link.prior == End(links)
    ensures History(h, links + [link]) && End(links + [link]) == link.next
  {
    hide Verified;
  }

  lemma LinkKeepsConsistent(h: Hasher, sys: System, after: System, link: Link)
    requires Consistent(h, sys) && AddedTo(h, sys.state, link)
    requires after.log == sys.log + [link] && after.state == link.next
    ensures Consistent(h, after)
  {
    hide Verified, Encode, IntText;
    ExtendHistory(h, sys.log, link);
    hide History;
  }

  lemma LinkKeepsOnePerRevision(h: Hasher, sys: System, after: System, link: Link)
    requires sys.state.revision == |sys.log| && AddedTo(h, sys.state, link) && OnePerRevision(sys)
    requires after.log == sys.log + [link] && after.state == link.next
    ensures OnePerRevision(after)
  {
    hide Verified, ExactIntent;
    var ids := sys.state.processed;
    assert after.state.processed == ids + [link.intent.intentId];
    forall i | 0 <= i <= |ids| ensures after.state.processed[..i] == ids[..i] {
    }
    assert ids[..|ids|] == ids && after.state.processed[..|ids| + 1] == after.state.processed;
  }

  lemma LinkKeepsOrder(h: Hasher, sys: System, after: System, link: Link)
    requires sys.state.revision == |sys.log| && AddedTo(h, sys.state, link)
    requires sys.state.checkpoint == CheckpointAt(sys.state.revision)
    requires OnlyExactIntents(sys) && TakenFaithfully(h, sys)
    requires after.log == sys.log + [link] && after.taken == sys.taken
    ensures OnlyExactIntents(after) && TakenFaithfully(h, after)
  {
    hide Verified, Decide, End, ExactIntent;
    forall t | t in after.taken ensures t.at <= |sys.log| && after.log[..t.at] == sys.log[..t.at] {
    }
  }

  lemma DecisionKeepsTaken(h: Hasher, sys: System, after: System)
    requires End(sys.log) == sys.state && sys.state.revision == |sys.log| && TakenFaithfully(h, sys)
    requires after.log == sys.log
    requires after.taken == sys.taken || exists t :: after.taken == sys.taken + [t] && BoundTo(h, t, sys)
    ensures TakenFaithfully(h, after)
  {
    hide End, Decide;
    assert sys.log[..|sys.log|] == sys.log;
  }

  lemma StepKeepsInvariants(h: Hasher, render: Value -> string, sys: System, e: Event)
    requires Consistent(h, sys) && OnePerRevision(sys) && OnlyExactIntents(sys) && TakenFaithfully(h, sys)
    ensures var after := StepOf(h, render, sys, e);
            Consistent(h, after) && OnePerRevision(after) && OnlyExactIntents(after) && TakenFaithfully(h, after)
  {
    StepShape(h, render, sys, e);
    var after := StepOf(h, render, sys, e);
    hide StepOf, AddedTo, History, ExactIntent, TakenFaithfully, BoundTo;
    if after.log == sys.log {
      DecisionKeepsTaken(h, sys, after);
    } else {
      var link :| after.log == sys.log + [link] && after.state == link.next && AddedTo(h, sys.state, link);
      LinkKeepsConsistent(h, sys, after, link);
      LinkKeepsOnePerRevision(h, sys, after, link);
      LinkKeepsOrder(h, sys, after, link);
    }
  }

  /** Reachable-state invariant, over every run. */
  lemma {:induction false} RunsAreConsistent(h: Hasher, render: Value -> string, events: seq<Event>, sys: System)
    requires RunEnds(h, render, events, sys)
    ensures Consistent(h, sys) && OnePerRevision(sys) && OnlyExactIntents(sys) && TakenFaithfully(h, sys)
    decreases |events|
  {
    if events == [] {
      var trace :| IsRun(h, render, events, trace) && trace[|events|] == sys;
    } else {
      hide RunEnds, Consistent, OnePerRevision, OnlyExactIntents, TakenFaithfully, StepOf;
      var before := RunLastStep(h, render, events, sys);
      RunsAreConsistent(h, render, events[..|events| - 1], before);
      StepKeepsInvariants(h, render, before, events[|events| - 1]);
    }
  }

  // ----- Exactly once, and never stale

  /** No intent id materialises twice, and no revision is left twice, in any run. */
  lemma ExactlyOnce(h: Hasher, render: Value -> string, events: seq<Event>, sys: System, i: nat, j: nat)
    requires RunEnds(h, render, events, sys) && i < j < |sys.log|
    ensures sys.log[i].intent.intentId != sys.log[j].intent.intentId
    ensures sys.log[i].receipt.base.fromRevision < sys.log[j].receipt.base.fromRevision
    ensures sys.log[i].next.processed <= sys.log[j].prior.processed
  {
    hide RunEnds, Verified, History, OnlyExactIntents, TakenFaithfully;
    RunsAreConsistent(h, render, events, sys);
    var ids := sys.state.processed;
    assert ids[i] != ids[j] && ids[..i + 1] <= ids[..j];
    assert sys.log[i].next.processed == ids[..i + 1] && sys.log[j].prior.processed == ids[..j];
  }

  /** The values a decision was bound to. */
  function BoundValues(intent: Intent, state: State): set<Value> {
    {IntentValue(intent), StateValue(state)}
  }

  /** What a run knows of a kept decision: it is of its own state, which is current at its log position only. */
  lemma KeptDecision(h: Hasher, render: Value -> string, events: seq<Event>, sys: System, t: Taken)
    requires RunEnds(h, render, events, sys) && t in sys.taken
    ensures t.decision == Decide(h, t.intent, t.seen, t.policy)
    ensures t.at == |sys.log| <==> t.seen == sys.state
  {
    hide RunEnds, History, OnePerRevision, OnlyExactIntents, Decide, End, CheckpointAt;
    RunsAreConsistent(h, render, events, sys);
    assert sys.log[..|sys.log|] == sys.log;
  }

  lemma DecisionDigests(h: Hasher, intent: Intent, state: State, policy: Policy)
    ensures var d := Decide(h, intent, state, policy);
            d.intentDigest == IntentDigest(h, intent) && d.stateDigest == StateDigest(h, state)
  {
    hide ValidateIntent, Digest;
  }

  /**
   * A decision taken in a run executes only for its own intent and only while nothing has been
   * materialised since it was taken.
   */
  lemma NoStaleExecution(h: Hasher, render: Value -> string, events: seq<Event>, sys: System, t: Taken,
                         intent: Intent, policy: Policy)
    requires RunEnds(h, render, events, sys) && t in sys.taken
    requires Guard(h, intent, t.decision, sys.state, policy).Ok?
    ensures || (intent == t.intent && t.seen == sys.state && t.at == |sys.log|)
            || Collision(h, BoundValues(t.intent, t.seen), BoundValues(intent, sys.state))
  {
    hide RunEnds, Encode, IntentValue, StateValue, ValidateIntent, Decide;
    KeptDecision(h, render, events, sys, t);
    DecisionDigests(h, t.intent, t.seen, t.policy);
    var xs, ys := BoundValues(t.intent, t.seen), BoundValues(intent, sys.state);
    if !Collision(h, xs, ys) {
      SameValue(h, IntentValue(t.intent), IntentValue(intent), xs, ys);
      IntentValueInjective(t.intent, intent);
      SameValue(h, StateValue(t.seen), StateValue(sys.state), xs, ys);
      StateValueInjective(t.seen, sys.state);
    }
  }

  /**
   * A kept decision still executes, for its own intent and policy, exactly when it accepted, nothing
   * has been materialised since, and the target can take the payload.
   */
  lemma KeptDecisionExecutesExactly(h: Hasher, render: Value -> string, events: seq<Event>, sys: System, t: Taken)
    requires RunEnds(h, render, events, sys) && t in sys.taken
    ensures || (AttemptResult(h, render, t.intent, t.decision, sys.state, t.policy).Ok? <==>
                  && t.decision.accepted && t.at == |sys.log|
                  && t.intent.action == "set_value" && ExactPayload(t.intent.payload))
            || Collision(h, BoundValues(t.intent, t.seen), BoundValues(t.intent, sys.state))
  {
    hide RunEnds, Decide, Collision, BoundValues, AttemptResult, ExactPayload, Guard;
    KeptDecision(h, render, events, sys, t);
    SucceedsExactly(h, render, t.intent, t.decision, sys.state, t.policy);
    DecisionPassesGuard(h, t.intent, sys.state, t.policy);
    if t.at != |sys.log| && AttemptResult(h, render, t.intent, t.decision, sys.state, t.policy).Ok? {
      NoStaleExecution(h, render, events, sys, t, t.intent, t.policy);
    }
  }

  /** In reachable states the checkpoint and the revision determine each other. */
  lemma CheckpointDeterminesRevision(h: Hasher, render: Value -> string, events: seq<Event>, others: seq<Event>,
                                     sys: System, sys': System)
    requires RunEnds(h, render, events, sys) && RunEnds(h, render, others, sys')
    ensures sys.state.checkpoint == sys'.state.checkpoint <==> sys.state.revision == sys'.state.revision
  {
    RunsAreConsistent(h, render, events, sys);
    RunsAreConsistent(h, render, others, sys');
    hide RunEnds, History, OnePerRevision, OnlyExactIntents, TakenFaithfully;
    if sys.state.checkpoint == sys'.state.checkpoint {
      CheckpointInjective(sys.state.revision, sys'.state.revision);
    }
  }

  /** In every run the checkpoint is ZERO at revision 0, and then R with the decimal text of the revision. */
  lemma CheckpointIsRevision(h: Hasher, render: Value -> string, events: seq<Event>, sys: System)
    requires RunEnds(h, render, events, sys)
    ensures sys.state.revision == |sys.log|
    ensures var text := sys.state.checkpoint;
            if sys.log == [] then text == "ZERO"
            else text != "" && text[0] == 'R' && ReadInt(text[1..]) == Got(Num(|sys.log|), "")
  {
    hide RunEnds, History, OnePerRevision, OnlyExactIntents, TakenFaithfully, ReadInt, CheckpointText;
    RunsAreConsistent(h, render, events, sys);
    CheckpointReads(sys.state.revision);
  }

  lemma CheckpointInjective(m: int, n: int)
    requires CheckpointAt(m) == CheckpointAt(n)
    ensures m == n
  {
    hide IntText;
    if m != 0 && n != 0 {
      assert CheckpointText(m)[1..] == IntText(m) && CheckpointText(n)[1..] == IntText(n);
      IntTextInjective(m, n);
    } else {
      assert CheckpointAt(0)[0] == 'Z';
    }
  }

  // ----- The target agrees with the log

  /** The writes of the materialised intents, in receipt order. */
  function Replay(render: Value -> string, log: seq<Link>): Payload {
    if log == [] then map[]
    else
      var last := log[|log| - 1];
      ValuesAfter(render, Replay(render, log[..|log| - 1]), last.intent.action, last.intent.payload)
  }

  /** The target can only be written by this payload if the readback will also accept it. */
  predicate WellFormed(payload: Payload) {
    "key" in payload && "value" in payload ==> ExactPayload(payload)
  }

  ghost predicate AllWellFormed(events: seq<Event>) {
    forall i :: 0 <= i < |events| && events[i].Attempting? ==> WellFormed(events[i].intent.payload)
  }

  /** In a run whose payloads are exact (or miss a key), the target holds the replay of the log. */
  lemma {:induction false} TargetIsReplay(h: Hasher, render: Value -> string, events: seq<Event>, sys: System)
    requires RunEnds(h, render, events, sys) && AllWellFormed(events)
    ensures sys.values == Replay(render, sys.log)
    decreases |events|
  {
    if events == [] {
      var trace :| IsRun(h, render, events, trace) && trace[|events|] == sys;
    } else {
      var front, e := events[..|events| - 1], events[|events| - 1];
      var before := RunLastStep(h, render, events, sys);
      TargetIsReplay(h, render, front, before);
      if e.Attempting? {
        AttemptKeepsReplay(h, render, before, e);
      }
    }
  }

  lemma AttemptKeepsReplay(h: Hasher, render: Value -> string, sys: System, e: Event)
    requires e.Attempting? && WellFormed(e.intent.payload)
    requires sys.values == Replay(render, sys.log)
    ensures var after := StepOf(h, render, sys, e);
            after.values == Replay(render, after.log)
  {
    SucceedsExactly(h, render, e.intent, e.decision, sys.state, e.policy);
    hide AttemptResult, Guard;
    var after := StepOf(h, render, sys, e);
    if after.log != sys.log {
      assert after.log[..|after.log| - 1] == sys.log;
    }
  }

  /** The intent of the link wrote this key. */
  ghost predicate Wrote(l: Link, key: string) {
    "key" in l.intent.payload && "value" in l.intent.payload && l.intent.payload["key"] == Str(key)
  }

  /** It did so last. */
  ghost predicate WroteLast(log: seq<Link>, i: int, key: string) {
    0 <= i < |log| && Wrote(log[i], key) && forall j :: i < j < |log| ==> !Wrote(log[j], key)
  }

  /**
   * In such a run the target holds exactly the keys that materialised intents wrote, each with the
   * value of the last one that did.
   */
  lemma TargetHoldsLastWrites(h: Hasher, render: Value -> string, events: seq<Event>, sys: System, key: string)
    requires RunEnds(h, render, events, sys) && AllWellFormed(events)
    ensures key in sys.values <==> exists i :: 0 <= i < |sys.log| && Wrote(sys.log[i], key)
    ensures forall i :: WroteLast(sys.log, i, key) ==>
              key in sys.values && sys.values[key] == sys.log[i].intent.payload["value"]
  {
    RunsAreConsistent(h, render, events, sys);
    TargetIsReplay(h, render, events, sys);
    hide RunEnds, Consistent, OnePerRevision, TakenFaithfully, AllWellFormed, Wrote, Replay, MarkedAt;
    ReplayHoldsLastWrites(render, sys.log, key);
  }

  lemma {:induction false} ReplayHoldsLastWrites(render: Value -> string, log: seq<Link>, key: string)
    requires forall i :: 0 <= i < |log| ==> ExactIntent(log[i].intent)
    ensures var values := Replay(render, log);
            && (key in values <==> exists i :: 0 <= i < |log| && Wrote(log[i], key))
            && (forall i :: WroteLast(log, i, key) ==> key in values && values[key] == log[i].intent.payload["value"])
  {
    hide ExactIntent, ValuesAfter, Wrote, WroteLast;
    if log == [] {
      NothingWritten(key);
    } else {
      var front, last := log[..|log| - 1], log[|log| - 1];
      var before, after := Replay(render, front), Replay(render, log);
      assert after == ValuesAfter(render, before, last.intent.action, last.intent.payload);
      ReplayHoldsLastWrites(render, front, key);
      hide Replay;
      LastLinkWrites(render, before, last);
      WroteKey(last, key);
      OneMoreWrite(before, front, last, key);
      assert log == front + [last];
    }
  }

  lemma NothingWritten(key: string)
    ensures forall i :: !WroteLast([], i, key)
  {
  }

  lemma OneMoreWrite(before: Payload, front: seq<Link>, last: Link, key: string)
    requires key in before <==> exists i :: 0 <= i < |front| && Wrote(front[i], key)
    requires forall i :: WroteLast(front, i, key) ==>
               key in before && before[key] == front[i].intent.payload["value"]
    requires "key" in last.intent.payload && "value" in last.intent.payload && last.intent.payload["key"].Str?
    requires Wrote(last, key) <==> key == last.intent.payload["key"].s
    ensures var log, after := front + [last], before[last.intent.payload["key"].s := last.intent.payload["value"]];
            && (key in after <==> exists i :: 0 <= i < |log| && Wrote(log[i], key))
            && (forall i :: WroteLast(log, i, key) ==> key in after && after[key] == log[i].intent.payload["value"])
  {
    var n, log := |front|, front + [last];
    assert log[n] == last && forall i :: 0 <= i < n ==> log[i] == front[i];
    forall i | WroteLast(log, i, key) && i < n ensures WroteLast(front, i, key) && !Wrote(last, key) {
      assert !Wrote(log[n], key);
      forall j | i < j < n ensures !Wrote(front[j], key) { assert !Wrote(log[j], key); }
    }
    forall i | WroteLast(log, i, key) ensures "value" in log[i].intent.payload {
    }
    hide Wrote;
    if key in before && !Wrote(last, key) {
      var i :| 0 <= i < n && Wrote(front[i], key);
      assert Wrote(log[i], key);
    }
  }

  lemma LastLinkWrites(render: Value -> string, values: Payload, l: Link)
    requires ExactIntent(l.intent)
    ensures "key" in l.intent.payload && "value" in l.intent.payload && l.intent.payload["key"].Str?
    ensures ValuesAfter(render, values, l.intent.action, l.intent.payload)
            == values[l.intent.payload["key"].s := l.intent.payload["value"]]
  {
    hide MarkedAt;
    assert "key" in {"key", "value"} && "value" in {"key", "value"};
  }

  lemma WroteKey(l: Link, key: string)
    requires "key" in l.intent.payload && "value" in l.intent.payload && l.intent.payload["key"].Str?
    ensures Wrote(l, key) <==> key == l.intent.payload["key"].s
  {
  }

  // ----- The head hash commits to a run

  /**
   * Two runs that end with the same stored receipt hash materialised the same intents with the same
   * effects through the same states; when their payloads are well formed, their targets agree too.
   */
  lemma HeadCommitsToRun(h: Hasher, render: Value -> string, events: seq<Event>, others: seq<Event>,
                         s: System, t: System)
    requires RunEnds(h, render, events, s) && RunEnds(h, render, others, t)
    requires s.state.previousReceiptHash == t.state.previousReceiptHash
    ensures || Collision(h, AllValues(s.log), AllValues(t.log))
            || (&& SameHistory(s.log, t.log) && s.state == t.state
                && (AllWellFormed(events) && AllWellFormed(others) ==> s.values == t.values))
  {
    RunsAreConsistent(h, render, events, s);
    RunsAreConsistent(h, render, others, t);
    hide RunEnds, History, AllValues, Collision, Verified, OnePerRevision, OnlyExactIntents, TakenFaithfully, Replay;
    if AllWellFormed(events) && AllWellFormed(others) {
      TargetIsReplay(h, render, events, s);
      TargetIsReplay(h, render, others, t);
    }
    HeadCommitsToHistory(h, s.log, t.log);
    if SameHistory(s.log, t.log) {
      SameReplay(render, s.log, t.log);
    }
  }

  /**
   * Verification of a whole history against the head hash of a run leaves no room: any verified
   * history with that head is the log of the run, and so has all that runs guarantee.
   */
  lemma VerifiedHistoryIsTheRun(h: Hasher, render: Value -> string, events: seq<Event>, sys: System, links: seq<Link>)
    requires RunEnds(h, render, events, sys)
    requires History(h, links) && Head(links) == sys.state.previousReceiptHash
    ensures || Collision(h, AllValues(links), AllValues(sys.log))
            || (SameHistory(links, sys.log) && Consistent(h, sys.(log := links))
                && OnePerRevision(sys.(log := links)) && OnlyExactIntents(sys.(log := links)))
  {
    RunsAreConsistent(h, render, events, sys);
    hide RunEnds, AllValues, Collision, SameHistory, History, OnePerRevision, OnlyExactIntents, TakenFaithfully;
    HeadCommitsToHistory(h, links, sys.log);
    if SameHistory(links, sys.log) {
      SameLogSameFacts(h, render, sys, links);
    }
  }

  lemma SameLogSameFacts(h: Hasher, render: Value -> string, sys: System, links: seq<Link>)
    requires Consistent(h, sys) && OnePerRevision(sys) && OnlyExactIntents(sys)
    requires History(h, links) && SameHistory(links, sys.log)
    ensures Consistent(h, sys.(log := links)) && OnePerRevision(sys.(log := links))
    ensures OnlyExactIntents(sys.(log := links))
  {
    hide History, AllValues, Verified, Replay, ExactIntent, CheckpointAt;
    SameReplay(render, links, sys.log);
  }

  lemma {:induction false} SameReplay(render: Value -> string, a: seq<Link>, b: seq<Link>)
    requires SameHistory(a, b)
    ensures Replay(render, a) == Replay(render, b) && End(a) == End(b)
  {
    if a != [] {
      SameReplay(render, a[..|a| - 1], b[..|b| - 1]);
    }
  }

  // ----- Which verified histories are runs

  /** The transition is honest, and its effect is what the target does and reports for a payload it can take. */
  ghost predicate TargetStep(h: Hasher, render: Value -> string, l: Link) {
    && Honest(l)
    && l.intent.action == "set_value" && ExactPayload(l.intent.payload)
    && TargetEffect(h, render, l.intent.action, l.intent.payload) == Ok(l.effect)
  }

  /**
   * Verifying the links of a history one by one does not make it the log of a run; it is one (up to
   * receipt ids) exactly when every link is honest and the target's own.
   */
  lemma VerifiedHistoryIsRunExactly(h: Hasher, render: Value -> string, links: seq<Link>)
    requires History(h, links)
    ensures (exists events, sys :: RunEnds(h, render, events, sys) && SameHistory(links, sys.log)) <==>
            forall i :: 0 <= i < |links| ==> TargetStep(h, render, links[i])
  {
    hide History, RunEnds, TargetStep, SameLink;
    if events, sys :| RunEnds(h, render, events, sys) && SameHistory(links, sys.log) {
      RunLinksAreTargetSteps(h, render, events, sys);
      forall i | 0 <= i < |links| ensures TargetStep(h, render, links[i]) {
        SameTargetStep(h, render, sys.log[i], links[i]);
      }
    }
    if forall i :: 0 <= i < |links| ==> TargetStep(h, render, links[i]) {
      var events, sys := RunOf(h, render, links);
    }
  }

  lemma SameTargetStep(h: Hasher, render: Value -> string, a: Link, b: Link)
    requires TargetStep(h, render, a) && SameLink(b, a)
    ensures TargetStep(h, render, b)
  {
    hide MarkedAt, TargetEffect, IntText;
  }

  lemma {:induction false} RunLinksAreTargetSteps(h: Hasher, render: Value -> string, events: seq<Event>, sys: System)
    requires RunEnds(h, render, events, sys)
    ensures forall i :: 0 <= i < |sys.log| ==> TargetStep(h, render, sys.log[i])
    decreases |events|
  {
    if events == [] {
      var trace :| IsRun(h, render, events, trace) && trace[|events|] == sys;
    } else {
      hide RunEnds, TargetStep, AttemptResult, AttemptValues;
      var e := events[|events| - 1];
      var before := RunLastStep(h, render, events, sys);
      RunLinksAreTargetSteps(h, render, events[..|events| - 1], before);
      if e.Attempting? && AttemptResult(h, render, e.intent, e.decision, before.state, e.policy).Ok? {
        SuccessIsTargetStep(h, render, e.intent, e.decision, before.state, e.policy);
      }
    }
  }

  lemma SuccessIsTargetStep(h: Hasher, render: Value -> string, intent: Intent, d: Decision, state: State,
                            policy: Policy)
    requires AttemptResult(h, render, intent, d, state, policy).Ok?
    ensures TargetStep(h, render, LinkOf(state, intent, AttemptResult(h, render, intent, d, state, policy).value))
  {
    var execute := TargetExecutor(h, render);
    var l := LinkOf(state, intent, AttemptResult(h, render, intent, d, state, policy).value);
    SucceedsExactly(h, render, intent, d, state, policy);
    assert Materialize(h, l.intent, d, l.prior, policy, execute).Ok?;
    MaterializableExactly(h, l);
    hide Honest, Verified, Digest, StateDigest, IntentDigest, EffectDigest, TargetEffect, Guard, ExactPayload, IntText;
  }

  /** A history of such steps is replayed by deciding and materialising its intents one after the other. */
  lemma {:induction false} RunOf(h: Hasher, render: Value -> string, links: seq<Link>)
    returns (events: seq<Event>, sys: System)
    requires History(h, links)
    requires forall i :: 0 <= i < |links| ==> TargetStep(h, render, links[i])
    ensures RunEnds(h, render, events, sys) && SameHistory(links, sys.log) && sys.state == End(links)
  {
    if links == [] {
      NoEvents(h, render);
      events, sys := [], START;
    } else {
      hide RunEnds, TargetStep, History, Verified, StepOf, SameHistory, Replayed;
      var front, last := links[..|links| - 1], links[|links| - 1];
      HistoryPrefix(h, links);
      var before: System;
      events, before := RunOf(h, render, front);
      var e := Replayed(h, last);
      RunGoesOn(h, render, events, before, e);
      events, sys := events + [e], StepOf(h, render, before, e);
      StepReplays(h, render, before, last);
      SameHistoryGrows(links, before.log, sys.log);
    }
  }

  lemma SameHistoryGrows(links: seq<Link>, log: seq<Link>, after: seq<Link>)
    requires links != [] && SameHistory(links[..|links| - 1], log)
    requires |after| == |log| + 1 && after[..|log|] == log && SameLink(links[|links| - 1], after[|log|])
    ensures SameHistory(links, after)
  {
    hide SameLink;
    var front := links[..|links| - 1];
    forall i | 0 <= i < |log| ensures SameLink(links[i], after[i]) {
      assert SameLink(front[i], log[i]) && after[i] == after[..|log|][i];
    }
  }

  /** The attempt with a decision taken on the spot. */
  function Replayed(h: Hasher, l: Link): Event {
    var policy := Policy({l.intent.action});
    Attempting(l.intent, Decide(h, l.intent, l.prior, policy), policy)
  }

  lemma StepReplays(h: Hasher, render: Value -> string, sys: System, l: Link)
    requires Verified(h, l) && TargetStep(h, render, l) && sys.state == l.prior
    ensures var after := StepOf(h, render, sys, Replayed(h, l));
            && after.state == l.next
            && |after.log| == |sys.log| + 1 && after.log[..|sys.log|] == sys.log
            && SameLink(l, after.log[|sys.log|])
  {
    var policy := Policy({l.intent.action});
    var d := Decide(h, l.intent, l.prior, policy);
    DecideExact(h, l.intent, l.prior, policy);
    DecisionPassesGuard(h, l.intent, l.prior, policy);
    HonestIsPromoted(h, l);
    hide Verified, Digest, StateDigest, IntentDigest, EffectDigest, TargetEffect, Guard, ExactPayload, IntText,
         MarkedAt, ValidateIntent, AttemptValues, Promote, Decide;
    assert AttemptResult(h, render, l.intent, d, l.prior, policy) == Ok(Promote(h, l.prior, l.intent, l.effect));
  }
}
