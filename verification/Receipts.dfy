/** What receipts bind: single transitions, and through the chain of hashes the whole history. */
module Receipts {
  import opened Prelude
  import opened Json
  import opened JsonRoundTrip
  import opened Hashing
  import opened Markers
  import opened Checks
  import opened ControlPlane
  import opened Decisions

  // ----- Hashed values determine what they were built from

  lemma TextsInjective(xs: seq<string>, ys: seq<string>)
    requires Texts(xs) == Texts(ys)
    ensures xs == ys
  {
    assert |xs| == |Texts(xs).items| == |ys|;
    forall i | 0 <= i < |xs| ensures xs[i] == ys[i] {
      assert Texts(xs).items[i] == Texts(ys).items[i];
    }
  }

  lemma StateValueInjective(a: State, b: State)
    requires StateValue(a) == StateValue(b)
    ensures a == b
  {
    hide Obj;
    ObjInjective(StateFields(a), StateFields(b));
    TextsInjective(a.processed, b.processed);
  }

  lemma IntentValueInjective(a: Intent, b: Intent)
    requires IntentValue(a) == IntentValue(b)
    ensures a == b
  {
    hide Obj;
    ObjInjective(IntentFields(a), IntentFields(b));
  }

  lemma EffectValueInjective(a: Effect, b: Effect)
    requires EffectValue(a) == EffectValue(b)
    ensures a == b
  {
    hide Obj;
    ObjInjective(EffectFields(a), EffectFields(b));
  }

  lemma BaseValueInjective(a: ReceiptBase, b: ReceiptBase)
    requires BaseValue(a) == BaseValue(b)
    ensures a == b
  {
    hide Obj;
    ObjInjective(BaseFields(a), BaseFields(b));
  }

  // ----- One transition

  /** One step of a history, with the receipt that is to vouch for it. */
  datatype Link = Link(prior: State, intent: Intent, effect: Effect, receipt: Receipt, next: State)

  ghost predicate Verified(h: Hasher, l: Link) {
    VerifyTransition(h, l.prior, l.next, l.intent, l.receipt, l.effect).Ok?
  }

  /** The next state as the receipt saw it, still carrying the previous receipt hash. */
  function Unhashed(l: Link): State {
    l.next.(previousReceiptHash := l.prior.previousReceiptHash)
  }

  /** The values hashed when the link is verified. */
  function HashedValues(l: Link): set<Value> {
    { BaseValue(l.receipt.base), IntentValue(l.intent), StateValue(l.prior),
      StateValue(Unhashed(l)), EffectValue(l.effect) }
  }

  /** Same states, intent and effect, and the same receipt up to its unhashed id. */
  ghost predicate SameLink(a: Link, b: Link) {
    && a.prior == b.prior && a.intent == b.intent && a.effect == b.effect && a.next == b.next
    && a.receipt.base == b.receipt.base && a.receipt.receiptHash == b.receipt.receiptHash
  }

  /** Equal digests: the values are equal, or their encodings are a collision. */
  lemma SameValue(h: Hasher, v: Value, w: Value, xs: set<Value>, ys: set<Value>)
    requires Digest(h, v) == Digest(h, w)
    requires v in xs && w in ys
    ensures v == w || Collision(h, xs, ys)
  {
    if Encode(v) == Encode(w) {
      EncodeInjective(v, w);
    } else {
      assert Collides(h, v, w);
    }
  }

  /** A receipt hash binds the whole transition: no other one verifies under it. */
  lemma ReceiptBindsTransition(h: Hasher, a: Link, b: Link)
    requires Verified(h, a) && Verified(h, b)
    requires a.receipt.receiptHash == b.receipt.receiptHash
    ensures SameLink(a, b) || Collision(h, HashedValues(a), HashedValues(b))
  {
    hide Encode;
    var xs, ys := HashedValues(a), HashedValues(b);
    if !Collision(h, xs, ys) {
      SameValue(h, BaseValue(a.receipt.base), BaseValue(b.receipt.base), xs, ys);
      BaseValueInjective(a.receipt.base, b.receipt.base);
      SameValue(h, IntentValue(a.intent), IntentValue(b.intent), xs, ys);
      IntentValueInjective(a.intent, b.intent);
      SameValue(h, StateValue(a.prior), StateValue(b.prior), xs, ys);
      StateValueInjective(a.prior, b.prior);
      SameValue(h, EffectValue(a.effect), EffectValue(b.effect), xs, ys);
      EffectValueInjective(a.effect, b.effect);
      SameValue(h, StateValue(Unhashed(a)), StateValue(Unhashed(b)), xs, ys);
      StateValueInjective(Unhashed(a), Unhashed(b));
      assert a.next == Unhashed(a).(previousReceiptHash := Some(a.receipt.receiptHash));
      assert b.next == Unhashed(b).(previousReceiptHash := Some(b.receipt.receiptHash));
    }
  }

  function LinkOf(prior: State, intent: Intent, m: Materialized): Link {
    Link(prior, intent, m.effect, m.receipt, m.next)
  }

  /** What `materialize` returns always passes `verify_transition`, whatever the executor. */
  lemma MaterializedVerifies(h: Hasher, intent: Intent, decision: Decision, state: State, policy: Policy,
                             execute: Executor)
    ensures var r := Materialize(h, intent, decision, state, policy, execute);
            r.Ok? ==> Verified(h, LinkOf(state, intent, r.value))
  {
    hide Encode, IntText;
    var r := Materialize(h, intent, decision, state, policy, execute);
    if r.Ok? {
      var next := NextWithoutHash(state, intent);
      assert next.processed[|state.processed|] == intent.intentId;
      assert r.value.next.(previousReceiptHash := state.previousReceiptHash) == next;
    }
  }

  /**
   * Binding of honest receipts: the receipt of a successful `materialize` is accepted for that
   * transition, and a receipt that differs from it at most in its id is accepted for no other.
   */
  lemma HonestReceiptBinds(h: Hasher, intent: Intent, decision: Decision, state: State, policy: Policy,
                           execute: Executor, other: Link)
    requires Materialize(h, intent, decision, state, policy, execute).Ok?
    ensures var m := Materialize(h, intent, decision, state, policy, execute).value;
            var honest := LinkOf(state, intent, m);
            && Verified(h, honest)
            && (other.receipt.(receiptId := m.receipt.receiptId) == m.receipt && Verified(h, other) ==>
                  SameLink(honest, other) || Collision(h, HashedValues(honest), HashedValues(other)))
  {
    MaterializedVerifies(h, intent, decision, state, policy, execute);
    var m := Materialize(h, intent, decision, state, policy, execute).value;
    if other.receipt.(receiptId := m.receipt.receiptId) == m.receipt && Verified(h, other) {
      ReceiptBindsTransition(h, LinkOf(state, intent, m), other);
    }
  }

  // ----- What verification leaves open

  /** The hashed part of the only kind of receipt that can verify for a transition; its last field is free. */
  function BaseFor(h: Hasher, l: Link, previous: Option<string>): ReceiptBase {
    ReceiptBase(l.intent.intentId, IntentDigest(h, l.intent), StateDigest(h, l.prior), StateDigest(h, Unhashed(l)),
                l.prior.revision, l.prior.revision + 1, EffectDigest(h, l.effect), previous)
  }

  /**
   * A transition verifies under some receipt exactly when the revision advances by one, the next state
   * lists the intent, and the next state stores the hash of a receipt for it. Nothing else is asked.
   */
  lemma VerifiableExactly(h: Hasher, l: Link)
    ensures (exists r :: Verified(h, l.(receipt := r))) <==>
            && l.next.revision == l.prior.revision + 1
            && l.intent.intentId in l.next.processed
            && exists p :: l.next.previousReceiptHash == Some(Digest(h, BaseValue(BaseFor(h, l, p))))
  {
    hide Verified, Digest, BaseValue, StateDigest, IntentDigest, EffectDigest;
    if r :| Verified(h, l.(receipt := r)) {
      VerifiedBase(h, l.(receipt := r));
      var p := r.base.previousReceiptHash;
      assert BaseFor(h, l.(receipt := r), p) == BaseFor(h, l, p);
    }
    if && l.next.revision == l.prior.revision + 1 && l.intent.intentId in l.next.processed
       && exists p :: l.next.previousReceiptHash == Some(Digest(h, BaseValue(BaseFor(h, l, p)))) {
      var p :| l.next.previousReceiptHash == Some(Digest(h, BaseValue(BaseFor(h, l, p))));
      BaseVerifies(h, l, p);
      var r := Receipt("", BaseFor(h, l, p), Digest(h, BaseValue(BaseFor(h, l, p))));
      assert Verified(h, l.(receipt := r));
    }
  }

  lemma VerifiedBase(h: Hasher, l: Link)
    requires Verified(h, l)
    ensures l.next.revision == l.prior.revision + 1 && l.intent.intentId in l.next.processed
    ensures l.receipt.base == BaseFor(h, l, l.receipt.base.previousReceiptHash)
    ensures l.next.previousReceiptHash == Some(Digest(h, BaseValue(l.receipt.base)))
  {
    hide Digest;
  }

  lemma BaseVerifies(h: Hasher, l: Link, p: Option<string>)
    requires l.next.revision == l.prior.revision + 1 && l.intent.intentId in l.next.processed
    requires l.next.previousReceiptHash == Some(Digest(h, BaseValue(BaseFor(h, l, p))))
    ensures Verified(h, l.(receipt := Receipt("", BaseFor(h, l, p), Digest(h, BaseValue(BaseFor(h, l, p))))))
  {
    hide Digest;
  }

  /** The transition is one that `materialize` makes, with some decision, policy and executor. */
  ghost predicate Materializable(h: Hasher, l: Link) {
    exists d, p, e ::
      Materialize(h, l.intent, d, l.prior, p, e).Ok?
      && SameLink(LinkOf(l.prior, l.intent, Materialize(h, l.intent, d, l.prior, p, e).value), l)
  }

  /**
   * The intent was due, new and clean in the prior state; the effect is the one it asked for; the
   * processed list is extended by it, the checkpoint is the new one, and the receipt names the
   * receipt before it.
   */
  ghost predicate Honest(l: Link) {
    && l.intent.expectedRevision == l.prior.revision && l.intent.expectedCheckpoint == l.prior.checkpoint
    && l.intent.intentId !in l.prior.processed
    && (forall path :: !MarkedAt(SecretKey, Map(l.intent.payload), path))
    && l.effect.action == l.intent.action
    && l.effect.requested == l.intent.payload == l.effect.observed
    && l.next.processed == l.prior.processed + [l.intent.intentId]
    && l.next.checkpoint == CheckpointText(l.prior.revision + 1)
    && l.receipt.base.previousReceiptHash == l.prior.previousReceiptHash
  }

  /**
   * What `verify_transition` leaves open, and all of it: a transition is one that `materialize` makes
   * exactly when it verifies and is honest.
   */
  lemma MaterializableExactly(h: Hasher, l: Link)
    ensures Materializable(h, l) <==> Verified(h, l) && Honest(l)
  {
    hide Materializable, Verified, Honest;
    if Materializable(h, l) {
      MaterializedIsHonest(h, l);
    }
    if Verified(h, l) && Honest(l) {
      HonestIsMaterialized(h, l);
    }
  }

  lemma MaterializedIsHonest(h: Hasher, l: Link)
    requires Materializable(h, l)
    ensures Verified(h, l) && Honest(l)
  {
    var d, p, e :| Materialize(h, l.intent, d, l.prior, p, e).Ok?
      && SameLink(LinkOf(l.prior, l.intent, Materialize(h, l.intent, d, l.prior, p, e).value), l);
    MaterializedVerifies(h, l.intent, d, l.prior, p, e);
    MaterializeExact(h, l.intent, d, l.prior, p, e);
    var made := LinkOf(l.prior, l.intent, Materialize(h, l.intent, d, l.prior, p, e).value);
    SameLinkVerifies(h, made, l);
    hide Verified, Digest, StateDigest, IntentDigest, EffectDigest, MarkedAt, IntText, ValidateIntent;
  }

  /** Verification never looks at the id of the receipt. */
  lemma SameLinkVerifies(h: Hasher, a: Link, b: Link)
    requires SameLink(a, b) && Verified(h, a)
    ensures Verified(h, b)
  {
    hide Digest, StateDigest, IntentDigest, EffectDigest;
  }

  /** The decision taken in the prior state itself, and an executor that reports the very effect. */
  lemma HonestIsMaterialized(h: Hasher, l: Link)
    requires Verified(h, l) && Honest(l)
    ensures Materializable(h, l)
  {
    var d, p := Decide(h, l.intent, l.prior, Policy({l.intent.action})), Policy({l.intent.action});
    var e: Executor := (action, payload) => Ok(l.effect);
    DecideExact(h, l.intent, l.prior, p);
    MaterializeExact(h, l.intent, d, l.prior, p, e);
    HonestIsPromoted(h, l);
    hide Verified, Honest, Digest, StateDigest, IntentDigest, EffectDigest, MarkedAt, ValidateIntent, Promote;
    assert Materialize(h, l.intent, d, l.prior, p, e) == Ok(Promote(h, l.prior, l.intent, l.effect));
  }

  lemma HonestIsPromoted(h: Hasher, l: Link)
    requires Verified(h, l) && Honest(l)
    ensures SameLink(LinkOf(l.prior, l.intent, Promote(h, l.prior, l.intent, l.effect)), l)
  {
    VerifiedBase(h, l);
    VerifiedHead(h, l);
    hide Verified, Digest, StateDigest, IntentDigest, EffectDigest, MarkedAt, IntText;
    assert Unhashed(l) == NextWithoutHash(l.prior, l.intent);
  }

  /** A transition of the kind `materialize` never makes, with a receipt that fits it. */
  function OddLink(h: Hasher): Link {
    var bare := Link(
                  State(0, "ZERO", ["old", "i"], None),
                  Intent("i", 7, "elsewhere", "set_value", map["password" := Null]),
                  Effect("e", "delete", map["a" := Null], map["b" := Null]),
                  Receipt("", ReceiptBase("", "", "", "", 0, 0, "", None), ""),
                  State(1, "nowhere", ["i"], None));
    var base := BaseFor(h, bare, Some("unrelated"));
    var hash := Digest(h, BaseValue(base));
    bare.(receipt := Receipt("", base, hash), next := bare.next.(previousReceiptHash := Some(hash)))
  }

  /**
   * A transition that verifies although its intent is stale, a duplicate and carries a secret-like
   * key, its effect is another one and not what was read back, the processed list forgets an intent,
   * the checkpoint is not the new one, and the receipt names no receipt that came before.
   */
  lemma VerifiedButOdd(h: Hasher)
    ensures var l := OddLink(h);
            && Verified(h, l) && !Materializable(h, l)
            && l.intent.expectedRevision != l.prior.revision && l.intent.expectedCheckpoint != l.prior.checkpoint
            && l.intent.intentId in l.prior.processed
            && ContainsKey(SecretKey, Map(l.intent.payload))
            && l.effect.action != l.intent.action
            && l.effect.requested != l.intent.payload && l.effect.observed != l.intent.payload
            && l.effect.observed != l.effect.requested
            && !(l.prior.processed <= l.next.processed)
            && l.next.checkpoint != CheckpointText(l.prior.revision + 1)
            && l.receipt.base.previousReceiptHash != l.prior.previousReceiptHash
  {
    var l := OddLink(h);
    OddLinkVerifies(h);
    MaterializableExactly(h, l);
    hide Verified, Digest, Materializable, IntText, Lower;
    LowerFixed("password");
    var requested, observed := l.effect.requested, l.effect.observed;
    assert "password" in l.intent.payload && "password" !in requested && "password" !in observed;
    assert CheckpointText(1)[0] == 'R' && l.next.checkpoint[0] == 'n';
    assert "a" in requested && "a" !in observed;
    assert l.prior.processed[0][0] == 'o' && l.next.processed[0][0] == 'i' && l.prior.processed[1] == "i";
    assert l.effect.action[0] == 'd' && l.intent.action[0] == 's';
    assert l.intent.expectedCheckpoint[0] == 'e' && l.prior.checkpoint[0] == 'Z';
  }

  lemma OddLinkVerifies(h: Hasher)
    ensures Verified(h, OddLink(h))
  {
    hide Verified, Digest, BaseValue, StateDigest, IntentDigest, EffectDigest;
    var l := OddLink(h);
    assert Unhashed(l).previousReceiptHash == None;
    assert l.next.processed[0] == "i";
    assert BaseFor(h, l, Some("unrelated")) == l.receipt.base;
    BaseVerifies(h, l, Some("unrelated"));
    assert l.(receipt := l.receipt) == l;
  }

  /** What `verify_transition` asks for, in order. */
  ghost function VerifyChecks(h: Hasher, l: Link): seq<Check> {
    var b := l.receipt.base;
    [Check(l.receipt.receiptHash == Digest(h, BaseValue(b)), ReceiptHashMismatch),
     Check(b.intentId == l.intent.intentId && b.intentDigest == IntentDigest(h, l.intent), ReceiptIntentMismatch),
     Check(b.priorStateDigest == StateDigest(h, l.prior), ReceiptPriorStateMismatch),
     Check(b.fromRevision == l.prior.revision, ReceiptFromRevisionMismatch),
     Check(b.toRevision == l.prior.revision + 1, RevisionMustAdvanceOnce),
     Check(l.next.revision == l.prior.revision + 1, NextStateRevisionMismatch),
     Check(l.intent.intentId in l.next.processed, IntentMissingFromNextState),
     Check(l.next.previousReceiptHash == Some(l.receipt.receiptHash), ReceiptChainMismatch),
     Check(b.effectDigest == EffectDigest(h, l.effect), EffectDigestMismatch),
     Check(b.nextStateDigest == StateDigest(h, Unhashed(l)), ReceiptNextStateMismatch)]
  }

  /** Every refusal by `verify_transition` says which of its checks failed first. */
  lemma VerifyReasons(h: Hasher, l: Link)
    ensures DecidedBy(VerifyTransition(h, l.prior, l.next, l.intent, l.receipt, l.effect), VerifyChecks(h, l))
  {
    hide Digest, BaseValue, IntentDigest, StateDigest, EffectDigest;
    var k := VerifyChecks(h, l);
    assert [k[0], k[1], k[2], k[3], k[4], k[5], k[6], k[7], k[8], k[9]] == k;
    Decided(VerifyTransition(h, l.prior, l.next, l.intent, l.receipt, l.effect), k);
  }

  /** The checkpoint is the letter R and the decimal text of the revision, which `int` reads back. */
  lemma CheckpointReads(revision: int)
    ensures var text := CheckpointText(revision);
            text != "" && text[0] == 'R' && ReadInt(text[1..]) == Got(Num(revision), "")
  {
    ReadsInt(revision, "");
    hide ReadInt, IntText;
    assert CheckpointText(revision)[1..] == IntText(revision) == IntText(revision) + "";
  }

  /** The state and receipt that a successful `materialize` returns, apart from the digests verification checks. */
  lemma MaterializedReads(h: Hasher, intent: Intent, d: Decision, state: State, policy: Policy, execute: Executor)
    requires Materialize(h, intent, d, state, policy, execute).Ok?
    ensures var m := Materialize(h, intent, d, state, policy, execute).value;
            && m.next.checkpoint != "" && m.next.checkpoint[0] == 'R'
            && ReadInt(m.next.checkpoint[1..]) == Got(Num(state.revision + 1), "")
            && m.next.revision == state.revision + 1
            && m.next.processed == state.processed + [intent.intentId]
            && m.next.previousReceiptHash == Some(m.receipt.receiptHash)
            && m.receipt.base.fromRevision == state.revision && m.receipt.base.toRevision == state.revision + 1
            && Ok(m.effect) == execute(intent.action, intent.payload)
            && (|m.receipt.receiptHash| >= 16 ==> m.receipt.receiptId == "receipt-" + m.receipt.receiptHash[..16])
  {
    CheckpointReads(state.revision + 1);
    hide Guard, ReadInt, CheckpointText, Digest, StateDigest, IntentDigest, EffectDigest;
  }

  // ----- Histories

  /** A history from the initial state in which every link verifies and starts where the last one ended. */
  ghost predicate History(h: Hasher, links: seq<Link>) {
    && (forall i :: 0 <= i < |links| ==> Verified(h, links[i]))
    && (links != [] ==> links[0].prior == INITIAL)
    && (forall i, j :: 0 <= i && j == i + 1 && j < |links| ==> links[j].prior == links[i].next)
  }

  function End(links: seq<Link>): State {
    if links == [] then INITIAL else links[|links| - 1].next
  }

  function Head(links: seq<Link>): Option<string> {
    End(links).previousReceiptHash
  }

  function AllValues(links: seq<Link>): set<Value> {
    if links == [] then {} else AllValues(links[..|links| - 1]) + HashedValues(links[|links| - 1])
  }

  ghost predicate SameHistory(a: seq<Link>, b: seq<Link>) {
    |a| == |b| && forall i :: 0 <= i < |a| ==> SameLink(a[i], b[i])
  }

  lemma VerifiedHead(h: Hasher, l: Link)
    requires Verified(h, l)
    ensures l.next.previousReceiptHash == Some(l.receipt.receiptHash)
  {
    hide Digest;
  }

  lemma HistoryPrefix(h: Hasher, links: seq<Link>)
    requires History(h, links) && links != []
    ensures var last := links[|links| - 1];
            && History(h, links[..|links| - 1])
            && Verified(h, last) && last.prior == End(links[..|links| - 1])
            && Head(links) == Some(last.receipt.receiptHash)
  {
    VerifiedHead(h, links[|links| - 1]);
    hide Verified;
  }

  /** Equal heads of nonempty histories: equal last links, so equal heads one step earlier. */
  lemma LastLinksAgree(h: Hasher, a: seq<Link>, b: seq<Link>)
    requires History(h, a) && History(h, b) && a != [] && b != []
    requires Head(a) == Head(b)
    ensures Collision(h, AllValues(a), AllValues(b)) ||
            (SameLink(a[|a| - 1], b[|b| - 1]) && Head(a[..|a| - 1]) == Head(b[..|b| - 1]))
  {
    hide History, Verified, HashedValues, Collision;
    HistoryPrefix(h, a);
    HistoryPrefix(h, b);
    var x, y := a[|a| - 1], b[|b| - 1];
    ReceiptBindsTransition(h, x, y);
    if Collision(h, HashedValues(x), HashedValues(y)) {
      Widen(h, HashedValues(x), HashedValues(y), AllValues(a), AllValues(b));
    }
  }

  /** The head hash of a history commits to all of it: its length, states, intents and effects. */
  lemma {:induction false} HeadCommitsToHistory(h: Hasher, a: seq<Link>, b: seq<Link>)
    requires History(h, a) && History(h, b)
    requires Head(a) == Head(b)
    ensures SameHistory(a, b) || Collision(h, AllValues(a), AllValues(b))
    decreases |a|
  {
    hide Verified, HashedValues, History, Collision;
    if a != [] { HistoryPrefix(h, a); }
    if b != [] { HistoryPrefix(h, b); }
    if a != [] && b != [] && !Collision(h, AllValues(a), AllValues(b)) {
      LastLinksAgree(h, a, b);
      var a', b' := a[..|a| - 1], b[..|b| - 1];
      HeadCommitsToHistory(h, a', b');
      if Collision(h, AllValues(a'), AllValues(b')) {
        Widen(h, AllValues(a'), AllValues(b'), AllValues(a), AllValues(b));
      }
    }
  }

  lemma Widen(h: Hasher, xs: set<Value>, ys: set<Value>, xs': set<Value>, ys': set<Value>)
    requires Collision(h, xs, ys) && xs <= xs' && ys <= ys'
    ensures Collision(h, xs', ys')
  {
    var a, b :| a in xs && b in ys && Collides(h, a, b);
    assert a in xs' && b in ys';
  }
}
