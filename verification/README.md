# Verification of the agent control plane

A Dafny model of the control plane's protocol and of the layers on it, with proofs of what holds
of every input, every run and every history. `dafny verify dfyconfig.toml` checks it.

| files | what they model |
|---|---|
| `Prelude`, `Lists`, `Ordering` | exceptions as `Result`, comprehensions, Python's order on strings and tuples, the stable `sorted` |
| `Checks` | chains of guards: which error of a chain is reported |
| `Json`, `JsonRoundTrip`, `JsonText` | `_stable_json`, its exact text, and a reader for JSON texts that is proved to read back everything it encodes |
| `JsonGrammar` | the grammar of RFC 8259 (sections 2, 4, 5, 6 and 7), and that the reader accepts exactly its texts |
| `Formats` | the member names of every dict that is hashed or written |
| `Hashing` | SHA-256 as an unknown function on texts, and what a collision is |
| `Markers` | the scans for credential-like keys |
| `ControlPlane`, `Decisions`, `Receipts` | states, intents, decisions, receipts; decide, materialize, verify; what receipts bind |
| `Target`, `Runs` | the in-memory target as a class, and all interleavings of deciding and materialising |
| `Security`, `SecurityProofs`, `SecurityReasons`, `SecureRuns` | the authorisation function, its digests, receipts and reasons, and secure runs as a refinement of core runs |
| `Reconciler`, `ReconcilerProofs` | the claim reconciler |
| `CanonicalProblem`, `CanonicalProblemProofs`, `CanonicalProblemReasons` | the problem state, its JSON form, `advance` chains, and its errors |

How to read the statements:

- The hash `h` is a parameter of every operation, and no result assumes anything of it. Where a
  collision-free hash is needed, the result reads "this holds, or `Collision(h, xs, ys)`": two values,
  one from each of two given finite sets of values that were actually hashed, have different
  encodings with the same hash. The UTF-8 encoding is part of `h`; a Dafny `string` holds Unicode scalar values, so it is
  a Python `str` that can be encoded.
- A dict is a `map`. Insertion order matters neither for dict equality nor for `_stable_json`.
- An exception is `Err` with an error named after the text the source raises. The executor callback is a function in the
  lemmas about any executor, and the object `InMemoryTarget` in the methods.
- Which error a chain of guards reports is stated as `DecidedBy(result, checks)`: the result is Ok exactly when all
  of the listed conditions hold, and an error exactly when that of the first one that does not.
- `render` and `Coercions` stand for what Python makes of values of an unexpected type (`str(5)`,
  `int("7")`, `tuple("ab")`); clocks are arguments. All results hold for every choice of these.

What the proofs say about the repository's own claims:

- `verify_transition` asks less than `materialize` guarantees. The intent need not have been due, new or
  free of secret-like keys in the prior state; the effect need not have the action of the intent, nor its
  payload as request or readback; the processed list need not extend the old one; the checkpoint need not be the
  new one; and the receipt need not name the receipt before it. `VerifiedButOdd` is one transition that verifies
  and breaks all of these; `MaterializableExactly` says that this is all that is left open: a transition is one
  that `materialize` makes exactly when it verifies and meets these conditions. For whole histories,
  `VerifiedHistoryIsRunExactly` says which verified ones are logs of runs, and `VerifiedHistoryIsTheRun` that
  those with the head hash of a run are, unless there is a collision.
- `verify_security_transition` compares digests and never evaluates authority: `VerifiedWithoutAuthority` is a
  successful attempt that verifies in a context authorised at no epoch, under the receipt built for it.
  `SecurelyMaterializableExactly` says what else it takes to have come from `secure_materialize`: an honest transition
  and a context authorised at the receipt's epoch.
- "Readback before success" does not mean a rejected attempt leaves no trace: the target writes before
  the readback check. `RejectionChangesTargetExactly` says exactly when, `RejectedButWritten` how.
- The policy digest is order-independent except for grants or anchors that differ only in an absent
  versus empty tenant or requester field (`PolicyOrderIndependence`, `GrantsTie`, `AnchorsTie`, `PolicyOrderCanMatter`).
- The documented conflict policy of the reconciler says that disagreeing verified canonical sources produce CONFLICT.
  They do while both are fresh and carry evidence, and in general exactly when the fresh, evidenced ones among the
  verified canonical claims do not settle the group (`DisagreementConflictsExactly`; over all groups
  `ConflictExactly`). A source without evidence gives way (`UnevidencedSourceGivesWay`), and ageing can settle a
  conflict by itself (`ConflictResolvesExactly`, `ConflictSettledByAgeing`).
- "Stale evidence produces STALE" holds of a group exactly when it has one value and its first top-ranked claim is
  stale (`StaleExactly`). A group with several values is never STALE,
  whatever stale evidence it holds, and can be ACTIVE (`StaleEvidenceNotStale`); a group can be STALE while it
  holds fresh, verified evidence (`StaleDespiteFreshEvidence`). What is selected is always fresh (`ActiveIsGrounded`).
- The status of a group with one value can depend on the order of the claims (`SingleValuedOrderCanMatter`);
  `ReportStatusOrderIndependence` says exactly when no status of a report does.
- The message of `Evidence.validate` asks for 64 hexadecimal digits; the code looks at prefix and length only
  (`EvidenceExact`), and accepts a digest without any such digit (`DigestNeedNotBeHex`).

## Model

| member | source | states |
|---|---|---|
| JsonRoundTrip.RoundTrip | src/verifiable_agent_control_plane/core.py:9-10 | Reading the encoding of any nested value, with any white space around it, gives exactly that value back: escapes, integers of any size, lists and string-keyed dicts. |
| JsonRoundTrip.EncodeInjective | src/verifiable_agent_control_plane/core.py:9-14 | Equal encodings mean equal values, so a digest is a digest of the value, whatever its key order was. |
| JsonRoundTrip.EncodePrefixFree | src/verifiable_agent_control_plane/core.py:9-10 | An encoded value ends where it ends: followed by anything that cannot lengthen a number (nothing, or a character other than a digit, `.`, `e`, `E`), no other value's encoding with such a continuation spells the same text. |
| JsonGrammar.ReadsExactly | src/verifiable_agent_control_plane/canonical.py:169-177 | The reader of JSON texts accepts exactly the texts of the grammar, with any spaces, spellings of characters and order or repetition of members, and reads each as the value it is a text of (numbers without fraction and exponent). |
| JsonText.ListText | src/verifiable_agent_control_plane/core.py:9-10 | A list is its items between brackets, joined by a comma and nothing else. |
| JsonText.MapText | src/verifiable_agent_control_plane/core.py:9-10 | A dict is its members between braces in the order of their keys, each a quoted key, a colon and a value, joined by a comma and nothing else. |
| JsonText.StringText | src/verifiable_agent_control_plane/core.py:9-10 | A string is its characters between quotation marks, each escaped on its own. |
| JsonText.EscapeText | src/verifiable_agent_control_plane/core.py:9-10 | Which characters are escaped and how: seven by a letter, other controls by a lower-case number, all others as they are. |
| Ordering.TextLeExact | src/verifiable_agent_control_plane/core.py:10 | The comparison of strings is the order by code point, stated by prefix and first difference. |
| Ordering.KeyLeExact | src/verifiable_agent_control_plane/security.py:190-210 | The comparison of tuples is lexicographic over that order. |
| Ordering.ListingIs | src/verifiable_agent_control_plane/security.py:30-31 | A strictly increasing list with the elements of a set is the only listing of it. |
| Formats.StateDict | src/verifiable_agent_control_plane/core.py:46-55 | The members of the hashed state, by name. |
| Formats.IntentDict | src/verifiable_agent_control_plane/core.py:66-76 | The members of the hashed intent, by name. |
| Formats.EffectDict | src/verifiable_agent_control_plane/core.py:103-112 | The members of the hashed effect, by name. |
| Formats.ReceiptDict | src/verifiable_agent_control_plane/core.py:137-146 | The members of the hashed receipt base, by name. |
| Formats.PolicyDict | src/verifiable_agent_control_plane/security.py:211-217 | The members of the hashed policy, by name; the other records of the layer have such lemmas too. |
| Formats.SecurityReceiptDict | src/verifiable_agent_control_plane/security.py:259-270 | The members of the hashed security receipt base, by name. |
| Formats.ProblemDict | src/verifiable_agent_control_plane/canonical.py:188-213 | The members of the written problem state, by name. |
| Ordering.SortedSetIncreasing | src/verifiable_agent_control_plane/core.py:10 | `sort_keys` lists the keys strictly increasing: at the first difference the lower code point comes first, and a proper prefix before its extension. |
| Markers.ScanIsExact | src/verifiable_agent_control_plane/core.py:28-36 | The recursive scan reports a value exactly when some path into it ends at a dict with a marked key, at any depth. |
| Markers.SecretKeyExact | src/verifiable_agent_control_plane/core.py:17-31 | The refused payload keys are exactly the case variants of the eight markers (with the Kelvin sign for k). |
| Markers.ForbiddenKeyExact | src/verifiable_agent_control_plane/canonical.py:25-35 | The forbidden keys are exactly the case variants of the nine markers, with hyphens allowed for underscores. |
| Decisions.DecideExact | src/verifiable_agent_control_plane/core.py:172-202 | A decision accepts exactly the intents that name the current revision and checkpoint, are new, allowlisted and free of secret-like keys at every depth. |
| Decisions.DecisionReason | src/verifiable_agent_control_plane/core.py:185-202 | A decision carries the digests of its intent and state, and as reason the first of the five guards that fails. |
| Decisions.MaterializeExact | src/verifiable_agent_control_plane/core.py:205-228 | With any executor, materialising succeeds exactly when the decision binds this intent and state, the intent is still acceptable, and request and readback both equal the payload. |
| Decisions.MaterializeReasons | src/verifiable_agent_control_plane/core.py:213-228 | A rejection by `materialize` gives the error of the first check that fails, in the order binding, intent, executor, readback. |
| Decisions.DecisionPassesGuard | src/verifiable_agent_control_plane/core.py:185-220 | In the state it was taken in, a decision passes revalidation exactly when it accepted. |
| Receipts.MaterializedVerifies | src/verifiable_agent_control_plane/core.py:230-281 | Whatever `materialize` returns, with any executor, passes `verify_transition`. |
| Receipts.MaterializedReads | src/verifiable_agent_control_plane/core.py:230-246 | A success advances the revision by one, appends the intent, makes the checkpoint R followed by a text that reads as the new revision, and names the receipt by the first sixteen characters of its hash. |
| Receipts.VerifyReasons | src/verifiable_agent_control_plane/core.py:257-281 | A refusal by `verify_transition` gives the error of the first of its ten checks that fails. |
| Receipts.ReceiptBindsTransition | src/verifiable_agent_control_plane/core.py:115-165 | Two verified transitions with the same receipt hash have the same prior state, next state, intent, effect and receipt up to its id, or there is a collision. |
| Receipts.HonestReceiptBinds | src/verifiable_agent_control_plane/core.py:205-281 | The receipt of a successful `materialize` verifies for that transition and, even with its id changed, for no other, or there is a collision. |
| Receipts.VerifiableExactly | src/verifiable_agent_control_plane/core.py:257-281 | A transition verifies under some receipt exactly when the revision advances by one, the next state lists the intent, and it stores the hash of a receipt for just this transition whose previous-hash field is free. |
| Receipts.MaterializableExactly | src/verifiable_agent_control_plane/core.py:205-281 | A transition is one that `materialize` makes, for some decision, policy and executor, exactly when it verifies, its intent was due, new and free of secret-like keys, its effect is the one asked for and read back, the processed list is extended, the checkpoint is the new one and the receipt names the one before. |
| Receipts.VerifiedButOdd | src/verifiable_agent_control_plane/core.py:249-281 | A concrete transition that verifies and breaks every one of these conditions. |
| Receipts.HeadCommitsToHistory | src/verifiable_agent_control_plane/core.py:249-281 | Two verified histories from the initial state, of any lengths, with the same head hash have the same length and the same states, intents and effects at each step, or there is a collision. |
| Target.InMemoryTarget.Execute | src/verifiable_agent_control_plane/core.py:290-302 | The object's method in terms of the payload: what it writes, what it reads back, and which error it raises without writing. |
| Target.MaterializeOn | src/verifiable_agent_control_plane/core.py:205-246 | `materialize` on the target object: the result and the values left behind in every case; a success leaves the value of the payload under its key and all else as it was. |
| Target.SucceedsExactly | src/verifiable_agent_control_plane/core.py:213-302 | Against this target an attempt succeeds exactly when the guard passes, the action is `set_value` and the payload is exactly a string key and a value. |
| Target.SuccessWrites | src/verifiable_agent_control_plane/core.py:290-302 | After a successful attempt the target is the old one with the value of the payload under the key of the payload. |
| Target.EffectId | src/verifiable_agent_control_plane/core.py:297-299 | The effect id is made of the hash of the action and the observed pair. |
| Target.RejectionChangesTargetExactly | src/verifiable_agent_control_plane/core.py:220-228 | A rejected attempt changes the target exactly when the guard passed and a new value was written under a payload the readback refused; every rejection before `execute` leaves it unchanged. |
| Target.RejectedButWritten | src/verifiable_agent_control_plane/core.py:290-302 | A concrete payload whose attempt is rejected after it has changed the target. |
| Runs.RunsAreConsistent | src/verifiable_agent_control_plane/core.py:230-246 | Over every run: the state ends a verified history; revision, processed intents and receipts count alike; intents are distinct; the checkpoint follows the revision; one intent per revision; every logged intent was exact and clean; kept decisions are bound to the state they saw. |
| Runs.ExactlyOnce | src/verifiable_agent_control_plane/core.py:177-178 | In any interleaving no intent id and no revision materialises twice, and later processed lists extend earlier ones. |
| Runs.NoStaleExecution | src/verifiable_agent_control_plane/core.py:213-220 | A decision taken in a run gets past the guard to the executor only for its own intent and only if nothing was materialised since, or there is a collision. |
| Runs.KeptDecisionExecutesExactly | src/verifiable_agent_control_plane/core.py:205-228 | A kept decision still executes for its intent and policy exactly when it accepted, nothing was materialised since and the target can take the payload, or there is a collision. |
| Runs.CheckpointDeterminesRevision | src/verifiable_agent_control_plane/core.py:39-44 | In reachable states checkpoint and revision determine each other. |
| Runs.CheckpointIsRevision | src/verifiable_agent_control_plane/core.py:39-44 | In every run the checkpoint is ZERO at revision 0, and afterwards R followed by a text that reads as the number of receipts. |
| Runs.TargetIsReplay | src/verifiable_agent_control_plane/core.py:284-302 | In every run whose payloads are exact (or miss a key), with any number of rejected attempts, the target equals the replay of the log in receipt order. |
| Runs.TargetHoldsLastWrites | src/verifiable_agent_control_plane/core.py:284-302 | In such runs a key is in the target exactly when a materialised intent wrote it, and its value is that of the last one that did. |
| Runs.HeadCommitsToRun | src/verifiable_agent_control_plane/core.py:249-281 | Two runs with the same stored receipt hash materialised the same intents with the same effects through the same states, and if all payloads of both are exact (or miss a key) left the same target, or there is a collision. |
| Runs.VerifiedHistoryIsTheRun | src/verifiable_agent_control_plane/core.py:249-281 | Any verified history with the head hash of a run is that run's log, and keeps the reachable-state invariant, one intent per revision, and exact clean intents, or there is a collision. |
| Runs.VerifiedHistoryIsRunExactly | src/verifiable_agent_control_plane/core.py:205-302 | A verified history is, up to receipt ids, the log of some run against the target exactly when every link is honest and its effect is what the target reports for a payload of a string key and a value. |
| SecurityProofs.PolicyOrderIndependence | src/verifiable_agent_control_plane/security.py:188-217 | The hashed policy is the same for every order of grants and anchors exactly when no two different ones have the same sort key. |
| SecurityProofs.GrantsTie | src/verifiable_agent_control_plane/security.py:190-198 | Two grants have the same sort key exactly when they differ at most in a tenant that is None in one and empty in the other. |
| SecurityProofs.AnchorsTie | src/verifiable_agent_control_plane/security.py:199-210 | Two anchors have the same sort key exactly when they differ at most in requester fields that are None in one and empty in the other. |
| SecurityProofs.GrantOrder | src/verifiable_agent_control_plane/security.py:190-198 | Hashed grants are ordered by principal, then action, then tenant with None as empty, then resources. |
| SecurityProofs.AnchorOrder | src/verifiable_agent_control_plane/security.py:199-210 | Hashed anchors are ordered by verifier, its tenant, action, intent, verification, requester and its tenant. |
| SecurityProofs.ProvenanceOrder | src/verifiable_agent_control_plane/security.py:102-111 | Hashed provenance is ordered by artifact id, then digest. |
| Formats.ProvenanceListing | src/verifiable_agent_control_plane/security.py:101-112 | The hashed provenance is one entry per artifact, with its id and the digest of the artifact, in that order. |
| SecurityProofs.PolicyOrderCanMatter | src/verifiable_agent_control_plane/security.py:195 | A concrete policy whose digest input changes when its grants are listed in another order. |
| SecurityProofs.PolicyValueBinds | src/verifiable_agent_control_plane/security.py:211-217 | Equal hashed policies have the same grants and anchors with multiplicity and the same approval-required actions. |
| SecurityProofs.ProvenanceOrderIndependent | src/verifiable_agent_control_plane/security.py:101-112 | The provenance digest never depends on the order of the artifacts. |
| SecurityProofs.ProvenanceBinds | src/verifiable_agent_control_plane/security.py:88-112 | Equal hashed provenance means the same artifacts with the same multiplicities, or there is a collision. |
| Ordering.SortOrderIndependent | src/verifiable_agent_control_plane/security.py:190-210 | A sort by key gives one result for all permutations exactly when no two different entries tie; proved from stability and uniqueness of sorted permutations. |
| SecurityProofs.AcceptsExactly | src/verifiable_agent_control_plane/security.py:324-401 | The guard chain accepts exactly when one tenant-matching grant and a live delegation cover action and resources and, if required, an anchored approval by an independent verifier exists. |
| SecurityReasons.VerdictReasons | src/verifiable_agent_control_plane/security.py:324-401 | The refusal reason: the verdict is the error of the first of the twenty-odd conditions on grants, delegation, approval, verifier and anchor that fails. |
| SecurityReasons.EvaluationReason | src/verifiable_agent_control_plane/security.py:307-322 | The security decision carries that reason, its intent id and epoch, and the digest of each part of the context. |
| SecurityProofs.EquivalentVerdict | src/verifiable_agent_control_plane/security.py:324-401 | Contexts equal up to the order of grants, anchors and artifacts get the same verdict and the same reason at every epoch. |
| SecurityProofs.DecisionBindsContext | src/verifiable_agent_control_plane/security.py:307-322 | Decisions with equal digests were taken in equivalent contexts, or there is a collision. |
| SecurityProofs.EqualDigestsEqualVerdict | src/verifiable_agent_control_plane/security.py:294-401 | Equal digests imply the same verdict and reason at the same epoch, or there is a collision. |
| SecurityProofs.AuthorityIsMonotone | src/verifiable_agent_control_plane/security.py:354-362 | An accepted context stays accepted earlier, for any nonempty subset of its resources, and with any other context artifacts. |
| SecurityProofs.VerdictOverTime | src/verifiable_agent_control_plane/security.py:354-358 | As the epoch grows a verdict, refusals included, changes at most once, to an expired delegation. |
| SecurityProofs.BoundaryExact | src/verifiable_agent_control_plane/security.py:421-447 | The check before the effect passes exactly when the context is authorised now and the decision is what this very context gets at the decision's own, not later, epoch. |
| SecurityReasons.BoundaryReasons | src/verifiable_agent_control_plane/security.py:421-447 | A refusal at the effect boundary gives the first failure: rejected decision, epoch rollback, no longer accepted (with the reason), drift. |
| SecurityReasons.SecureMaterializeReasons | src/verifiable_agent_control_plane/security.py:421-460 | A rejected `secure_materialize` gives the first failure at the boundary or in `materialize`. |
| SecurityProofs.DriftCheckIsSound | src/verifiable_agent_control_plane/security.py:442-447 | Only contexts equivalent to the one decided on get past the drift check, or there is a collision. |
| SecurityProofs.NoAcceptanceGap | src/verifiable_agent_control_plane/security.py:421-447 | What gets past the check was authorised at the decision's epoch, now, and at every epoch between. |
| SecurityProofs.SecuredVerifies | src/verifiable_agent_control_plane/security.py:449-510 | Whatever `secure_materialize` returns verifies at its own epoch, which is not before the decision's. |
| SecurityProofs.SecurityVerifiesExactly | src/verifiable_agent_control_plane/security.py:463-510 | Security verification passes exactly when the transition verifies and the security receipt is, up to its id, the one built for it from the evaluation of this context at this epoch, whatever its verdict. |
| SecurityReasons.VerifySecurityReasons | src/verifiable_agent_control_plane/security.py:463-510 | A refusal by `verify_security_transition` gives the error of the first check that fails, those of the transition first. |
| SecurityProofs.SecurelyMaterializableExactly | src/verifiable_agent_control_plane/security.py:404-510 | A transition and security receipt are, up to ids, what some call of `secure_materialize` makes exactly when they verify, the transition is honest and the context is authorised at the epoch. |
| SecureRuns.VerifiedWithoutAuthority | src/verifiable_agent_control_plane/security.py:463-510 | A concrete successful attempt that passes security verification at every epoch in a context authorised at none. |
| SecurityProofs.SecurityReceiptBinds | src/verifiable_agent_control_plane/security.py:463-510 | Under one security receipt hash two verifications succeed only for the same transition, equivalent contexts and the same epoch, or there is a collision. |
| SecureRuns.SecureMaterializeOn | src/verifiable_agent_control_plane/security.py:404-460 | `secure_materialize` on the target object: the result and the values left behind in every case. |
| SecureRuns.SecureRunRefinesRun | src/verifiable_agent_control_plane/security.py:449-455 | A secure run is, at every step, the core run of exactly its core decisions and the calls the security check let through in the state they met. |
| SecureRuns.SecureRunsAreConsistent | src/verifiable_agent_control_plane/security.py:404-460 | Secure runs inherit the reachable-state invariant, one intent per revision, exact clean intents, and core decisions bound to the state they saw. |
| SecureRuns.SecureTargetIsReplay | src/verifiable_agent_control_plane/security.py:449-455 | In every secure run whose payloads are exact (or miss a key), the target equals the replay of the log. |
| SecureRuns.SecureTargetHoldsLastWrites | src/verifiable_agent_control_plane/security.py:449-455 | In such runs the target holds exactly the keys written by materialised intents, each with the value written last. |
| SecureRuns.NoStaleAuthority | src/verifiable_agent_control_plane/security.py:421-447 | A security decision kept in a run lets a call through only in a context equivalent to the one evaluated, with nothing materialised since, and while that context is authorised, or there is a collision. |
| SecureRuns.KeptDecisionsExecuteExactly | src/verifiable_agent_control_plane/security.py:404-460 | A call with a kept core decision and a kept evaluation of its intent succeeds exactly when nothing was materialised since either, the decision accepted, the context is authorised at an epoch not before the evaluation, and the target can take the payload, or there is a collision. |
| SecureRuns.ExecutionHasAuthority | src/verifiable_agent_control_plane/security.py:421-455 | Whenever the executor is reached, even by an attempt that then fails, the current context is authorised; otherwise state and target stay as they were. |
| SecureRuns.EverySecureStepIsAudited | src/verifiable_agent_control_plane/security.py:404-460 | In every secure run each materialised intent has a decision that is its context's own evaluation, a context authorised at every epoch from decision to effect, and a security receipt that verifies for that step. |
| Reconciler.Settings.GroupClaims | ukrl.py:76-86 | The first loop: each bucket is the order-preserving filter of the input by key, keys in order of first appearance, anomalies in input order. |
| Reconciler.Settings.Reconcile | ukrl.py:72-127 | The second loop: one resolution per group, in sorted key order, of exactly that group's claims. |
| ReconcilerProofs.SortedGroupsExact | ukrl.py:86-89 | The resolved groups are exactly the distinct (subject, predicate) pairs of the input, strictly increasing by subject and then predicate, by code point. |
| ReconcilerProofs.FirstMaxExact | ukrl.py:99-118 | The selected element is maximal and the first of the maximal ones. |
| ReconcilerProofs.BelowExact | ukrl.py:99-118 | What the two selections compare, in claim fields: rank first (0 for an unknown authority), then, for groups with one value, verified before unverified, then the later time. |
| ReconcilerProofs.TopExists | ukrl.py:115-118 | Every bucket has exactly one claim that is the first above which there is none in this sense. |
| ReconcilerProofs.FreshExact | ukrl.py:96-119 | A claim is fresh exactly when the limit is not negative and the claim at most that many days old. |
| ReconcilerProofs.DecisiveExact | ukrl.py:93-97 | A claim may settle a disagreement exactly when its source is canonical and it is verified, with nonempty evidence, and fresh. |
| ReconcilerProofs.MakeExact | ukrl.py:68-70 | The ranks in force: the given ones, or the three defaults if none or an empty ranking is given. |
| ReconcilerProofs.MultiValuedExact | ukrl.py:91-113 | A group with several values is active exactly when its fresh, verified, evidenced canonical claims exist and carry one value; then the first of those above which there is none (rank, then time) is selected and the conflicts are the claims that differ in id and value; otherwise it is a conflict of the whole bucket. |
| ReconcilerProofs.SingleValuedExact | ukrl.py:115-125 | A group with one value is stale, active or unverified exactly as its first top-ranked claim (rank, then verification, then time) is stale, fresh with verification and evidence, or neither. |
| ReconcilerProofs.StaleExactly | ukrl.py:89-121 | Over all groups, STALE is exactly a group with one value whose first top-ranked claim is stale. |
| ReconcilerProofs.StaleEvidenceNotStale | ukrl.py:92-107 | A concrete group with stale evidence that is active. |
| ReconcilerProofs.StaleDespiteFreshEvidence | ukrl.py:115-121 | A concrete stale group that holds fresh, verified, evidenced evidence. |
| ReconcilerProofs.ConflictExactly | ukrl.py:89-113 | Over all groups, CONFLICT is exactly a group with several values whose fresh, verified, evidenced canonical claims are none, or disagree. |
| ReconcilerProofs.DisagreementConflictsExactly | ukrl.py:92-113 | Two claims that disagree make their group a conflict exactly when its decisive claims do not settle it, and always when both are decisive. |
| ReconcilerProofs.UnevidencedSourceGivesWay | ukrl.py:93-98 | Two concrete fresh, verified canonical claims that disagree in a group that is active, since one has no evidence. |
| ReconcilerProofs.ActiveIsGrounded | ukrl.py:89-125 | Every active selection is an input claim of its group that is verified, evidenced and fresh, and nothing else is selected. |
| ReconcilerProofs.ResolutionNamesGroup | ukrl.py:89-125 | A resolution names the subject and predicate that its claims have and all such input claims are considered; its rationale is the one of its status. |
| ReconcilerProofs.ReportOrderIndependent | ukrl.py:76-127 | Permuting the claims keeps the groups in place and, for groups with several values, status and selected value; with identifying ids it only permutes conflicts. |
| ReconcilerProofs.SelectedOrderIndependence | ukrl.py:99-102 | In an active group with several values the selected claim itself is order-independent exactly when only one decisive claim is top-ranked. |
| ReconcilerProofs.ReportStatusOrderIndependence | ukrl.py:76-127 | All statuses of the report are order-independent exactly when every group has several values, or top-ranked claims that are idle or agree on having evidence. |
| ReconcilerProofs.SingleValuedOrderIndependence | ukrl.py:115-125 | The status of a group with one value is order-independent exactly when its top-ranked claims are idle or agree on having evidence. |
| ReconcilerProofs.SingleValuedOrderCanMatter | ukrl.py:115-125 | Two concrete claims of one value whose group is active in one order and unverified in the other. |
| ReconcilerProofs.OnlyCanonicalClaimsDecide | ukrl.py:92-102 | Groups with several values and the same canonical-source claims get the same status and selected claim, whatever else they hold and wherever. |
| ReconcilerProofs.AddedSecondaryClaims | ukrl.py:92-107 | Adding any number of non-canonical claims leaves an active group with several values and its selection as they are and only appends the disputing ones to its conflicts. |
| ReconcilerProofs.SingleValuedOnlyStales | ukrl.py:119-125 | As time passes a group with one value can become stale, never leave it, and change in no other way. |
| ReconcilerProofs.MultiValuedNeverSwitches | ukrl.py:92-113 | As time passes an active group with several values keeps its value, or becomes a conflict exactly when all decisive claims have aged. |
| ReconcilerProofs.ConflictResolvesExactly | ukrl.py:92-113 | A conflict becomes active later exactly when ageing has removed decisive claims so that the rest carry one value. |
| ReconcilerProofs.ConflictSettledByAgeing | ukrl.py:92-113 | A concrete conflict between verified canonical claims that is active twenty days later. |
| ReconcilerProofs.AnomaliesExact | ukrl.py:78-85 | An anomaly is reported exactly when some input claim has it. |
| ReconcilerProofs.AnomaliesInOrder | ukrl.py:78-85 | Anomalies are listed claim by claim in input order. |
| ReconcilerProofs.AnomaliesOfOne | ukrl.py:79-85 | Those of one claim: authority, evidence, age, in this order and each at most once. |
| ReconcilerProofs.GateExact | ukrl.py:49-54 | The counts partition the report, and the fail-closed gate passes exactly when every resolution is active. |
| CanonicalProblemProofs.ValidateExact | src/verifiable_agent_control_plane/canonical.py:76-130 | `validate` passes exactly the sound states: field by field, VERIFIED only with verified evidence, and no forbidden key in any dict at any depth. |
| CanonicalProblemProofs.EvidenceExact | src/verifiable_agent_control_plane/canonical.py:76-86 | A list of evidence passes exactly when every item has its five texts, a known status, and a digest of the right prefix and length. |
| CanonicalProblemReasons.ValidateReasons | src/verifiable_agent_control_plane/canonical.py:102-130 | A refusal by `validate` gives the error of the first check that fails, item by item. |
| CanonicalProblemReasons.EvidenceItem | src/verifiable_agent_control_plane/canonical.py:141-150 | One evidence item of a record: the five required members, the default status, and which missing member is reported. |
| CanonicalProblemReasons.BuiltState | src/verifiable_agent_control_plane/canonical.py:151-165 | The state `from_dict` builds: each member from its own name, and the defaults of absent ones. |
| CanonicalProblemReasons.BuildReasons | src/verifiable_agent_control_plane/canonical.py:135-165 | A record that cannot be built is refused for the first thing that is missing or cannot be converted. |
| CanonicalProblemReasons.FromJsonReasons | src/verifiable_agent_control_plane/canonical.py:169-177 | A payload that is no JSON text, a text of something else than an object, or what `from_dict` says of the object. |
| CanonicalProblemProofs.DigestNeedNotBeHex | src/verifiable_agent_control_plane/canonical.py:85-86 | Concrete evidence that passes although its digest has no hexadecimal digit after the prefix. |
| CanonicalProblemProofs.ProblemRoundTrip | src/verifiable_agent_control_plane/canonical.py:132-213 | Every valid state, written as JSON with any white space around it such as the newline `save_state` appends, reads back as the same state with the same digest. |
| CanonicalProblemReasons.AnyTextReadsBack | src/verifiable_agent_control_plane/canonical.py:132-177 | A valid state reads back from every JSON text of its dict, however it is spaced, spelled and ordered. |
| CanonicalProblemProofs.AcceptedIsSound | src/verifiable_agent_control_plane/canonical.py:168-181 | Whatever text `from_json` accepts is a sound state, and its own encoding is read as the same state. |
| CanonicalProblemProofs.DigestBindsProblem | src/verifiable_agent_control_plane/canonical.py:183-186 | Valid states with the same digest are equal, or there is a collision. |
| CanonicalProblemProofs.AdvanceStep | src/verifiable_agent_control_plane/canonical.py:237-266 | One call raises the revision by one, keeps the identity, replaces exactly what it was given, and starts and ends in sound states. |
| CanonicalProblemReasons.AdvanceReasons | src/verifiable_agent_control_plane/canonical.py:247-266 | A refused `advance` gives the first failure: of the old state, the new status, or the new state. |
| CanonicalProblemProofs.AdvanceChain | src/verifiable_agent_control_plane/canonical.py:237-266 | Along any chain of calls that runs through, after n calls the revision has risen by exactly n, problem id, title, objective and creation time are unchanged, and the state is sound. |

## Left out

- SHA-256 itself and UTF-8: one unknown function on texts. No result depends on the length or alphabet of a hash.
- Floating-point numbers, non-string dict keys, Python's `1 == True`, tuples inside values, and Python's limit on the digits of an integer: values are null, bool, integer, string, list and string-keyed dict.
- Json.ReadText: refuses fractions, exponents, `NaN` and lone surrogate escapes, which `json.loads` accepts, because the values they denote are outside the model.
- Time stamps are epochs: parsing of ISO strings, `_utcnow` and the clock are not part of this model; an age is a real number and is not formatted into the text of an anomaly.
- The texts listed in the message of `assert_fail_closed`: the model says when it raises.
- `ReconciliationReport.canonical_digest`: it hashes with another JSON escaping and would repeat the binding results for one more record.
- `resume_state`: a projection of a validated state; it would add only easy members.
- File handling in `save_state` and `load_state`, beyond the text written and read.
- Interleavings inside one attempt: the source has no lock, and an attempt is one atomic step here.
- Aliasing of nested payload values between intents and the target: values are immutable in the model.
- The executor of the lemmas about any executor is a function of action and payload; one that answers differently each time is covered call by call, not as an object.
- `keeperhub.py`, `twin/`, `examples/`, `plugins/` and the workflow files: network client, browser, command-line and packaging code.
