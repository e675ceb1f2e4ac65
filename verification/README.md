# Bellbook ledger: verified model

Bellbook is an append-only ledger of typed, content-addressed records. Every subject
record is followed by a verdict record; a log is meaningful only if replaying it from the
first record re-derives every verdict. Its safety rests on several algorithms agreeing
with one another: a single writer that must survive crashes and retries, a replay that
re-judges everything, a large derived state with redundant indexes, a standing report, and
lineage queries. This project models those algorithms over one shared record and state
datatype and proves that they agree.

Layout, bottom up:

- `Records`, `LedgerState`: records, decoded payloads, and the state fold as one function
  per index. `LiveStates`: the same fold as a class with a field per index, updated in place, each
  method tied to the functions.
- `EvidenceRules`, `Refs`, `Graphs`, `Kahn`, `Plans`, `Rules`, `Checks`: the rule battery.
- `Ledger`: what a lawful log is (`Lawful`): subject/verdict pairs with times 1, 2, ...,
  addresses that match content, and each verdict the one the rules give on the prefix.
  `Replay`, `Build`: replay accepts exactly the lawful logs; the two-pass state build is
  the pair-by-pair fold. `Resume`: replay from a trusted checkpoint agrees with replay from
  genesis.
- `Commits`, `Frames`, `Storage`, `Batches`, `Writer`, `Recovery`, `Retries`: the writer
  over a disk whose every durable operation may fail after any number of bytes.
- `Taint`, `Facts`, `Histories`, `Reachability`, `Slots`, `Approvals`, `Authority`,
  `Conversations`, `RequirementKeys`, `EvidenceCone`: the indexes against declarative
  definitions, in every reachable state. `Anomalies`: two logs that replay and end in states
  the documentation rules out.
- `Pasts`, `Rulebook`: the rules of every kind declared over the log before a record, with
  no index and no running state. `Rulings`, `Reflections`, `Verdicts`: the battery over the
  indexes gives every record the rulebook's ruling, so replay accepts exactly the logs the
  rulebook describes.
- `Lineages`, `Standing`, `StandingRuns`, `StandingSteps`, `Breadth`, `Queries`,
  `QueryRuns`: standing and the lineage queries. `Compromise`, `Descents`: the standing
  section and the line of descent of a verified log, declared over positions.
- `Delivery`, `DeliveryRuns`: the delivery profile over a validated log, and what a
  conformant receipt rests on. `Receipts`: the whole receipt declared over positions.
- `Numbering`: a hash that meets what is assumed of one.
- `Canonical`: the canonical JSON printer of RFC 8785 (sections 3.2.2.2 and 3.2.3).
  `Texts`: what a text denotes by the grammar of RFC 8259, and that the printer's text is
  the one shortest.

Conventions. Ids are natural numbers ordered as their bytes. SHA-256 is a function
parameter of which only `Rules.Collisionless` is assumed, and only where a lemma says so:
equal addresses mean equal content, no record holds its own address, none is the empty
head token. Numbering records by content, each after every id it mentions, is such a
function (`Numbering.CollisionlessIsPossible`). The hash an approval stores is represented
by the value it is taken of (`Records.Subject`), and so are the two hashes in a checkpoint
(`Resume.Checkpoint`). A signature is a predicate (`Crypto.signedBy`), canonical encoding
a codec parameter (`Frames.Codec`). A map iteration order is an arbitrary choice.

Places where the code and its own comments or documentation differ, with the code followed:

- `src/state/incremental.rs:193-194` says a second retraction of a requirement does nothing
  to its key. It releases the key again, even when a live successor holds it
  (`Anomalies.RepeatedRetractionStealsAKey`); the recorded keys stay right exactly
  while that never happens (`RequirementKeys.KeysRightIffNeverStolen`).
- `src/verify/verifier/lifecycle.rs` lets only a closing Response check for open actions.
  Refusing a request ends it with its actions still open
  (`Anomalies.RefusalLeavesActionsOpen`, `Conversations.EndingSettlesIffNoneOpen`).
- `commit_inner` checks neither the proposal's space nor that it is not itself a verdict, so
  a commit can succeed and leave a log that no longer replays; the exact condition is
  `Commits.CommitReplays`. Once the subject of such a proposal is in the file every later
  open refuses it, so a retry never succeeds (`Retries.LockedOutExactly`,
  `Retries.RetryLockedOut`).
- The name on a verdict is checked by no rule, so subjects determine a lawful log only up to
  those names (`Commits.VerdictNameIsFree`, `Commits.SubjectsDetermine`).

## Model

| member | source | states |
|---|---|---|
| Retries.RetryUntilDone | src/log/writer/core.rs:347-451 | over any sequence of process lives that each find the intent file in any condition and die at any durable operation after any part of its effect, whether or not earlier answers were heard, the file is always the base and a prefix of the batch's records, for any batch at all; if every proposal is one the log can take (the rules' space, not a verdict) and there is room, a final undisturbed life leaves the base and one pair per proposal in batch order and answers as an append that was never interrupted; any batch that is answered is there once and whole, and the file can be opened again if and only if every proposal of it is such |
| Retries.LockedOutExactly | src/log/writer/core.rs:53-82 | a file stopped anywhere in a batch does not replay after repair if and only if a proposal of which at least the subject arrived is for another space or a verdict |
| Retries.RetryLockedOut | src/log/writer/core.rs:53-82 | on such a file every later life is refused, whatever its faults, and it stays such a file |
| Retries.Attempt | src/log/writer/core.rs:53-171 | one life, open to answer, for any batch: keeps the file a prefix of the finished log, never answers with a conflict, and if it answers the file is exactly the finished log; a locked-out file it refuses and leaves locked out |
| Retries.RetryFindsItsPlace | src/log/writer/core.rs:382-424 | in a log that stopped after n pairs of the batch, matching from the expected head finds exactly n and no conflict |
| Recovery.Open | src/log/writer/core.rs:53-82 | succeeds only with a log that replays, equal to the readable records with the owed verdict added; under no faults succeeds on every such file with room; never loses a complete record; for files in which every frame that parses is in canonical form |
| Recovery.Recover | src/log/writer/core.rs:153-174 | the tail alone decides: adds the one owed verdict or nothing, clears the intent file whatever it held, and leaves at worst a prefix of the repaired log |
| Recovery.PreflightCoversRecovery | src/log/writer/core.rs:270-273 | if the pair fits before the first write, then wherever the commit stops what is there fits, and so does the log with the verdict recovery owes |
| Recovery.RepairCompletes | src/log/writer/core.rs:142-166 | wherever a batch stopped, mid-pair or between pairs, repair yields a whole number of its pairs: the recomputed verdict is the one the commit would have written; only a lone subject that is itself a verdict gets none |
| Recovery.RepairedReplays | src/log/writer/core.rs:153-174 | the repaired log replays if and only if every proposal of the batch whose subject arrived is one the log can take |
| Writer.LogWriter.CheckedBatchCommit | src/log/writer/core.rs:363-451 | success means that right after the expected head, in order, the log holds a record with exactly each proposal's space, thread, author, kind, schema, payload and canonical refs, that the answer gives those records' ids and verdicts, and that only what was missing was appended; if a record there differs in any of these while more of the batch is to be placed, or the head is not in the log, the answer is HeadConflict with the head asked for and the head of the log, and file, memory, clock and state are untouched; any other failure leaves everything untouched or a prefix of the finished log |
| Writer.LogWriter.Commit | src/log/writer/core.rs:202-314 | appends exactly the materialized pair, folds it into the caller's state and advances the clock by two; a refusal before the first write changes nothing; an error after it leaves the handle requiring recovery and the file between the old log and the new |
| Writer.LogWriter.EnsureReady | src/log/writer/core.rs:116-139 | refuses a handle that needs recovery, rules that drifted, and any state other than the one built from the log |
| Writer.LogWriter.WriteFrames | src/log/writer/core.rs:279-298 | intent, subject, intent, verdict, clear: at whatever step it fails the file holds a prefix of the log with the pair |
| Writer.LogWriter.MatchLanded | src/log/writer/core.rs:400-424 | finds the longest run of proposals that the records after a position say field by field, and stops at the first that differs |
| Writer.AnswersBatch | src/log/writer/core.rs:400-436 | an answer covers exactly the batch: record by record what each proposal says, with that record's id and verdict, and the id of the last one as head |
| Batches.MatchingIsSameContent | src/log/writer/helpers.rs:16-27 | a record counts as landed if and only if, taken back to a proposal, it is the proposal with its refs in canonical order |
| Writer.CommitStaysHealthy | src/log/writer/core.rs:299-304 | the caller's state after an admissible commit is the state built from the longer log, which still replays |
| Storage.FileLog.Open | src/log/storage.rs:29-75 | keeps exactly the records of the complete frames and truncates a torn tail; when it refuses, the file is as it was or, if cutting the tail reported an error, cut to its complete frames |
| Storage.FileLog.Append | src/log/storage.rs:103-119 | on success the file and the index gain exactly the record; on any error the file is the old one or stopped inside or after that one frame; nothing that fits is refused |
| Storage.FileLog.EnsureCapacityFor | src/log/storage.rs:79-101 | succeeds if and only if every frame is within 32 bits and all of them together fit the bound |
| Storage.PartwayReadsBack | src/log/storage.rs:149-193 | a file cut off anywhere inside an append reads back as a prefix of the records, at least those that were complete before |
| Frames.MostSignificantFirst | src/log/storage.rs:108-112 | the four bytes before a frame's body are its length, most significant first |
| Frames.ReadAll | src/log/storage.rs:149-193 | the cursor loop reads frame by frame what the recursive definition reads, stopping at a torn frame |
| Frames.TornTailIsDropped | src/log/storage.rs:165-193 | the encoding of any records followed by any proper prefix of any frame reads as exactly those records and their exact length |
| Frames.TruncationIsIdempotent | src/log/storage.rs:29-75 | truncating any readable file to its valid length loses nothing and leaves nothing to truncate |
| Batches.CallerOrderIsIrrelevant | src/log/writer/helpers.rs:3-11 | with collision-free keys the commit order of a batch is independent of the order it was given in |
| Commits.CommitReplays | src/log/writer/core.rs:223-273 | the log after a commit replays if and only if the proposal is for the rules' space and is not a verdict |
| Commits.BatchReplays | src/log/writer/core.rs:323-337 | the log after a whole batch replays if and only if every proposal of it is one the log can take |
| Commits.EvidenceIsAsExpected | src/log/writer/core.rs:223-237 | evidence assigned from the refs as proposed is the evidence the verifier derives from them sorted and deduplicated |
| Commits.OnlyThresholdsReject | src/verify/verifier/record_checks.rs:188-212 | a materialized subject fails the evidence rule only by a configured threshold, and always has its content's address and sorted refs |
| Commits.SubjectsDetermine | src/verify/verifier/verdict.rs:3-73 | two lawful logs with the same subjects are equal if and only if the names on their verdicts are |
| Commits.VerdictNameIsFree | src/verify/verifier/verdict.rs:14-29 | any name on a verdict replays |
| Replay.VerifyLog | src/verify/verifier/replay.rs:116-255 | accepts exactly the lawful logs, which are those of `Verdicts.LawfulIsByTheBook`, and ends in their state; a rejection reports the position of the first fault and its reason |
| Replay.StopsOnce | src/verify/verifier/replay.rs:155-255 | there is one position where a log stops being lawful: the even prefixes up to it are lawful and no longer one is |
| Replay.FaultStops | src/verify/verifier/replay.rs:158-240 | after a lawful prefix, a fault at the next pair (a verdict out of place, none after the subject, one not on that subject, another judgment than the rules give) is exactly what ends it |
| Replay.ReplayFrom | src/verify/verifier/replay.rs:155-255 | from any position a replay has reached, the loop accepts if and only if the whole log is lawful, and ends in the state of the whole log; otherwise it reports where the log stops being lawful and the first fault there |
| Verdicts.LawfulIsByTheBook | src/verify/verifier/replay.rs:116-255 | replay accepts a log if and only if it is addressed subjects of the space, each followed one step later by a verdict in the one envelope with the outcome the rulebook gives that subject over the log before it |
| Verdicts.FaultsFollowTheRulebook | src/verify/verifier/replay.rs:155-240 | the reason replay reports is the rulebook's: of the verdict's envelope, of a verdict on another record, or of the subject when another outcome is on record |
| Rulings.BatteryIsRulebook | src/verify/verifier/record_checks.rs:31-216 | over any index and state that say what the log says, the battery finds the first broken rule of the rulebook, for every kind of record, or none |
| Reflections.LogReflects | src/state/incremental.rs:13-277 | on every verified log the id index and the whole running state say what the log says: names, acceptance, withdrawal, live requests, open actions, turns, plans, taken keys, and the capability and approvals in force |
| Verdicts.RetractionsAreOwned | src/verify/verifier/plans.rs:178-226 | a retraction is accepted if and only if its envelope passes and its one Cause and its payload name an earlier accepted record that is no retraction and is by its own author, or its author is an administrator |
| Verdicts.OthersMayNotRetract | src/verify/verifier/plans.rs:210-224 | one that is otherwise in order but names another author's record is rejected with AuthorRoleInvalid |
| Verdicts.AuthorsAreAuthorized | src/verify/verifier/record_checks.rs:77-126 | an accepted record is by an author in its configured role, one that may author the kind, and is signed under the author's keys where a signature is due; a subject with nothing wrong before that gets the reason for the first of these that fails |
| Verdicts.CommitsByTheBook | src/log/writer/core.rs:202-271 | on a verified log a commit appends the proposal's own content with ordered refs, the next time and the class its refs call for, and then the verdict `verifier` gives it, which is the rulebook's |
| Verdicts.ReplacedIsDeclared | src/state/incremental.rs:101-155 | the replaced index of a verified log holds an id if and only if some accepted record has a Replace ref to it |
| Resume.ResumeLog | src/verify/verifier/replay.rs:35-255 | given a checkpoint of some log that replayed, resumed replay accepts if and only if the rules are the same, the records extend that very log, and they replay from genesis; it checks only the rest and ends in the same state; where it can resume it stops at the same position and for the same reason as replay from genesis. A checkpoint no replay ever passed is outside this contract |
| Resume.CoveredPrefix | src/verify/verifier/replay.rs:67-73 | a prefix whose ids are the attested ones and whose content matches its ids is the attested log, record for record |
| Resume.TrustVerified | src/checkpoint.rs:78-93 | gives a trusted checkpoint if and only if the log replays, and then one that truly summarizes it |
| Replay.LoneVerdictFails | src/verify/verifier/replay.rs:163-197 | the branch for a verdict without an unjudged subject before it can only reject: everything earlier is already judged |
| Replay.JudgedAlike | src/verify/verifier/replay.rs:209-214 | a record is judged alike whether or not it is already in the index it is judged against, so replay and commit agree |
| Ledger.IdsAreUnique | src/verify/verifier/replay.rs:130-158 | no two records of a lawful log share an id |
| Rules.PriorFindsFirst | src/verify/verifier/verdict.rs:82-135 | the id index finds exactly what a front-to-back scan finds |
| Build.BuildState | src/state/build.rs:21-61 | the two loops compute the two-pass definition and fail exactly on an undecodable payload |
| Build.BuildIsFold | src/state/build.rs:21-61 | on every log of pairs with unique ids the two-pass build is the pair-by-pair fold, clock included |
| Build.ReplayedLogBuilds | src/state/build.rs:76-84 | a log that replays always builds, to the very state replay ends in |
| Build.VerifyAndBuildState | src/state/build.rs:68-85 | yields a state if and only if the log is lawful |
| LiveStates.LiveState.ApplyRecord | src/state/incremental.rs:13-277 | the fold step that updates the fields one by one is the functional step on every index; rejections change nothing |
| Rulings.FoldReads | src/state/incremental.rs:13-277 | which payloads the fold reads for which kind, and that whatever is well formed under a schema of the kind it can read |
| LiveStates.LiveState.MarkTainted | src/state/incremental.rs:280-290 | the worklist adds exactly what is reachable along the dependence index outside what was tainted already |
| Taint.TaintIsExact | src/state/incremental.rs:28-48 | after any history a record is tainted if and only if a non-empty chain of Use/Require refs leads from it to a retracted record |
| Taint.TaintIgnoresOrder | src/state/incremental.rs:156-167 | only which records were accepted matters: retractions and dependents may come in either order |
| Histories.OnlyRetractionsTaint | src/state/incremental.rs:28-48 | on a verified log any accepted record other than a retraction taints at most itself and withdraws nothing |
| Slots.CapabilitiesAreDeclarative | src/state/incremental.rs:101-109 | in every reachable state the capability in force for a key is the latest accepted one with that key unless it was retracted, and the reverse index is exact |
| Slots.ClassApprovalsAreDeclarative | src/state/incremental.rs:122-126 | the same for approvals of a class of actions |
| Approvals.ApprovalsAreDeclarative | src/state/incremental.rs:54-70 | an exact approval is in force if and only if it is the latest for its subject, unretracted and unspent |
| Approvals.ApprovalsAreSingleUse | src/state/incremental.rs:54-70 | over any run an exact approval is consumed by at most one accepted record |
| Approvals.UsedNeverReturns | src/state/incremental.rs:248-274 | once consumed it is never in force again at any later point |
| Authority.ActionsAreAuthorized | src/verify/verifier/activity.rs:87-239 | every accepted action names the latest capability for its actor, class and scope, which is neither retracted nor resting on anything retracted, not expired and not a denial; in ask mode also an approval in force that is untouched in the same sense, not expired at the action's time, and either exact, for this actor and scope and unspent, or of its class |
| Authority.ExactActionConsumes | src/verify/verifier/activity.rs:189-239 | an action whose approval was found by its exact subject consumes it |
| Authority.ApprovedSelectionConsumes | src/verify/verifier/evolution.rs:483-540 | a selection accepted under rules that demand approval consumes the approval it resolved |
| Authority.ExactApprovalIsSpent | src/state/incremental.rs:248-274 | at every point of a verified log after a record accepted on an exact approval, an asking action or an approved selection, that approval is spent and in force for no subject |
| Authority.ExactApprovalsAuthorizeOnce | src/state/incremental.rs:54-70 | no exact approval authorizes two accepted records of one verified log |
| Reachability.VerifiedIsReachable | src/verify/verifier/record_checks.rs:31-216 | what the rules guarantee of every accepted record in terms of the state alone |
| Conversations.RequestsAreDeclarative | src/state/incremental.rs:49-52 | a request is active if and only if it was accepted and nothing accepted ended it |
| Conversations.ActionsAreDeclarative | src/state/incremental.rs:71-82 | an action is open if and only if it was accepted and not closed, and maps to its own request |
| Conversations.CountsAreDeclarative | src/state/incremental.rs:71-77 | each request's count is the number of its open actions, with no zero entries |
| Conversations.ClosingCounts | src/state/incremental.rs:303-312 | the decrement never goes below zero, because the count of a request with an open action is positive |
| Conversations.ResponsesTakeTurns | src/verify/verifier/lifecycle.rs:216-272 | accepted responses to a request carry the turns 0, 1, 2, ... in order |
| Conversations.PlansAreDeclarative | src/state/incremental.rs:146-155 | the active plan of a request is the last one to be decided, if it is running |
| Conversations.RequestsNeverReactivate | src/state/incremental.rs:205-219 | a request that stopped being active never is again |
| Conversations.ClosedForGood | src/verify/verifier/lifecycle.rs:251-272 | after a closing response the request has no open action and no active plan, then and in every later state |
| Conversations.EndingSettlesIffNoneOpen | src/state/incremental.rs:90-94 | whatever ends a request settles it if and only if its open-action count was zero |
| Anomalies.RefusalLeavesActionsOpen | src/state/incremental.rs:90-94 | for any hash without collisions, a log of four accepted commits that replays and ends with an accepted refusal of a request whose action is still open |
| RequirementKeys.KeysRightIffNeverStolen | src/state/incremental.rs:191-203 | over a run the recorded keys are exactly those of live requirements, each held once, after every record, if and only if no retraction repeats a target whose key is taken again |
| RequirementKeys.KeysStep | src/verify/verifier/evolution.rs:461-470 | one step keeps the keys right if and only if it is not such a retraction |
| RequirementKeys.KeysFollowTheHistory | src/state/incremental.rs:168-203 | in every reachable state, stolen keys included, a key is recorded as taken if and only if some requirement claimed it and no requirement that ever claimed it was retracted since |
| Anomalies.RepeatedRetractionStealsAKey | src/state/incremental.rs:191-203 | for any hash without collisions, a log of six accepted commits that replays, in which a repeated retraction frees the key of a live requirement and a third one takes it: two accepted, unretracted requirements of one request hold one key |
| EvidenceCone.EvidenceIsTheWeakestOfTheCone | src/record/evidence.rs:76-95 | the evidence of an accepted record is the floor if and only if something in its Use/Require cone rested on a rejected, retracted or tainted record when it was accepted, and otherwise the weakest base class of the cone |
| EvidenceCone.EvidenceStep | src/state/state.rs:123-140 | one record against its links: no stronger than its schema or anything it rests on, and equal to one of them |
| EvidenceRules.DerivedIsWeakestLink | src/record/evidence.rs:76-95 | the derived class bounds the base class and every contribution, and is one of them |
| Refs.SortAndDedup | src/record/refs.rs:29-36 | yields the strictly sorted list with the same members |
| Refs.SortedIsUnique | src/record/refs.rs:29-36 | there is only one such list |
| Refs.TargetsMean | src/record/refs.rs:29-36 | what the targets of one type say of a ref list: the first named, none, exactly one, or several |
| Plans.HasCycle | src/verify/verifier/plans.rs:136-175 | Kahn's loop reports a cycle if and only if the depends-on graph has one, self and duplicate edges included |
| Kahn.LeftoverIsStuck | src/verify/verifier/plans.rs:155-175 | what never leaves the queue steps only within itself |
| Graphs.StuckIsCyclic | src/verify/verifier/plans.rs:136-175 | a finite non-empty set whose every node steps within it contains a cycle, by pigeonhole |
| Standing.DeriveStanding | src/verify/standing.rs:75-264 | the whole derivation, for every order of walking its maps, yields the closed-form section |
| Standing.ResolveFrom | src/verify/standing.rs:187-256 | the explicit-stack walk terminates, expands no candidate twice and resolves the start and all it rests on to their closed form |
| Standing.RecursionIsClosedForm | conformance/python/bellbook_verdict.py:1853-1881 | the recursive definition is the closed form: sound if and only if everything in the lineage cone stands |
| Standing.WalkChain | src/verify/standing.rs:141-157 | adds a sound selection to exactly the proper ancestors of its Replace chain; the defensive bound is never what stops the walk |
| StandingRuns.VerifiedDescends | src/verify/standing.rs:12-16 | on a verified log every lineage edge and every Replace hop leads to an earlier record, which is why the walks end |
| StandingRuns.ReportStanding | src/verify/verifier/replay.rs:239-255 | replay reports the closed-form section of the final state, and an empty one on rejection |
| StandingSteps.StandingIsConeStanding | src/verify/standing.rs:238-248 | on a verified log no continuation is malformed, so a candidate is sound if and only if no candidate in its cone is retracted and every continuation in it has a sound or restored anchor |
| StandingSteps.CompromiseHasACause | src/verify/standing.rs:168-183 | every compromised candidate has in its cone a retracted candidate or a continuation of a withdrawn anchor that nothing restores |
| StandingSteps.NothingWithdrawnNothingCompromised | src/verify/standing.rs:48-54 | a log without retractions has an empty section |
| StandingSteps.RetractionOnlyCompromises | src/verify/standing.rs:187-256 | an accepted retraction clears no candidate |
| StandingSteps.OthersOnlyRepair | src/verify/standing.rs:187-256 | any other pair compromises no candidate that was there |
| StandingSteps.ReaffirmationRepairs | src/verify/standing.rs:132-183 | one untainted selection whose Replace chain reaches an anchor and which selects a parent again clears every line whose only faults were continuations of that anchor from that parent |
| Compromise.CompromiseIsDeclared | src/verify/standing.rs:75-264 | a candidate of a verified log is reported compromised if and only if it, or a candidate it continues or derives from however far back, was retracted or continues from an anchor that is withdrawn and that no standing selection, replacing it directly or not, restores by choosing the parent again |
| Compromise.RestorationsAreDeclared | src/verify/standing.rs:132-183 | the unsound selections are exactly the accepted ones retracted or resting on something retracted, each listed with exactly the standing selections whose chain of Replace refs leads to it |
| Compromise.SectionNamesRecords | src/verify/standing.rs:75-264 | everything the section names is a record of the log |
| Queries.Descent | src/queries.rs:358-449 | answers if and only if every ancestor is there; then with each ancestor exactly once, none after a farther one, each by a real edge, in the order of first sighting along the edges of the target and then of each entry, ascending within one |
| Queries.LineIsUnique | src/queries.rs:422-449 | only one list is such a line of descent |
| Queries.Descendants | src/queries.rs:452-472 | the accepted candidates that reach the record, in log order |
| Queries.DescendantsConverse | src/queries.rs:452-472 | a candidate is among a record's descendants if and only if the record is in its line of descent |
| Breadth.HeadDistance | src/queries.rs:422-449 | a node first taken from the queue is exactly as far away as its level |
| QueryRuns.CandidatesAreDescribable | src/queries.rs:422-449 | over a verified log descent never fails on an accepted candidate |
| QueryRuns.DescentShowsStanding | src/queries.rs:358-449 | breadth-first and depth-first agree: a candidate is compromised if and only if it, or a candidate in its line of descent, was retracted or continues from an anchor neither sound nor restored |
| Descents.DescentIsDeclared | src/queries.rs:358-449 | each step of an answered line leads from the first entry, target included, that leads to its record at all, and in the way that entry's record names it |
| Descents.ViaIsDeclared | src/queries.rs:358-395 | a step is a continuation anchor if and only if it is a Cause of the continuation it leaves, and is then an accepted selection; the parent if and only if it is that continuation's declared parent, and a derivation cause if and only if it is a Cause of a derivation, and is then an accepted candidate |
| Descents.EdgesAreDeclared | src/queries.rs:361-395 | the steps out of one accepted record are exactly those it names, each once: the anchor before the parent, derivation causes by ascending id |
| Delivery.Evaluate | src/profiles/delivery_v1.rs:125-520 | finds the claims in log order, evaluates the picked one of each request, and passes each clause if and only if it holds of every picked claim (`Receipts.ReceiptIsTheLogs` says this of the log alone); with no claim every clause fails; the outcome of the capability profile, clause D6, is a parameter, and the report is not Invalid |
| Delivery.EvaluateClaim | src/profiles/delivery_v1.rs:269-485 | the nested loops over requirements, used evaluations, their evidence and the artifacts on record decide, for one claim: every required requirement has a passing unretracted evaluation; no evaluation of one did other than pass; one candidate, judged by all on evidence that is on record; no evaluator produced it; every decider is bound; the selection stands |
| Delivery.PickFor | src/profiles/delivery_v1.rs:205-219 | the last sound claim of a request, or its last claim when none is sound |
| Delivery.EachRequestHasItsPick | src/profiles/delivery_v1.rs:197-219 | every request with a claim has exactly one picked claim |
| Receipts.ClaimsAreDeclared | src/profiles/delivery_v1.rs:147-195 | a record is a claim if and only if it is an accepted selection that chose something and the accepted evaluations it names as used bind requirements of exactly one request; the claim is of that request and holds exactly those evaluations |
| Receipts.ReceiptIsTheLogs | src/profiles/delivery_v1.rs:125-520 | clause by clause the receipt is the one declared over positions of a verified log: which claim of a request counts, that its live required requirements were each passed and none did other than pass, one candidate judged by all it used on evidence on record, nobody judging their own, deciders named, and the selection standing |
| DeliveryRuns.UntaintedRestsClean | src/state/incremental.rs:28-48 | nothing an accepted, untainted record uses or requires is retracted or tainted |
| DeliveryRuns.ClaimRestsClean | src/verify/verifier/evolution.rs:218-266 | an untainted claim's candidates, the evaluations it used and the requirements they bind are neither retracted nor tainted |
| DeliveryRuns.ConformantRestsOnNothingWithdrawn | src/profiles/delivery_v1.rs:269-505 | for each picked claim of a conformant receipt: the selection and its one candidate stand; every live required requirement of the request has a passing used evaluation by someone other than the candidate's author, and no accepted evaluation of it that the selection uses did other than pass; none of those evaluations nor anything they bind is retracted or tainted |
| Canonical.PrintReads | src/base/canonical.rs:218-263 | the printer is self-delimiting: followed by nothing or by punctuation, the text decides the value and what follows |
| Canonical.PrintIsInjective | src/base/canonical.rs:218-263 | two values print alike only if they are equal |
| Canonical.Printer.Write | src/base/canonical.rs:218-238 | the recursive writers append exactly the printed form, encoded in UTF-8, and refuse exactly the values with an integer outside the safe range |
| Canonical.Canonicalize | src/base/canonical.rs:201-206 | gives the canonical bytes if and only if every integer of the value is in the safe range |
| Canonical.BytesAreInjective | src/base/canonical.rs:218-263 | two values have the same canonical bytes only if they are equal |
| Canonical.OneArrangement | src/base/canonical.rs:240-246 | the member order does not depend on the order the names came in |
| Canonical.KeyOrderIsStrictTotal | src/base/canonical.rs:240-246 | comparison by UTF-16 code units is a strict total order on names |
| Canonical.DiffersFromCodePointsExactly | src/base/canonical.rs:240-246 | the order of two names is not that of code points if and only if they first differ in a character from U+E000 to U+FFFF against a supplementary one |
| Canonical.UnescapeInvertsEscape | src/base/canonical.rs:303-327 | string escaping has a left inverse that also finds the closing quote |
| Texts.EscapeForms | src/base/canonical.rs:303-327 | a character is printed as itself if and only if it is no quote, no backslash and not below U+0020; those two and the five control characters with a letter take it; every other is `\u00` and two lower-case hex digits |
| Texts.ShortestString | src/base/canonical.rs:303-327 | of all texts that spell a string by the grammar of RFC 8259 with lower-case hex, the printed one is the shortest, and no other is as short |
| Texts.PrintDenotes | src/base/canonical.rs:218-263 | by that grammar, without blanks and with names ascending, the printed text denotes the value |
| Texts.ShortestText | src/base/canonical.rs:218-263 | of all such texts of a value the printed one is the shortest, and no other is as short |
| Texts.BytesAreShortestText | src/base/canonical.rs:201-206 | the canonical bytes are the UTF-8 encoding, by section 3 of RFC 3629, of that one shortest text |

## Left out

- Resume.ResumeLog: what happens when `assume_verified` is given a checkpoint no replay ever passed; the method's precondition is the promise that call makes (`src/checkpoint.rs:95-112`).
- `commit_signed`: a signer only fills in a field before the address is taken.
- `batch_commit`: the loop of `Commit` without the head check; `CheckedBatchCommit` contains it.
- File lock, directory creation and fsync: their effect is the disk model, in which an append is durable up to a prefix, a truncation happens or does not, and an intent file is replaced whole.
- Recovery.Open: a frame whose body parses as a record without being its canonical form counts as unreadable here (`Frames.OnlyCanonical`); the code reads it. Only a file edited by hand can hold one.
- Overflow of `usize` in frame arithmetic: lengths are unbounded integers, so a frame end never wraps.
- Canonical.Print: numbers are integers; floats are not part of the model.
- Usage counts and active summaries: no rule reads them.
- Notes, attachments, context selection, manifests, epochs, timestamps, the command line and the bindings.
- `siblings`, `frontier`, `evidence` and `selected` queries: filters over the records with nothing to agree with.
- Delivery.Evaluate: a receipt whose report is Invalid, which fails every clause before this evaluation starts, and the text of each clause's detail.
- The core profiles: clause D6 is a parameter.
