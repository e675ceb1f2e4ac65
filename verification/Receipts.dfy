// The delivery receipt of a verified log, declared over positions of the log: what is a
// claim, which one of a request is evaluated, and what each clause asks of it.
module Receipts {
  import opened Records
  import opened LedgerState
  import opened Refs
  import opened Rules
  import opened Ledger
  import opened Replay
  import opened Facts
  import opened Taint
  import opened QueryRuns
  import opened Queries
  import opened Delivery
  import opened DeliveryRuns
  import opened Verdicts

  // ----- Claims -------------------------------------------------------------------------------

  /** The record at `i` names, as used, the accepted evaluation at `k`. */
  ghost predicate UsesAt(log: seq<Record>, i: nat, k: nat)
    requires i < |log|
  {
    k < |log| && PassedAt(log, k) && log[k].kind == Evaluation && Ref(Use, log[k].id) in log[i].refs
  }

  /** The record at `m` is an accepted requirement of a request. */
  ghost predicate RequirementAt(log: seq<Record>, m: nat, request: Id) {
    m < |log| && PassedAt(log, m) && log[m].kind == Requirement && FirstNames(log[m].refs, Cause, request)
  }

  ghost predicate BindsAt(log: seq<Record>, k: nat, m: nat) {
    k < |log| && m < |log| && log[k].data.EvaluationDataV2? && log[m].id in log[k].data.requirements
  }

  /** The record at `i` uses an evaluation of some requirement of the request. */
  ghost predicate Concerns(log: seq<Record>, i: nat, request: Id)
    requires i < |log|
  {
    exists k: nat, m: nat :: UsesAt(log, i, k) && BindsAt(log, k, m) && RequirementAt(log, m, request)
  }

  /** An accepted selection that chose something, on evaluations of this request's
      requirements and of no other's. */
  ghost predicate ClaimsAt(log: seq<Record>, i: nat, request: Id) {
    && PassedAt(log, i) && log[i].kind == Selection
    && log[i].data.SelectionData? && log[i].data.decision.Selected?
    && Concerns(log, i, request) && forall other :: Concerns(log, i, other) ==> other == request
  }

  /** Neither retracted nor resting on anything retracted. */
  ghost predicate SoundAt(log: seq<Record>, i: nat)
    requires i < |log|
  {
    !IsRetracted(AcceptedOf(log), log[i].id) && !RestsOnRetracted(AcceptedOf(log), log[i].id)
  }

  /** The claim of its request that counts: the last sound one, or the last of all. */
  ghost predicate EvaluatedAt(log: seq<Record>, i: nat, request: Id) {
    && ClaimsAt(log, i, request)
    && forall j: nat :: ClaimsAt(log, j, request) ==> Yields(log, j, i)
  }

  /** The claim at `j` does not count if the one at `i` does. */
  ghost predicate Yields(log: seq<Record>, j: nat, i: nat)
    requires i < |log| && j < |log|
  {
    if SoundAt(log, i) then j <= i || !SoundAt(log, j) else j <= i && !SoundAt(log, j)
  }

  // ----- Clauses ------------------------------------------------------------------------------

  /** A live requirement of the request that must be met. */
  ghost predicate DemandedAt(log: seq<Record>, m: nat, request: Id) {
    && RequirementAt(log, m, request) && !IsRetracted(AcceptedOf(log), log[m].id)
    && log[m].data.RequirementData? && log[m].data.required
  }

  /** The used evaluation at `k` of the requirement at `m`. */
  ghost predicate EvaluatesAt(log: seq<Record>, i: nat, k: nat, m: nat)
    requires i < |log|
  {
    UsesAt(log, i, k) && BindsAt(log, k, m)
  }

  ghost predicate PassesAt(log: seq<Record>, i: nat, k: nat, m: nat)
    requires i < |log|
  {
    EvaluatesAt(log, i, k, m) && log[k].data.outcome.Passed? && !IsRetracted(AcceptedOf(log), log[k].id)
  }

  ghost predicate MetAt(log: seq<Record>, i: nat, m: nat)
    requires i < |log|
  {
    exists k: nat :: PassesAt(log, i, k, m)
  }

  /** D1: each is passed by a used evaluation that was not retracted. */
  ghost predicate CoveredAt(log: seq<Record>, i: nat, request: Id)
    requires i < |log|
  {
    forall m: nat :: DemandedAt(log, m, request) ==> MetAt(log, i, m)
  }

  /** Every used evaluation of the requirement at `m` passed. */
  ghost predicate NoneSpoilsAt(log: seq<Record>, i: nat, m: nat)
    requires i < |log|
  {
    forall k: nat :: EvaluatesAt(log, i, k, m) ==> log[k].data.outcome.Passed?
  }

  /** D2: no used evaluation of one did anything but pass. */
  ghost predicate UnspoiltAt(log: seq<Record>, i: nat, request: Id)
    requires i < |log|
  {
    forall m: nat :: DemandedAt(log, m, request) ==> NoneSpoilsAt(log, i, m)
  }

  ghost predicate ListsArtifact(list: Option<seq<ArtifactRef>>, a: ArtifactRef) {
    list.Some? && exists b :: b in list.value && b.scheme == a.scheme && b.digest == a.digest
  }

  /** On record with the candidate at `x`, or with an accepted result of the claim's thread. */
  ghost predicate ShownAt(log: seq<Record>, i: nat, x: nat, a: ArtifactRef)
    requires i < |log| && x < |log|
  {
    || (log[x].data.CandidateData? && ListsArtifact(log[x].data.artifacts, a))
    || exists n: nat :: PassedAt(log, n) && log[n].kind == Kind.Result && log[n].thread == log[i].thread
                        && log[n].data.ResultData? && ListsArtifact(log[n].data.artifacts, a)
  }

  /** The one candidate the selection at `i` chose. */
  ghost predicate ChoseAt(log: seq<Record>, i: nat, x: nat) {
    && i < |log| && x < |log|
    && log[i].data.SelectionData? && log[i].data.decision == Selected([log[x].id])
  }

  ghost predicate JudgesAt(log: seq<Record>, i: nat, x: nat, k: nat)
    requires i < |log| && x < |log| && k < |log|
  {
    var d := log[k].data;
    && d.EvaluationDataV2? && d.candidate == log[x].id
    && d.evidence != [] && forall a :: a in d.evidence ==> ShownAt(log, i, x, a)
  }

  /** D3: it chose one candidate, which all it used judge, on evidence that is on record. */
  ghost predicate BoundAt(log: seq<Record>, i: nat)
    requires i < |log|
  {
    exists x: nat :: ChoseAt(log, i, x) && forall k: nat :: UsesAt(log, i, k) ==> JudgesAt(log, i, x, k)
  }

  /** D4: nothing it used is by the candidate's author. */
  ghost predicate IndependentAt(log: seq<Record>, i: nat)
    requires i < |log|
  {
    exists x: nat :: ChoseAt(log, i, x) && forall k: nat :: UsesAt(log, i, k) ==> log[k].author.id != log[x].author.id
  }

  /** D5: all it used name their procedure and their input. */
  ghost predicate DecidedAt(log: seq<Record>, i: nat)
    requires i < |log|
  {
    forall k: nat :: UsesAt(log, i, k) ==>
      var d := log[k].data;
      d.EvaluationDataV2? && d.evaluator.procedureHash.Some? && d.evaluator.inputHash.Some?
  }

  ghost predicate AllCovered(log: seq<Record>) {
    forall i: nat, q :: EvaluatedAt(log, i, q) ==> CoveredAt(log, i, q)
  }

  ghost predicate AllUnspoilt(log: seq<Record>) {
    forall i: nat, q :: EvaluatedAt(log, i, q) ==> UnspoiltAt(log, i, q)
  }

  ghost predicate AllBound(log: seq<Record>) {
    forall i: nat, q :: EvaluatedAt(log, i, q) ==> BoundAt(log, i)
  }

  ghost predicate AllIndependent(log: seq<Record>) {
    forall i: nat, q :: EvaluatedAt(log, i, q) ==> IndependentAt(log, i)
  }

  ghost predicate AllDecided(log: seq<Record>) {
    forall i: nat, q :: EvaluatedAt(log, i, q) ==> DecidedAt(log, i)
  }

  ghost predicate AllSound(log: seq<Record>) {
    forall i: nat, q :: EvaluatedAt(log, i, q) ==> SoundAt(log, i)
  }

  /** The receipt: with no claim nothing passes; otherwise each clause passes when it does
      for every claim that counts. */
  ghost function ReceiptOf(log: seq<Record>, core: bool): Clauses {
    if !exists i: nat, q :: EvaluatedAt(log, i, q) then Clauses(false, false, false, false, false, false, false, false)
    else Clauses(
      true,
      AllCovered(log),
      AllUnspoilt(log),
      AllBound(log),
      AllIndependent(log),
      AllDecided(log),
      core,
      AllSound(log))
  }

  // ----- The index says what the log says -------------------------------------------------------

  /** What the receipt looks up is what the log holds: every record under its own id, and
      exactly the accepted ones as accepted. */
  ghost predicate Indexed(log: seq<Record>, q: Context) {
    && HasIndex(q) && q.records == log
    && forall k: nat :: k < |log| ==>
         && Get(q, log[k].id) == Some(log[k]) && log[k].time == k + 1
         && (IsAccepted(q, log[k].id) <==> PassedAt(log, k))
  }

  /** The head report says what the log says was retracted and what stands. */
  ghost predicate Reported(log: seq<Record>, head: Head) {
    forall k: nat :: k < |log| ==>
      && (log[k].id in head.retracted <==> IsRetracted(AcceptedOf(log), log[k].id))
      && (log[k].id !in head.unsound && log[k].id !in head.retracted && log[k].id !in head.tainted <==> SoundAt(log, k))
  }

  lemma FoundAt(log: seq<Record>, q: Context, k: nat)
    requires HasIndex(q) && Indexed(log, q) && k < |log|
    ensures IsAccepted(q, log[k].id) <==> PassedAt(log, k)
    ensures Get(q, log[k].id) == Some(log[k]) && log[k].time == k + 1
  {
    hide PassedAt;
  }

  lemma ReportedAt(log: seq<Record>, head: Head, k: nat)
    requires Reported(log, head) && k < |log|
    ensures log[k].id in head.retracted <==> IsRetracted(AcceptedOf(log), log[k].id)
  {
    hide SoundAt, IsRetracted;
  }

  lemma OneRecord(log: seq<Record>, q: Context, i: nat, j: nat)
    requires HasIndex(q) && Indexed(log, q) && i < |log| && j < |log| && log[i].id == log[j].id
    ensures i == j
  {
    hide Indexed;
    FoundAt(log, q, i);
    FoundAt(log, q, j);
  }

  lemma FoundIsThere(log: seq<Record>, q: Context, x: Id, r: Record)
    requires HasIndex(q) && Indexed(log, q) && Get(q, x) == Some(r)
    ensures exists k: nat :: k < |log| && log[k] == r && r.id == x
  {
    hide PassedAt;
  }

  lemma UsedMeans(log: seq<Record>, q: Context, i: nat, e: Record)
    requires HasIndex(q) && Indexed(log, q) && i < |log|
    ensures e in EvaluationsAmong(q, Targets(log[i].refs, Use)) <==>
              exists k: nat :: k < |log| && UsesAt(log, i, k) && log[k] == e
  {
    hide Indexed, EvaluationsAmong, PassedAt;
    if e in EvaluationsAmong(q, Targets(log[i].refs, Use)) {
      FoundIsThere(log, q, e.id, e);
      var k: nat :| k < |log| && log[k] == e;
      FoundAt(log, q, k);
      assert UsesAt(log, i, k);
    }
    if k: nat :| k < |log| && UsesAt(log, i, k) && log[k] == e {
      FoundAt(log, q, k);
    }
  }

  lemma RequestMeans(log: seq<Record>, q: Context, x: Id, request: Id)
    requires HasIndex(q) && Indexed(log, q)
    ensures RequestOf(q, x) == Some(request) <==>
              exists m: nat :: m < |log| && RequirementAt(log, m, request) && log[m].id == x
  {
    hide Indexed, PassedAt, FirstNames;
    if Get(q, x).Some? {
      FoundIsThere(log, q, x, Get(q, x).value);
      var k: nat :| k < |log| && log[k] == Get(q, x).value;
      FoundAt(log, q, k);
      TargetsMean(log[k].refs, Cause);
      assert RequestOf(q, x) == Some(request) ==> RequirementAt(log, k, request);
    }
    if m: nat :| m < |log| && RequirementAt(log, m, request) && log[m].id == x {
      FoundAt(log, q, m);
      TargetsMean(log[m].refs, Cause);
    }
  }

  /** Some of the evaluations binds a requirement of the request. */
  ghost predicate BoundBy(q: Context, used: seq<Record>, e: Record, x: Id, request: Id)
    requires HasIndex(q)
  {
    e in used && e.data.EvaluationDataV2? && x in e.data.requirements && RequestOf(q, x) == Some(request)
  }

  lemma BoundMember(q: Context, used: seq<Record>, request: Id)
    requires HasIndex(q)
    ensures request in RequestsBound(q, used) <==> exists e, x :: BoundBy(q, used, e, x, request)
  {
    hide HasIndex, RequestOf;
    if request in RequestsBound(q, used) {
      var e, x :| e in used && e.data.EvaluationDataV2? && x in e.data.requirements && RequestOf(q, x).Some?
                  && RequestOf(q, x).value == request;
      assert BoundBy(q, used, e, x, request);
    }
  }

  lemma ConcernsInside(log: seq<Record>, i: nat, request: Id)
    requires i < |log|
    ensures Concerns(log, i, request) <==> exists k: nat, m: nat ::
      k < |log| && m < |log| && UsesAt(log, i, k) && BindsAt(log, k, m) && RequirementAt(log, m, request)
  {
  }

  lemma BoundConcerns(log: seq<Record>, q: Context, i: nat, e: Record, x: Id, request: Id)
    requires HasIndex(q) && Indexed(log, q) && i < |log|
    requires BoundBy(q, EvaluationsAmong(q, Targets(log[i].refs, Use)), e, x, request)
    ensures Concerns(log, i, request)
  {
    hide Indexed, RequestOf, EvaluationsAmong, UsesAt, RequirementAt, Targets;
    UsedMeans(log, q, i, e);
    RequestMeans(log, q, x, request);
    var k: nat :| k < |log| && UsesAt(log, i, k) && log[k] == e;
    var m: nat :| m < |log| && RequirementAt(log, m, request) && log[m].id == x;
    assert BindsAt(log, k, m);
  }

  lemma ConcernBinds(log: seq<Record>, q: Context, i: nat, k: nat, m: nat, request: Id)
    requires HasIndex(q) && Indexed(log, q) && i < |log| && k < |log| && m < |log|
    requires UsesAt(log, i, k) && BindsAt(log, k, m) && RequirementAt(log, m, request)
    ensures BoundBy(q, EvaluationsAmong(q, Targets(log[i].refs, Use)), log[k], log[m].id,
                    request)
  {
    hide Indexed, RequestOf, EvaluationsAmong, UsesAt, RequirementAt, Targets;
    UsedMeans(log, q, i, log[k]);
    RequestMeans(log, q, log[m].id, request);
  }

  lemma BoundMeans(log: seq<Record>, q: Context, i: nat, request: Id)
    requires HasIndex(q) && Indexed(log, q) && i < |log|
    ensures request in RequestsBound(q, EvaluationsAmong(q, Targets(log[i].refs, Use))) <==>
              Concerns(log, i, request)
  {
    hide Indexed, BoundBy, EvaluationsAmong, RequestsBound, UsesAt, RequirementAt, Concerns, Targets,
         HasIndex;
    ConcernsInside(log, i, request);
    var used := EvaluationsAmong(q, Targets(log[i].refs, Use));
    BoundMember(q, used, request);
    if e, x :| BoundBy(q, used, e, x, request) {
      BoundConcerns(log, q, i, e, x, request);
    }
    if k: nat, m: nat :| k < |log| && m < |log| && UsesAt(log, i, k) && BindsAt(log, k, m)
                         && RequirementAt(log, m, request) {
      ConcernBinds(log, q, i, k, m, request);
    }
  }

  /** What a claim says of the selection at `i`. */
  ghost predicate ClaimSays(log: seq<Record>, i: nat, claim: Claim) {
    && i < |log| && claim.selection == log[i] && ClaimsAt(log, i, claim.request)
    && log[i].data.SelectionData? && log[i].data.decision == Selected(claim.chosen)
    && forall e :: e in claim.used <==> exists k: nat :: k < |log| && UsesAt(log, i, k) && log[k] == e
  }

  lemma ClaimMeans(log: seq<Record>, q: Context, i: nat)
    requires HasIndex(q) && Indexed(log, q) && i < |log|
    ensures var claim := ClaimIn(q, log[i]);
            && (claim.Some? <==> exists request: Id :: ClaimsAt(log, i, request))
            && (claim.Some? ==> ClaimSays(log, i, claim.value))
  {
    hide Indexed, EvaluationsAmong, RequestsBound, UsesAt, Concerns, PassedAt, Targets;
    FoundAt(log, q, i);
    var used := EvaluationsAmong(q, Targets(log[i].refs, Use));
    var requests := RequestsBound(q, used);
    forall request: Id
      ensures request in requests <==> Concerns(log, i, request)
    {
      BoundMeans(log, q, i, request);
    }
    forall e
      ensures e in used <==> exists k: nat :: k < |log| && UsesAt(log, i, k) && log[k] == e
    {
      UsedMeans(log, q, i, e);
    }
    if request: Id :| ClaimsAt(log, i, request) {
      assert requests == {request};
    }
    if |requests| == 1 && ClaimIn(q, log[i]).Some? {
      assert ClaimsAt(log, i, TheOne(requests));
    }
  }

  // ----- Which claims count -----------------------------------------------------------------------

  /** The claim of the record at `i`. */
  ghost predicate ClaimOfAt(log: seq<Record>, q: Context, claim: Claim, i: nat)
    requires HasIndex(q)
  {
    i < |log| && ClaimIn(q, log[i]) == Some(claim) && claim.selection == log[i] && log[i].time == i + 1
  }

  ghost predicate Found(log: seq<Record>, q: Context, claims: seq<Claim>, n: nat)
    requires HasIndex(q)
  {
    && (forall a :: 0 <= a < |claims| ==> claims[a].selection.time > 0 && claims[a].selection.time <= n
                                          && ClaimOfAt(log, q, claims[a], claims[a].selection.time - 1))
    && (forall a, b :: 0 <= a < b < |claims| ==> claims[a].selection.time < claims[b].selection.time)
    && (forall i: nat, claim :: i < n && ClaimOfAt(log, q, claim, i) ==> claim in claims)
  }

  lemma FoundStep(log: seq<Record>, q: Context, claims: seq<Claim>, n: nat)
    requires HasIndex(q) && n < |log| && log[n].time == n + 1 && Found(log, q, claims, n)
    ensures var claim := ClaimIn(q, log[n]);
            Found(log, q, claims + (if claim.Some? then [claim.value] else []), n + 1)
  {
    hide HasIndex, ClaimIn;
    var claim := ClaimIn(q, log[n]);
    if claim.Some? {
      ClaimIsOf(q, log[n], claim.value);
      assert ClaimOfAt(log, q, claim.value, n);
    }
  }

  lemma {:induction false} ClaimsAreFound(log: seq<Record>, q: Context, n: nat)
    requires HasIndex(q) && Indexed(log, q) && n <= |log|
    ensures Found(log, q, ClaimsAmong(q, n), n)
  {
    hide Indexed, ClaimIn, Found, HasIndex;
    RecordsAre(log, q);
    if n > 0 {
      ClaimsAreFound(log, q, n - 1);
      FoundAt(log, q, n - 1);
      FoundStep(log, q, ClaimsAmong(q, n - 1), n - 1);
    } else {
      NoneFound(log, q);
    }
  }

  lemma NoneFound(log: seq<Record>, q: Context)
    requires HasIndex(q)
    ensures Found(log, q, [], 0)
  {
  }

  lemma ClaimIsOf(q: Context, r: Record, claim: Claim)
    requires HasIndex(q) && ClaimIn(q, r) == Some(claim)
    ensures claim.selection == r
  {
    hide HasIndex, EvaluationsAmong, RequestsBound;
  }

  lemma SoundMeans(log: seq<Record>, q: Context, head: Head, claim: Claim, i: nat)
    requires HasIndex(q) && Reported(log, head) && ClaimOfAt(log, q, claim, i)
    ensures SoundAtHead(head, claim) <==> SoundAt(log, i)
  {
    hide SoundAt, ClaimIn, IsRetracted, HasIndex;
  }

  /** The claims found are the claims of the log, each as sound as the log says. */
  ghost predicate SameClaims(log: seq<Record>, head: Head, claims: seq<Claim>) {
    && (forall a :: 0 <= a < |claims| ==>
          && 0 < claims[a].selection.time <= |log|
          && ClaimsAt(log, claims[a].selection.time - 1, claims[a].request)
          && (SoundAtHead(head, claims[a]) <==> SoundAt(log, claims[a].selection.time - 1)))
    && (forall a, b :: 0 <= a < b < |claims| ==> claims[a].selection.time < claims[b].selection.time)
    && (forall i: nat, request :: ClaimsAt(log, i, request) ==> ClaimedAt(claims, i, request))
  }

  ghost predicate ClaimedAt(claims: seq<Claim>, i: nat, request: Id) {
    exists a :: 0 <= a < |claims| && claims[a].selection.time == i + 1 && claims[a].request == request
  }

  lemma ClaimsAreTheSame(log: seq<Record>, q: Context, head: Head, claims: seq<Claim>)
    requires HasIndex(q) && Indexed(log, q) && Reported(log, head) && Found(log, q, claims, |log|)
    ensures SameClaims(log, head, claims)
  {
    hide Indexed, Reported, SoundAtHead, SoundAt, ClaimOfAt, ClaimsAt, Reported;
    forall a | 0 <= a < |claims|
      ensures SoundAtHead(head, claims[a]) <==> SoundAt(log, claims[a].selection.time - 1)
      ensures ClaimsAt(log, claims[a].selection.time - 1, claims[a].request)
    {
      SoundMeans(log, q, head, claims[a], claims[a].selection.time - 1);
      ClaimIsAt(log, q, claims[a], claims[a].selection.time - 1);
    }
    forall i: nat, request | ClaimsAt(log, i, request)
      ensures ClaimedAt(claims, i, request)
    {
      var claim := ClaimAt(log, q, i, request);
      assert claim in claims;
    }
  }

  lemma PickedYields(log: seq<Record>, head: Head, claims: seq<Claim>, a: nat, b: nat)
    requires SameClaims(log, head, claims) && a < |claims| && b < |claims| && claims[b].request == claims[a].request
    requires Picked(head, claims, a)
    ensures Yields(log, claims[b].selection.time - 1, claims[a].selection.time - 1)
  {
    hide SoundAtHead, SoundAt, ClaimsAt, ClaimedAt;
  }

  lemma ClaimIsFound(log: seq<Record>, head: Head, claims: seq<Claim>, j: nat, request: Id)
    requires SameClaims(log, head, claims) && ClaimsAt(log, j, request)
    ensures j < |log| && ClaimedAt(claims, j, request)
  {
    ClaimsOne(log, j, request);
    hide SoundAtHead, SoundAt, ClaimsAt, ClaimedAt;
  }

  lemma PickedOutranks(log: seq<Record>, head: Head, claims: seq<Claim>, a: nat, j: nat)
    requires SameClaims(log, head, claims) && a < |claims| && Picked(head, claims, a)
    requires ClaimsAt(log, j, claims[a].request)
    ensures j < |log| && Yields(log, j, claims[a].selection.time - 1)
  {
    hide SameClaims, ClaimsAt, Picked, Yields;
    ClaimIsFound(log, head, claims, j, claims[a].request);
    var b :| 0 <= b < |claims| && claims[b].selection.time == j + 1 && claims[b].request == claims[a].request;
    PickedYields(log, head, claims, a, b);
  }

  lemma PickedIsEvaluated(log: seq<Record>, head: Head, claims: seq<Claim>, a: nat)
    requires SameClaims(log, head, claims) && a < |claims| && Picked(head, claims, a)
    ensures EvaluatedAt(log, claims[a].selection.time - 1, claims[a].request)
  {
    hide SoundAtHead, SoundAt, ClaimsAt, ClaimedAt, Picked, Yields;
    var i, request := claims[a].selection.time - 1, claims[a].request;
    assert ClaimsAt(log, i, request);
    hide SameClaims;
    forall j: nat | ClaimsAt(log, j, request)
      ensures j < |log| && Yields(log, j, i)
    {
      PickedOutranks(log, head, claims, a, j);
    }
  }

  lemma EvaluatedIsPicked(log: seq<Record>, head: Head, claims: seq<Claim>, a: nat)
    requires SameClaims(log, head, claims) && a < |claims|
    requires EvaluatedAt(log, claims[a].selection.time - 1, claims[a].request)
    ensures Picked(head, claims, a)
  {
    hide SoundAtHead, SoundAt, ClaimsAt, ClaimedAt;
    forall b | 0 <= b < |claims| && claims[b].request == claims[a].request
      ensures Yields(log, claims[b].selection.time - 1, claims[a].selection.time - 1)
    {
    }
  }

  /** A claim is picked exactly when the log says it is the one that counts. */
  lemma PickedMeans(log: seq<Record>, head: Head, claims: seq<Claim>, a: nat)
    requires SameClaims(log, head, claims) && a < |claims|
    ensures Picked(head, claims, a) <==> EvaluatedAt(log, claims[a].selection.time - 1, claims[a].request)
  {
    hide Picked, EvaluatedAt;
    var i: nat := claims[a].selection.time - 1;
    hide SameClaims;
    if Picked(head, claims, a) {
      PickedIsEvaluated(log, head, claims, a);
    } else if EvaluatedAt(log, i, claims[a].request) {
      EvaluatedIsPicked(log, head, claims, a);
    }
  }

  lemma ClaimIsAt(log: seq<Record>, q: Context, claim: Claim, i: nat)
    requires HasIndex(q) && Indexed(log, q) && ClaimOfAt(log, q, claim, i)
    ensures ClaimsAt(log, i, claim.request)
  {
    hide Indexed, ClaimIn, ClaimsAt;
    ClaimMeans(log, q, i);
  }

  lemma ClaimAt(log: seq<Record>, q: Context, j: nat, request: Id) returns (claim: Claim)
    requires HasIndex(q) && Indexed(log, q) && ClaimsAt(log, j, request)
    ensures j < |log| && ClaimOfAt(log, q, claim, j) && claim.request == request && claim.selection.time == j + 1
  {
    ClaimsOne(log, j, request);
    hide Indexed, ClaimIn, ClaimsAt;
    ClaimMeans(log, q, j);
    FoundAt(log, q, j);
    claim := ClaimIn(q, log[j]).value;
  }

  lemma ClaimsOne(log: seq<Record>, j: nat, request: Id)
    requires ClaimsAt(log, j, request)
    ensures j < |log| && forall other :: ClaimsAt(log, j, other) ==> other == request
  {
    hide Concerns;
  }

  // ----- Clause by clause -------------------------------------------------------------------------------

  /** What a claim holds, said of the log. */
  ghost predicate Holds(log: seq<Record>, claim: Claim, i: nat) {
    ClaimSays(log, i, claim) && claim.used != []
  }

  lemma ClaimHolds(log: seq<Record>, q: Context, claim: Claim, i: nat)
    requires HasIndex(q) && Indexed(log, q) && ClaimOfAt(log, q, claim, i)
    ensures Holds(log, claim, i)
  {
    hide Indexed, ClaimIn, UsesAt, RequirementAt;
    ClaimMeans(log, q, i);
    ConcernsInside(log, i, claim.request);
    var k: nat, m: nat :| k < |log| && m < |log| && UsesAt(log, i, k) && BindsAt(log, k, m)
                          && RequirementAt(log, m, claim.request);
    assert log[k] in claim.used;
  }

  lemma DemandedMeans(log: seq<Record>, q: Context, head: Head, m: nat, request: Id)
    requires HasIndex(q) && Indexed(log, q) && Reported(log, head) && m < |log|
    ensures Demanded(q, head, request, log[m]) <==> DemandedAt(log, m, request)
  {
    hide Indexed, SoundAt, IsRetracted, PassedAt, FirstNames, RequestOf;
    FoundAt(log, q, m);
    RequestMeans(log, q, log[m].id, request);
    if n: nat :| n < |log| && RequirementAt(log, n, request) && log[n].id == log[m].id {
      OneRecord(log, q, n, m);
    }
  }

  lemma BindsMeans(log: seq<Record>, k: nat, m: nat)
    requires k < |log| && m < |log|
    ensures Delivery.Binds(log[k], log[m].id) <==> BindsAt(log, k, m)
  {
  }

  /** One requirement has a passing evaluation among those used, or none has. */
  lemma PassesMeans(log: seq<Record>, q: Context, head: Head, claim: Claim, i: nat, m: nat)
    requires HasIndex(q) && Indexed(log, q) && Reported(log, head) && Holds(log, claim, i) && m < |log|
    ensures MetAt(log, i, m) <==> MetAmong(head, claim.used, |claim.used|, log[m].id)
  {
    hide Indexed, Reported, IsRetracted, UsesAt, ClaimsAt;
    if k: nat :| PassesAt(log, i, k, m) {
      BindsMeans(log, k, m);
      UsedInside(log, i, k);
      ReportedAt(log, head, k);
      assert log[k] in claim.used;
    }
    if k :| 0 <= k < |claim.used| && Meets(head, claim.used[k], log[m].id) {
      assert claim.used[k] in claim.used;
      var n: nat :| n < |log| && UsesAt(log, i, n) && log[n] == claim.used[k];
      BindsMeans(log, n, m);
      ReportedAt(log, head, n);
      assert PassesAt(log, i, n, m);
    }
  }

  lemma UsedInside(log: seq<Record>, i: nat, k: nat)
    requires i < |log| && UsesAt(log, i, k)
    ensures k < |log|
  {
  }

  /** The requirements a delivery must meet are those the log says. */
  ghost predicate SameDemands(log: seq<Record>, q: Context, head: Head, request: Id)
    requires HasIndex(q)
  {
    forall m: nat :: m < |log| ==> (Demanded(q, head, request, log[m]) <==> DemandedAt(log, m, request))
  }

  lemma DemandsAreSame(log: seq<Record>, q: Context, head: Head, request: Id)
    requires HasIndex(q) && Indexed(log, q) && Reported(log, head)
    ensures SameDemands(log, q, head, request)
  {
    hide Indexed, Reported, Demanded, DemandedAt;
    forall m: nat | m < |log|
      ensures Demanded(q, head, request, log[m]) <==> DemandedAt(log, m, request)
    {
      DemandedMeans(log, q, head, m, request);
    }
  }

  lemma CoveredAgrees(log: seq<Record>, q: Context, head: Head, claim: Claim, i: nat)
    requires HasIndex(q) && q.records == log && i < |log| && SameDemands(log, q, head, claim.request)
    requires forall m: nat :: m < |log| ==>
               (MetAt(log, i, m) <==> MetAmong(head, claim.used, |claim.used|, log[m].id))
    ensures Covered(q, head, claim) <==> CoveredAt(log, i, claim.request)
  {
    hide Demanded, DemandedAt, MetAt, MetAmong, Covered, HasIndex;
    CoveredIsMet(q, head, claim);
    DemandedInside(log, claim.request);
  }

  lemma CoveredMeans(log: seq<Record>, q: Context, head: Head, claim: Claim, i: nat)
    requires HasIndex(q) && Indexed(log, q) && Reported(log, head) && Holds(log, claim, i)
    ensures Covered(q, head, claim) <==> CoveredAt(log, i, claim.request)
  {
    hide Indexed, Reported, Holds, MetAt, MetAmong, Covered, CoveredAt, SameDemands;
    HoldsInside(log, q, claim, i);
    DemandsAreSame(log, q, head, claim.request);
    forall m: nat | m < |log|
      ensures MetAt(log, i, m) <==> MetAmong(head, claim.used, |claim.used|, log[m].id)
    {
      PassesMeans(log, q, head, claim, i, m);
    }
    CoveredAgrees(log, q, head, claim, i);
  }

  lemma CoveredIsMet(q: Context, head: Head, claim: Claim)
    requires HasIndex(q)
    ensures Covered(q, head, claim) <==>
      forall m: nat :: m < |q.records| && Demanded(q, head, claim.request, q.records[m]) ==>
        MetAmong(head, claim.used, |claim.used|, q.records[m].id)
  {
    hide HasIndex, Demanded;
  }

  lemma HoldsInside(log: seq<Record>, q: Context, claim: Claim, i: nat)
    requires HasIndex(q) && Indexed(log, q) && Holds(log, claim, i)
    ensures i < |log| && q.records == log
  {
  }

  lemma DemandedInside(log: seq<Record>, request: Id)
    ensures forall m: nat :: DemandedAt(log, m, request) ==> m < |log|
  {
  }

  ghost predicate UsedAllPass(used: seq<Record>, id: Id) {
    forall k :: 0 <= k < |used| && Delivery.Binds(used[k], id) ==> used[k].data.outcome.Passed?
  }

  lemma AllPassEach(q: Context, head: Head, claim: Claim)
    requires HasIndex(q)
    ensures AllPass(q, head, claim) <==>
      forall m: nat :: m < |q.records| && Demanded(q, head, claim.request, q.records[m]) ==>
        UsedAllPass(claim.used, q.records[m].id)
  {
    hide HasIndex, Demanded;
  }

  lemma SpoilsMeans(log: seq<Record>, claim: Claim, i: nat, m: nat)
    requires Holds(log, claim, i) && m < |log|
    ensures NoneSpoilsAt(log, i, m) <==> UsedAllPass(claim.used, log[m].id)
  {
    hide UsesAt, ClaimsAt;
    if NoneSpoilsAt(log, i, m) {
      forall k | 0 <= k < |claim.used| && Delivery.Binds(claim.used[k], log[m].id)
        ensures claim.used[k].data.outcome.Passed?
      {
        assert claim.used[k] in claim.used;
        var n: nat :| n < |log| && UsesAt(log, i, n) && log[n] == claim.used[k];
        assert EvaluatesAt(log, i, n, m);
      }
    }
    forall k: nat | EvaluatesAt(log, i, k, m)
      ensures k < |log| && log[k] in claim.used && Delivery.Binds(log[k], log[m].id)
    {
      UsedInside(log, i, k);
    }
  }

  lemma UnspoiltAgrees(log: seq<Record>, q: Context, head: Head, claim: Claim, i: nat)
    requires HasIndex(q) && q.records == log && i < |log| && SameDemands(log, q, head, claim.request)
    requires forall m: nat :: m < |log| ==> (NoneSpoilsAt(log, i, m) <==> UsedAllPass(claim.used, log[m].id))
    ensures AllPass(q, head, claim) <==> UnspoiltAt(log, i, claim.request)
  {
    hide Demanded, DemandedAt, NoneSpoilsAt, UsedAllPass, AllPass, HasIndex;
    AllPassEach(q, head, claim);
    DemandedInside(log, claim.request);
  }

  lemma UnspoiltMeans(log: seq<Record>, q: Context, head: Head, claim: Claim, i: nat)
    requires HasIndex(q) && Indexed(log, q) && Reported(log, head) && Holds(log, claim, i)
    ensures AllPass(q, head, claim) <==> UnspoiltAt(log, i, claim.request)
  {
    hide Indexed, Reported, Holds, NoneSpoilsAt, UsedAllPass, AllPass, UnspoiltAt, SameDemands;
    HoldsInside(log, q, claim, i);
    DemandsAreSame(log, q, head, claim.request);
    forall m: nat | m < |log|
      ensures NoneSpoilsAt(log, i, m) <==> UsedAllPass(claim.used, log[m].id)
    {
      SpoilsMeans(log, claim, i, m);
    }
    UnspoiltAgrees(log, q, head, claim, i);
  }

  // ----- The candidate and its judges -------------------------------------------------------------------

  lemma ListsMean(list: Option<seq<ArtifactRef>>, a: ArtifactRef)
    ensures Lists(list, a) <==> ListsArtifact(list, a)
  {
    if list.Some? {
      assert forall k :: 0 <= k < |list.value| ==> list.value[k] in list.value;
    }
  }

  /** Accepted in the index is accepted in the log. */
  ghost predicate SameAccepted(log: seq<Record>, q: Context) {
    forall n: nat :: n < |log| ==> (IsAccepted(q, log[n].id) <==> PassedAt(log, n))
  }

  lemma AcceptedAreSame(log: seq<Record>, q: Context)
    requires HasIndex(q) && Indexed(log, q)
    ensures SameAccepted(log, q)
  {
    hide Indexed, IsAccepted, PassedAt;
    forall n: nat | n < |log|
      ensures IsAccepted(q, log[n].id) <==> PassedAt(log, n)
    {
      FoundAt(log, q, n);
    }
  }

  lemma ShownMeans(log: seq<Record>, q: Context, claim: Claim, i: nat, x: nat, a: ArtifactRef)
    requires q.records == log && SameAccepted(log, q) && Holds(log, claim, i) && x < |log|
    ensures OnRecord(q, claim, log[x], a) <==> ShownAt(log, i, x, a)
  {
    hide Lists, ListsArtifact, IsAccepted, PassedAt, ClaimsAt, UsesAt;
    forall list: Option<seq<ArtifactRef>>
      ensures Lists(list, a) <==> ListsArtifact(list, a)
    {
      ListsMean(list, a);
    }
    PassedInside(log);
  }

  lemma PassedInside(log: seq<Record>)
    ensures forall n: nat :: PassedAt(log, n) ==> n < |log|
  {
  }

  lemma JudgesMeans(log: seq<Record>, q: Context, claim: Claim, i: nat, x: nat, k: nat)
    requires q.records == log && SameAccepted(log, q) && Holds(log, claim, i) && ChoseAt(log, i, x) && k < |log|
    ensures claim.chosen == [log[x].id]
    ensures JudgesOnRecord(q, claim, Some(log[x]), log[k]) <==> JudgesAt(log, i, x, k)
  {
    hide OnRecord, ShownAt, ClaimsAt, UsesAt, SameAccepted;
    if log[k].data.EvaluationDataV2? {
      var evidence := log[k].data.evidence;
      forall a | a in evidence
        ensures OnRecord(q, claim, log[x], a) <==> ShownAt(log, i, x, a)
      {
        ShownMeans(log, q, claim, i, x, a);
      }
      assert forall m :: 0 <= m < |evidence| ==> evidence[m] in evidence;
    }
  }

  lemma NothingShown(q: Context, claim: Claim, evidence: seq<ArtifactRef>)
    requires evidence != []
    ensures !AllOnRecord(q, claim, None, evidence, |evidence|)
  {
    var first := evidence[0];
  }

  /** Without a chosen candidate on record, nothing used can judge it. */
  lemma NobodyJudges(q: Context, claim: Claim)
    requires HasIndex(q) && |claim.chosen| == 1 && Get(q, claim.chosen[0]).None? && claim.used != []
    ensures !BoundToCandidate(q, claim) && !OtherActors(q, claim)
  {
    hide HasIndex, OnRecord, AllOnRecord;
    var e := claim.used[0];
    if e.data.EvaluationDataV2? && e.data.evidence != [] {
      NothingShown(q, claim, e.data.evidence);
    }
    assert !JudgesOnRecord(q, claim, None, claim.used[0]);
  }

  lemma CandidateJudged(log: seq<Record>, q: Context, claim: Claim, i: nat, x: nat)
    requires HasIndex(q) && q.records == log && SameAccepted(log, q) && Holds(log, claim, i) && ChoseAt(log, i, x)
    requires Get(q, log[x].id) == Some(log[x])
    ensures BoundToCandidate(q, claim) <==> forall k: nat :: UsesAt(log, i, k) ==> JudgesAt(log, i, x, k)
  {
    UsedAreInside(log, i);
    JudgesMeans(log, q, claim, i, x, i);
    hide HasIndex, SameAccepted, ClaimsAt, UsesAt, JudgesAt, JudgesOnRecord, ChoseAt, Get;
    forall k: nat | UsesAt(log, i, k)
      ensures log[k] in claim.used
      ensures JudgesOnRecord(q, claim, Some(log[x]), log[k]) <==> JudgesAt(log, i, x, k)
    {
      JudgesMeans(log, q, claim, i, x, k);
    }
    assert forall k :: 0 <= k < |claim.used| ==> claim.used[k] in claim.used;
  }

  lemma CandidateIsOthers(log: seq<Record>, q: Context, claim: Claim, i: nat, x: nat)
    requires HasIndex(q) && q.records == log && Holds(log, claim, i) && ChoseAt(log, i, x)
    requires Get(q, log[x].id) == Some(log[x])
    ensures OtherActors(q, claim) <==> forall k: nat :: UsesAt(log, i, k) ==> log[k].author.id != log[x].author.id
  {
    UsedAreInside(log, i);
    hide HasIndex, ClaimsAt, UsesAt, Get;
    forall k: nat | UsesAt(log, i, k)
      ensures log[k] in claim.used
    {
    }
    assert forall k :: 0 <= k < |claim.used| ==> claim.used[k] in claim.used;
  }

  lemma DecidersMean(log: seq<Record>, claim: Claim, i: nat)
    requires Holds(log, claim, i)
    ensures DecidersBound(claim) <==> DecidedAt(log, i)
  {
    UsedAreInside(log, i);
    hide ClaimsAt, UsesAt;
    forall k: nat | UsesAt(log, i, k)
      ensures log[k] in claim.used
    {
    }
    assert forall k :: 0 <= k < |claim.used| ==> claim.used[k] in claim.used;
  }

  lemma ChosenIsThere(log: seq<Record>, q: Context, claim: Claim, i: nat)
    requires HasIndex(q) && Indexed(log, q) && Holds(log, claim, i)
    requires |claim.chosen| == 1 && Get(q, claim.chosen[0]).Some?
    ensures exists x: nat :: ChoseAt(log, i, x)
  {
    hide ClaimsAt, UsesAt;
    assert claim.chosen == [claim.chosen[0]];
    FoundIsThere(log, q, claim.chosen[0], Get(q, claim.chosen[0]).value);
    var x: nat :| x < |log| && log[x].id == claim.chosen[0];
    assert ChoseAt(log, i, x);
  }

  lemma NoneChosen(log: seq<Record>, q: Context, claim: Claim, i: nat)
    requires HasIndex(q) && Indexed(log, q) && Holds(log, claim, i) && !exists x: nat :: ChoseAt(log, i, x)
    ensures !BoundToCandidate(q, claim) && !OtherActors(q, claim)
  {
    hide ClaimsAt, UsesAt, BoundToCandidate, OtherActors;
    if |claim.chosen| != 1 {
      NotOne(q, claim);
    } else if Get(q, claim.chosen[0]).None? {
      NobodyJudges(q, claim);
    } else {
      ChosenIsThere(log, q, claim, i);
    }
  }

  lemma NotOne(q: Context, claim: Claim)
    requires HasIndex(q) && |claim.chosen| != 1
    ensures !BoundToCandidate(q, claim) && !OtherActors(q, claim)
  {
  }

  lemma OneChosen(log: seq<Record>, q: Context, i: nat, x: nat, y: nat)
    requires HasIndex(q) && Indexed(log, q) && ChoseAt(log, i, x) && ChoseAt(log, i, y)
    ensures x == y
  {
    hide Indexed;
    assert [log[x].id][0] == [log[y].id][0];
    OneRecord(log, q, x, y);
  }

  lemma BoundCandidate(log: seq<Record>, q: Context, claim: Claim, i: nat)
    requires HasIndex(q) && Indexed(log, q) && Holds(log, claim, i)
    ensures BoundToCandidate(q, claim) <==> BoundAt(log, i)
    ensures OtherActors(q, claim) <==> IndependentAt(log, i)
  {
    hide Indexed, ClaimsAt, UsesAt, BoundToCandidate, OtherActors, JudgesAt, Holds;
    HoldsInside(log, q, claim, i);
    if x: nat :| ChoseAt(log, i, x) {
      hide ChoseAt;
      forall y: nat | ChoseAt(log, i, y)
        ensures y == x
      {
        OneChosen(log, q, i, x, y);
      }
      ChoseInside(log, i, x);
      FoundAt(log, q, x);
      AcceptedAreSame(log, q);
      CandidateJudged(log, q, claim, i, x);
      CandidateIsOthers(log, q, claim, i, x);
    } else {
      NoneChosen(log, q, claim, i);
    }
  }

  lemma ChoseInside(log: seq<Record>, i: nat, x: nat)
    requires ChoseAt(log, i, x)
    ensures x < |log|
  {
  }

  lemma UsedAreInside(log: seq<Record>, i: nat)
    requires i < |log|
    ensures forall k: nat :: UsesAt(log, i, k) ==> k < |log|
  {
  }

  // ----- The whole receipt --------------------------------------------------------------------------------

  /** Every clause of one claim, in the log's own terms. */
  ghost predicate SameFacts(log: seq<Record>, q: Context, head: Head, claim: Claim, i: nat)
    requires HasIndex(q) && i < |log|
  {
    && (Covered(q, head, claim) <==> CoveredAt(log, i, claim.request))
    && (AllPass(q, head, claim) <==> UnspoiltAt(log, i, claim.request))
    && (BoundToCandidate(q, claim) <==> BoundAt(log, i))
    && (OtherActors(q, claim) <==> IndependentAt(log, i))
    && (DecidersBound(claim) <==> DecidedAt(log, i))
    && (SoundAtHead(head, claim) <==> SoundAt(log, i))
  }

  lemma FactsAreSame(log: seq<Record>, q: Context, head: Head, claim: Claim, i: nat)
    requires HasIndex(q) && Indexed(log, q) && Reported(log, head) && ClaimOfAt(log, q, claim, i)
    ensures SameFacts(log, q, head, claim, i)
  {
    hide Indexed, Reported, ClaimOfAt, Holds, Covered, CoveredAt, AllPass, UnspoiltAt, BoundToCandidate,
         BoundAt, OtherActors, IndependentAt, DecidersBound, DecidedAt, SoundAtHead, SoundAt;
    ClaimHolds(log, q, claim, i);
    CoveredMeans(log, q, head, claim, i);
    UnspoiltMeans(log, q, head, claim, i);
    BoundCandidate(log, q, claim, i);
    DecidersMean(log, claim, i);
    SoundMeans(log, q, head, claim, i);
  }

  /** The picked claims are the claims that count, and each says what the log says. */
  ghost predicate SamePicks(log: seq<Record>, q: Context, head: Head, picked: seq<Claim>)
    requires HasIndex(q)
  {
    && (forall a :: 0 <= a < |picked| ==>
          && 0 < picked[a].selection.time <= |log|
          && EvaluatedAt(log, picked[a].selection.time - 1, picked[a].request)
          && SameFacts(log, q, head, picked[a], picked[a].selection.time - 1))
    && (forall i: nat, request :: EvaluatedAt(log, i, request) ==> ClaimedAt(picked, i, request))
  }

  lemma PickIsEvaluated(log: seq<Record>, head: Head, claims: seq<Claim>, claim: Claim)
    requires SameClaims(log, head, claims) && claim in PickedAmong(head, claims, |claims|)
    ensures claim in claims && 0 < claim.selection.time <= |log|
    ensures EvaluatedAt(log, claim.selection.time - 1, claim.request)
  {
    hide EvaluatedAt, SameClaims, Picked;
    var b :| 0 <= b < |claims| && claims[b] == claim && Picked(head, claims, b);
    ClaimInside(log, head, claims, b);
    PickedMeans(log, head, claims, b);
  }

  lemma ClaimInside(log: seq<Record>, head: Head, claims: seq<Claim>, b: nat)
    requires SameClaims(log, head, claims) && b < |claims|
    ensures 0 < claims[b].selection.time <= |log|
  {
    hide ClaimsAt, SoundAtHead, SoundAt, ClaimedAt;
  }

  lemma EvaluatedIsPick(log: seq<Record>, head: Head, claims: seq<Claim>, i: nat, request: Id)
    requires SameClaims(log, head, claims) && EvaluatedAt(log, i, request)
    ensures ClaimedAt(PickedAmong(head, claims, |claims|), i, request)
  {
    EvaluatedClaims(log, head, claims, i, request);
    hide PickedAmong, EvaluatedAt, ClaimsAt, SoundAtHead, SoundAt, Picked;
    var b :| 0 <= b < |claims| && claims[b].selection.time == i + 1 && claims[b].request == request;
    PickedMeans(log, head, claims, b);
    assert claims[b] in PickedAmong(head, claims, |claims|);
  }

  lemma PicksFollow(log: seq<Record>, q: Context, head: Head, claims: seq<Claim>)
    requires HasIndex(q) && SameClaims(log, head, claims)
    requires forall claim :: claim in claims ==>
               0 < claim.selection.time <= |log| && SameFacts(log, q, head, claim, claim.selection.time - 1)
    ensures SamePicks(log, q, head, PickedAmong(head, claims, |claims|))
  {
    hide HasIndex, SameFacts, EvaluatedAt, SameClaims, PickedAmong, ClaimedAt;
    var picked := PickedAmong(head, claims, |claims|);
    forall a | 0 <= a < |picked|
      ensures 0 < picked[a].selection.time <= |log|
      ensures EvaluatedAt(log, picked[a].selection.time - 1, picked[a].request)
      ensures SameFacts(log, q, head, picked[a], picked[a].selection.time - 1)
    {
      PickIsEvaluated(log, head, claims, picked[a]);
    }
    forall i: nat, request | EvaluatedAt(log, i, request)
      ensures ClaimedAt(picked, i, request)
    {
      EvaluatedIsPick(log, head, claims, i, request);
    }
  }

  lemma FoundFacts(log: seq<Record>, q: Context, head: Head, claims: seq<Claim>)
    requires HasIndex(q) && Indexed(log, q) && Reported(log, head) && Found(log, q, claims, |log|)
    ensures forall claim :: claim in claims ==>
              0 < claim.selection.time <= |log| && SameFacts(log, q, head, claim, claim.selection.time - 1)
  {
    hide Indexed, Reported, HasIndex, SameFacts, ClaimOfAt;
    forall claim | claim in claims
      ensures 0 < claim.selection.time <= |log|
      ensures SameFacts(log, q, head, claim, claim.selection.time - 1)
    {
      FactsAreSame(log, q, head, claim, claim.selection.time - 1);
    }
  }

  lemma PicksAreSame(log: seq<Record>, q: Context, head: Head)
    requires HasIndex(q) && Indexed(log, q) && Reported(log, head)
    ensures var claims := ClaimsAmong(q, |log|);
            SamePicks(log, q, head, PickedAmong(head, claims, |claims|))
  {
    RecordsAre(log, q);
    hide Indexed, Reported, HasIndex, SameFacts, Found, ClaimsAmong, SameClaims, PickedAmong, SamePicks;
    var claims := ClaimsAmong(q, |log|);
    ClaimsAreFound(log, q, |log|);
    ClaimsAreTheSame(log, q, head, claims);
    FoundFacts(log, q, head, claims);
    PicksFollow(log, q, head, claims);
  }

  lemma EvaluatedClaims(log: seq<Record>, head: Head, claims: seq<Claim>, i: nat, request: Id)
    requires SameClaims(log, head, claims) && EvaluatedAt(log, i, request)
    ensures ClaimedAt(claims, i, request)
  {
    hide ClaimsAt, SoundAt, SoundAtHead;
  }

  lemma RecordsAre(log: seq<Record>, q: Context)
    requires HasIndex(q) && Indexed(log, q)
    ensures q.records == log
  {
  }

  /** What holds of every picked claim holds wherever the log has a claim that counts. */
  lemma EachPick(log: seq<Record>, q: Context, head: Head, picked: seq<Claim>, p: seq<bool>, at: (nat, Id) -> bool)
    requires HasIndex(q) && SamePicks(log, q, head, picked) && |p| == |picked|
    requires forall a :: 0 <= a < |picked| && 0 < picked[a].selection.time ==>
               (p[a] <==> at(picked[a].selection.time - 1, picked[a].request))
    ensures (forall a :: 0 <= a < |picked| ==> p[a]) <==> forall i: nat, r :: EvaluatedAt(log, i, r) ==> at(i, r)
  {
    hide HasIndex, SameFacts, EvaluatedAt;
    if forall a :: 0 <= a < |picked| ==> p[a] {
      forall i: nat, r | EvaluatedAt(log, i, r)
        ensures at(i, r)
      {
        assert ClaimedAt(picked, i, r);
        var a :| 0 <= a < |picked| && picked[a].selection.time == i + 1 && picked[a].request == r;
      }
    }
  }

  lemma FirstClauses(log: seq<Record>, q: Context, head: Head, picked: seq<Claim>)
    requires HasIndex(q) && SamePicks(log, q, head, picked)
    ensures (forall a :: 0 <= a < |picked| ==> Covered(q, head, picked[a])) <==> AllCovered(log)
    ensures (forall a :: 0 <= a < |picked| ==> AllPass(q, head, picked[a])) <==> AllUnspoilt(log)
    ensures (forall a :: 0 <= a < |picked| ==> BoundToCandidate(q, picked[a])) <==> AllBound(log)
  {
    EvaluatedInside(log);
    hide HasIndex, EvaluatedAt, Covered, CoveredAt, AllPass, UnspoiltAt, BoundToCandidate, BoundAt, OtherActors,
         IndependentAt, DecidersBound, DecidedAt, SoundAtHead, SoundAt, ClaimedAt;
    var n := |picked|;
    EachPick(log, q, head, picked, seq(n, a requires 0 <= a < n => Covered(q, head, picked[a])),
             (i: nat, r: Id) => i < |log| && CoveredAt(log, i, r));
    EachPick(log, q, head, picked, seq(n, a requires 0 <= a < n => AllPass(q, head, picked[a])),
             (i: nat, r: Id) => i < |log| && UnspoiltAt(log, i, r));
    EachPick(log, q, head, picked, seq(n, a requires 0 <= a < n => BoundToCandidate(q, picked[a])),
             (i: nat, r: Id) => i < |log| && BoundAt(log, i));
  }

  lemma LastClauses(log: seq<Record>, q: Context, head: Head, picked: seq<Claim>)
    requires HasIndex(q) && SamePicks(log, q, head, picked)
    ensures (forall a :: 0 <= a < |picked| ==> OtherActors(q, picked[a])) <==> AllIndependent(log)
    ensures (forall a :: 0 <= a < |picked| ==> DecidersBound(picked[a])) <==> AllDecided(log)
    ensures (forall a :: 0 <= a < |picked| ==> SoundAtHead(head, picked[a])) <==> AllSound(log)
  {
    EvaluatedInside(log);
    hide HasIndex, EvaluatedAt, Covered, CoveredAt, AllPass, UnspoiltAt, BoundToCandidate, BoundAt, OtherActors,
         IndependentAt, DecidersBound, DecidedAt, SoundAtHead, SoundAt, ClaimedAt;
    var n := |picked|;
    EachPick(log, q, head, picked, seq(n, a requires 0 <= a < n => OtherActors(q, picked[a])),
             (i: nat, r: Id) => i < |log| && IndependentAt(log, i));
    EachPick(log, q, head, picked, seq(n, a requires 0 <= a < n => DecidersBound(picked[a])),
             (i: nat, r: Id) => i < |log| && DecidedAt(log, i));
    EachPick(log, q, head, picked, seq(n, a requires 0 <= a < n => SoundAtHead(head, picked[a])),
             (i: nat, r: Id) => i < |log| && SoundAt(log, i));
  }

  lemma SomePick(log: seq<Record>, q: Context, head: Head, picked: seq<Claim>)
    requires HasIndex(q) && SamePicks(log, q, head, picked)
    ensures picked != [] <==> exists i: nat, r :: EvaluatedAt(log, i, r)
  {
    hide HasIndex, EvaluatedAt, SameFacts;
    if picked != [] {
      assert EvaluatedAt(log, picked[0].selection.time - 1, picked[0].request);
    }
    if i: nat, r: Id :| EvaluatedAt(log, i, r) {
      assert ClaimedAt(picked, i, r);
    }
  }

  lemma ProfileMeans(log: seq<Record>, q: Context, head: Head, core: bool, picked: seq<Claim>)
    requires HasIndex(q) && SamePicks(log, q, head, picked)
    ensures Profile(q, head, core, picked) == ReceiptOf(log, core)
  {
    hide HasIndex, SamePicks, EvaluatedAt, Covered, AllPass, BoundToCandidate, OtherActors, DecidersBound, SoundAtHead,
         AllCovered, AllUnspoilt, AllBound, AllIndependent, AllDecided, AllSound;
    SomePick(log, q, head, picked);
    FirstClauses(log, q, head, picked);
    LastClauses(log, q, head, picked);
  }

  lemma EvaluatedInside(log: seq<Record>)
    ensures forall i: nat, request :: EvaluatedAt(log, i, request) ==> i < |log|
  {
    hide SoundAt, Concerns;
  }

  // ----- On a verified log ----------------------------------------------------------------------------------

  lemma LogIsIndexed(c: Crypto, rules: Rules, log: seq<Record>)
    requires LawfulLog(c, rules, log)
    ensures Indexed(log, ContextOf(log))
  {
    hide LawfulLog, StateOf, RegimeOf, IsAccepted, PassedAt, Get;
    forall k: nat | k < |log|
      ensures Get(ContextOf(log), log[k].id) == Some(log[k]) && log[k].time == k + 1
      ensures IsAccepted(ContextOf(log), log[k].id) <==> PassedAt(log, k)
    {
      IndexedAt(c, rules, log, k);
    }
  }

  lemma IndexedAt(c: Crypto, rules: Rules, log: seq<Record>, k: nat)
    requires LawfulLog(c, rules, log) && k < |log|
    ensures Get(ContextOf(log), log[k].id) == Some(log[k]) && log[k].time == k + 1
    ensures IsAccepted(ContextOf(log), log[k].id) <==> PassedAt(log, k)
  {
    hide Lawful, RegimeOf, StateOf;
    RegimeHolds(c, rules);
    VerifiedIsPaired(RegimeOf(c, rules), log);
    PositionFacts(RegimeOf(c, rules), log, k);
    RecordIsFound(c, rules, log, k);
    AcceptedExactly(log, log[k].id);
    if j: nat :| AcceptedAt(log, j) && log[j].id == log[k].id {
      SameIdSameRecord(c, rules, log, j, k);
    }
  }

  /** What standing calls unsound is retracted or tainted, so it adds nothing here. */
  lemma UnsoundIsWithdrawn(log: seq<Record>, id: Id)
    ensures id in HeadOfLog(log).unsound ==> id in HeadOfLog(log).retracted || id in HeadOfLog(log).tainted
  {
    hide StateOf;
  }

  lemma HeadIsReported(log: seq<Record>)
    requires |log| % 2 == 0
    ensures Reported(log, HeadOfLog(log))
  {
    hide StateOf, Fold, StandingOfLog, IsRetracted, AcceptedOf, RestsOnRetracted;
    StateIsFold(log);
    IndexIsExact(AcceptedOf(log));
    forall k: nat | k < |log|
      ensures log[k].id in HeadOfLog(log).tainted <==> RestsOnRetracted(AcceptedOf(log), log[k].id)
      ensures log[k].id in HeadOfLog(log).unsound ==>
                log[k].id in HeadOfLog(log).retracted || log[k].id in HeadOfLog(log).tainted
    {
      TaintIsExact(AcceptedOf(log), log[k].id);
      UnsoundIsWithdrawn(log, log[k].id);
    }
  }

  /** A selection is a claim exactly when the log says so; the claim is of the request the
      log says, and holds every accepted evaluation the selection used, and nothing else. */
  lemma ClaimsAreDeclared(c: Crypto, rules: Rules, log: seq<Record>, i: nat)
    requires LawfulLog(c, rules, log) && i < |log|
    ensures var claim := ClaimIn(ContextOf(log), log[i]);
            && (claim.Some? <==> exists request: Id :: ClaimsAt(log, i, request))
            && (claim.Some? ==> ClaimSays(log, i, claim.value))
  {
    hide LawfulLog, ContextOf, ClaimIn, ClaimsAt, ClaimSays, Indexed;
    LogIsIndexed(c, rules, log);
    ClaimMeans(log, ContextOf(log), i);
  }

  /** The receipt computed over the claims is the receipt the log itself calls for. */
  lemma ReceiptIsTheLogs(c: Crypto, rules: Rules, log: seq<Record>, core: bool)
    requires LawfulLog(c, rules, log)
    ensures var q, head := ContextOf(log), HeadOfLog(log);
            var claims := ClaimsAmong(q, |log|);
            Profile(q, head, core, PickedAmong(head, claims, |claims|)) == ReceiptOf(log, core)
  {
    hide Lawful, RegimeOf, Collisionless, Indexed, Reported, ContextOf, HeadOfLog, ClaimsAmong, PickedAmong, SamePicks,
         Profile, ReceiptOf;
    var q, head := ContextOf(log), HeadOfLog(log);
    VerifiedIsPaired(RegimeOf(c, rules), log);
    LogIsIndexed(c, rules, log);
    HeadIsReported(log);
    PicksAreSame(log, q, head);
    RecordsAre(log, q);
    var claims := ClaimsAmong(q, |log|);
    ProfileMeans(log, q, head, core, PickedAmong(head, claims, |claims|));
  }
}
