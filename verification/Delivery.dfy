// The delivery profile over a validated log: which claims it evaluates, what each clause
// asks, and what a conformant receipt rests on.
module Delivery {
  import opened Records
  import opened Queries

  /** One delivery claim: an accepted selection whose used evaluations bind to requirements
      of exactly one request. */
  datatype Claim = Claim(selection: Record, request: Id, chosen: seq<Id>, used: seq<Record>)

  /** What validation reported at the head of the log. */
  datatype Head = Head(retracted: set<Id>, tainted: set<Id>, unsound: set<Id>)

  // ----- Claims ----------------------------------------------------------------------------

  predicate IsAccepted(q: Context, id: Id) {
    id in q.accepted && id in q.byId
  }

  /** The request a requirement belongs to: the target of its first Cause. */
  function RequestOf(q: Context, requirement: Id): Option<Id>
    requires HasIndex(q)
  {
    var r := Get(q, requirement);
    if r.None? || r.value.kind != Requirement || !IsAccepted(q, requirement) then None
    else FirstTarget(r.value.refs, Cause)
  }

  /** The accepted evaluations among some ids, in order. */
  function EvaluationsAmong(q: Context, ids: seq<Id>): (out: seq<Record>)
    requires HasIndex(q)
    ensures forall e :: e in out <==>
              e.id in ids && e.kind == Evaluation && IsAccepted(q, e.id) && Get(q, e.id) == Some(e)
  {
    if ids == [] then []
    else
      var r := Get(q, ids[0]);
      assert ids == [ids[0]] + ids[1..];
      (if r.Some? && r.value.kind == Evaluation && IsAccepted(q, ids[0]) then [r.value] else [])
      + EvaluationsAmong(q, ids[1..])
  }

  predicate Binds(e: Record, requirement: Id) {
    e.data.EvaluationDataV2? && requirement in e.data.requirements
  }

  /** The requests the bound requirements of some evaluations belong to. */
  function RequestsBound(q: Context, used: seq<Record>): set<Id>
    requires HasIndex(q)
  {
    set e, rid | e in used && e.data.EvaluationDataV2? && rid in e.data.requirements && RequestOf(q, rid).Some? ::
      RequestOf(q, rid).value
  }

  function TheOne(s: set<Id>): (x: Id)
    requires |s| == 1
    ensures s == {x}
  {
    var x :| x in s;
    assert |s - {x}| == 0;
    assert forall y :: y in s && y != x ==> y in s - {x};
    assert s == {x};
    x
  }

  function ClaimIn(q: Context, r: Record): Option<Claim>
    requires HasIndex(q)
  {
    if r.kind != Selection || !IsAccepted(q, r.id) || !r.data.SelectionData? || !r.data.decision.Selected? then None
    else
      var used := EvaluationsAmong(q, Targets(r.refs, Use));
      var requests := RequestsBound(q, used);
      if |requests| != 1 then None
      else Some(Claim(r, TheOne(requests), r.data.decision.candidates, used))
  }

  /** All claims of the first `n` records, in log order. */
  function ClaimsAmong(q: Context, n: nat): (out: seq<Claim>)
    requires HasIndex(q) && n <= |q.records|
    ensures forall c :: c in out ==> c.selection in q.records && ClaimIn(q, c.selection) == Some(c)
  {
    if n == 0 then []
    else
      var claim := ClaimIn(q, q.records[n - 1]);
      ClaimsAmong(q, n - 1) + (if claim.Some? then [claim.value] else [])
  }

  // ----- One claim per request ---------------------------------------------------------------

  predicate SoundAtHead(head: Head, c: Claim) {
    c.selection.id !in head.unsound && c.selection.id !in head.retracted && c.selection.id !in head.tainted
  }

  /** Evaluated: the latest sound claim of its request, or the latest when none is sound. */
  predicate Picked(head: Head, claims: seq<Claim>, i: nat)
    requires i < |claims|
  {
    if SoundAtHead(head, claims[i]) then
      forall j :: i < j < |claims| && claims[j].request == claims[i].request ==> !SoundAtHead(head, claims[j])
    else
      forall j :: 0 <= j < |claims| && claims[j].request == claims[i].request ==>
        !SoundAtHead(head, claims[j]) && j <= i
  }

  /** Position of the pick for a request: last sound one, else last one. */
  method PickFor(head: Head, claims: seq<Claim>, request: Id) returns (pick: nat)
    requires exists i :: 0 <= i < |claims| && claims[i].request == request
    ensures pick < |claims| && claims[pick].request == request && Picked(head, claims, pick)
  {
    var last: Option<nat>, sound: Option<nat> := None, None;
    var i := 0;
    while i < |claims|
      invariant 0 <= i <= |claims|
      invariant last.Some? ==> last.value < i && claims[last.value].request == request
      invariant forall j :: 0 <= j < i && claims[j].request == request ==> last.Some? && j <= last.value
      invariant sound.Some? ==>
        sound.value < i && claims[sound.value].request == request && SoundAtHead(head, claims[sound.value])
      invariant forall j :: 0 <= j < i && claims[j].request == request && SoundAtHead(head, claims[j]) ==>
        sound.Some? && j <= sound.value
    {
      if claims[i].request == request {
        last := Some(i);
        if SoundAtHead(head, claims[i]) {
          sound := Some(i);
        }
      }
      i := i + 1;
    }
    pick := if sound.Some? then sound.value else last.value;
  }

  /** Exactly one claim of each request is picked. */
  lemma OnePickEach(head: Head, claims: seq<Claim>, i: nat, j: nat)
    requires i < |claims| && j < |claims| && claims[i].request == claims[j].request
    requires Picked(head, claims, i) && Picked(head, claims, j)
    ensures i == j
  {
  }

  /** Every request with a claim has its pick, and only that one. */
  lemma {:induction false} EachRequestHasItsPick(head: Head, claims: seq<Claim>, i: nat) returns (pick: nat)
    requires i < |claims|
    ensures pick < |claims| && claims[pick].request == claims[i].request
    ensures forall j :: 0 <= j < |claims| && claims[j].request == claims[i].request ==>
              (Picked(head, claims, j) <==> j == pick)
    decreases if SoundAtHead(head, claims[i]) then 0 else 1, |claims| - i
  {
    if Picked(head, claims, i) {
      pick := i;
    } else if SoundAtHead(head, claims[i]) {
      var j :| i < j < |claims| && claims[j].request == claims[i].request && SoundAtHead(head, claims[j]);
      pick := EachRequestHasItsPick(head, claims, j);
    } else {
      var j :| 0 <= j < |claims| && claims[j].request == claims[i].request && (SoundAtHead(head, claims[j]) || j > i);
      pick := EachRequestHasItsPick(head, claims, j);
    }
  }

  /** The picked claims among the first `n`, in log order. */
  ghost function PickedAmong(head: Head, claims: seq<Claim>, n: nat): (out: seq<Claim>)
    requires n <= |claims|
    ensures forall c :: c in out <==> exists i :: 0 <= i < n && claims[i] == c && Picked(head, claims, i)
  {
    if n == 0 then []
    else PickedAmong(head, claims, n - 1) + (if Picked(head, claims, n - 1) then [claims[n - 1]] else [])
  }

  method FindClaims(q: Context) returns (claims: seq<Claim>)
    requires HasIndex(q)
    ensures claims == ClaimsAmong(q, |q.records|)
  {
    hide HasIndex, ClaimIn;
    claims := [];
    var i := 0;
    while i < |q.records|
      invariant 0 <= i <= |q.records|
      invariant claims == ClaimsAmong(q, i)
    {
      var claim := ClaimIn(q, q.records[i]);
      if claim.Some? {
        claims := claims + [claim.value];
      }
      i := i + 1;
    }
  }

  method PickClaims(head: Head, claims: seq<Claim>) returns (picked: seq<Claim>)
    ensures picked == PickedAmong(head, claims, |claims|)
  {
    hide SoundAtHead, Picked;
    picked := [];
    var i := 0;
    while i < |claims|
      invariant 0 <= i <= |claims|
      invariant picked == PickedAmong(head, claims, i)
    {
      var pick := PickFor(head, claims, claims[i].request);
      PickIsIt(head, claims, pick, i);
      if pick == i {
        picked := picked + [claims[i]];
      }
      i := i + 1;
    }
  }

  lemma PickIsIt(head: Head, claims: seq<Claim>, pick: nat, i: nat)
    requires pick < |claims| && i < |claims| && claims[pick].request == claims[i].request
    requires Picked(head, claims, pick)
    ensures Picked(head, claims, i) <==> pick == i
  {
    if Picked(head, claims, i) {
      OnePickEach(head, claims, pick, i);
    }
  }

  // ----- Clauses ----------------------------------------------------------------------------------

  /** A requirement the delivery must meet: accepted, live, required, under the request. */
  predicate Demanded(q: Context, head: Head, request: Id, r: Record)
    requires HasIndex(q)
  {
    && r.kind == Requirement && IsAccepted(q, r.id) && r.id !in head.retracted
    && RequestOf(q, r.id) == Some(request)
    && r.data.RequirementData? && r.data.required
  }

  /** D1: every such requirement has a passed, unretracted evaluation that binds it. */
  ghost predicate Covered(q: Context, head: Head, c: Claim)
    requires HasIndex(q)
  {
    forall i :: 0 <= i < |q.records| && Demanded(q, head, c.request, q.records[i]) ==>
      exists k :: 0 <= k < |c.used| && c.used[k].id !in head.retracted
                  && Binds(c.used[k], q.records[i].id) && c.used[k].data.outcome.Passed?
  }

  /** D2: no evaluation of a demanded requirement did anything but pass. */
  ghost predicate AllPass(q: Context, head: Head, c: Claim)
    requires HasIndex(q)
  {
    forall i, k ::
      (&& 0 <= i < |q.records| && 0 <= k < |c.used|
       && Demanded(q, head, c.request, q.records[i]) && Binds(c.used[k], q.records[i].id))
      ==> c.used[k].data.outcome.Passed?
  }

  ghost predicate Lists(artifacts: Option<seq<ArtifactRef>>, a: ArtifactRef) {
    artifacts.Some? && exists k :: 0 <= k < |artifacts.value| && artifacts.value[k].scheme == a.scheme
                                   && artifacts.value[k].digest == a.digest
  }

  /** An artifact the candidate or an accepted result of the same thread put on record. */
  ghost predicate OnRecord(q: Context, c: Claim, candidate: Record, a: ArtifactRef) {
    || (candidate.data.CandidateData? && Lists(candidate.data.artifacts, a))
    || exists i :: 0 <= i < |q.records| && q.records[i].kind == Kind.Result && IsAccepted(q, q.records[i].id)
                   && q.records[i].thread == c.selection.thread && q.records[i].data.ResultData?
                   && Lists(q.records[i].data.artifacts, a)
  }

  /** One used evaluation judges the candidate, on evidence all of which is on record. */
  ghost predicate JudgesOnRecord(q: Context, c: Claim, candidate: Option<Record>, e: Record)
    requires |c.chosen| == 1
  {
    && e.data.EvaluationDataV2? && e.data.candidate == c.chosen[0] && e.data.evidence != []
    && AllOnRecord(q, c, candidate, e.data.evidence, |e.data.evidence|)
  }

  ghost predicate AllOnRecord(q: Context, c: Claim, candidate: Option<Record>, evidence: seq<ArtifactRef>, n: nat)
    requires n <= |evidence|
  {
    forall m :: 0 <= m < n ==> candidate.Some? && OnRecord(q, c, candidate.value, evidence[m])
  }

  /** D3: one candidate, every used evaluation judges it, on evidence that is on record. */
  ghost predicate BoundToCandidate(q: Context, c: Claim)
    requires HasIndex(q)
  {
    && |c.chosen| == 1
    && forall k :: 0 <= k < |c.used| ==> JudgesOnRecord(q, c, Get(q, c.chosen[0]), c.used[k])
  }

  /** D4: whoever produced the candidate evaluated nothing. */
  ghost predicate OtherActors(q: Context, c: Claim)
    requires HasIndex(q)
  {
    && |c.chosen| == 1 && Get(q, c.chosen[0]).Some?
    && forall k :: 0 <= k < |c.used| ==> c.used[k].author.id != Get(q, c.chosen[0]).value.author.id
  }

  /** D5: every used evaluation names its procedure and its input. */
  ghost predicate DecidersBound(c: Claim) {
    c.used != [] && forall k :: 0 <= k < |c.used| ==> DeciderBound(c.used[k])
  }

  predicate DeciderBound(e: Record) {
    e.data.EvaluationDataV2? && e.data.evaluator.procedureHash.Some? && e.data.evaluator.inputHash.Some?
  }

  /** The results of clauses D0 to D7. */
  datatype Clauses = Clauses(d0: bool, d1: bool, d2: bool, d3: bool, d4: bool, d5: bool, d6: bool, d7: bool)

  predicate Conformant(r: Clauses) {
    r.d0 && r.d1 && r.d2 && r.d3 && r.d4 && r.d5 && r.d6 && r.d7
  }

  const ALL_FAILED := Clauses(false, false, false, false, false, false, false, false)

  /** What the profile says: a clause passes when it passes for every picked claim. */
  ghost function Profile(q: Context, head: Head, core: bool, picked: seq<Claim>): Clauses
    requires HasIndex(q)
  {
    if picked == [] then ALL_FAILED
    else Clauses(
      true,
      forall i :: 0 <= i < |picked| ==> Covered(q, head, picked[i]),
      forall i :: 0 <= i < |picked| ==> AllPass(q, head, picked[i]),
      forall i :: 0 <= i < |picked| ==> BoundToCandidate(q, picked[i]),
      forall i :: 0 <= i < |picked| ==> OtherActors(q, picked[i]),
      forall i :: 0 <= i < |picked| ==> DecidersBound(picked[i]),
      core,
      forall i :: 0 <= i < |picked| ==> SoundAtHead(head, picked[i]))
  }

  // ----- Clause by clause, one claim at a time -------------------------------------------------

  ghost predicate DemandedAmong(q: Context, head: Head, request: Id, n: nat, id: Id)
    requires HasIndex(q) && n <= |q.records|
  {
    exists i :: 0 <= i < n && Demanded(q, head, request, q.records[i]) && q.records[i].id == id
  }

  /** The requirements under a request that a delivery of it must meet. */
  method FindDemanded(q: Context, head: Head, request: Id) returns (ids: seq<Id>)
    requires HasIndex(q)
    ensures forall id :: id in ids <==> DemandedAmong(q, head, request, |q.records|, id)
  {
    hide HasIndex, Demanded;
    ids := [];
    var i := 0;
    while i < |q.records|
      invariant 0 <= i <= |q.records|
      invariant forall id :: id in ids <==> DemandedAmong(q, head, request, i, id)
    {
      if Demanded(q, head, request, q.records[i]) {
        ids := ids + [q.records[i].id];
      }
      i := i + 1;
    }
  }

  /** Some unretracted used evaluation of a requirement passed. */
  ghost predicate Meets(head: Head, e: Record, id: Id) {
    e.id !in head.retracted && Binds(e, id) && e.data.outcome.Passed?
  }

  ghost predicate MetAmong(head: Head, used: seq<Record>, n: nat, id: Id)
    requires n <= |used|
  {
    exists k :: 0 <= k < n && Meets(head, used[k], id)
  }

  method CoverAll(head: Head, used: seq<Record>, ids: seq<Id>) returns (all: bool)
    ensures all <==> forall id :: id in ids ==> MetAmong(head, used, |used|, id)
  {
    all := true;
    var i := 0;
    while i < |ids|
      invariant 0 <= i <= |ids|
      invariant all <==> forall j :: 0 <= j < i ==> MetAmong(head, used, |used|, ids[j])
    {
      var covered, k := false, 0;
      while k < |used|
        invariant 0 <= k <= |used|
        invariant covered <==> MetAmong(head, used, k, ids[i])
      {
        if used[k].id !in head.retracted && used[k].data.EvaluationDataV2? {
          covered := covered || (used[k].data.outcome.Passed? && ids[i] in used[k].data.requirements);
        }
        k := k + 1;
      }
      all := all && covered;
      i := i + 1;
    }
  }

  /** A used evaluation of one of some requirements did anything but pass. */
  ghost predicate Spoils(e: Record, ids: seq<Id>) {
    exists id :: id in ids && Binds(e, id) && !e.data.outcome.Passed?
  }

  method NoneSpoils(used: seq<Record>, ids: seq<Id>) returns (none: bool)
    ensures none <==> forall k :: 0 <= k < |used| ==> !Spoils(used[k], ids)
  {
    none := true;
    var k := 0;
    while k < |used|
      invariant 0 <= k <= |used|
      invariant none <==> forall j :: 0 <= j < k ==> !Spoils(used[j], ids)
    {
      var e := used[k];
      if e.data.EvaluationDataV2? && !e.data.outcome.Passed? {
        var i := 0;
        while i < |e.data.requirements| && e.data.requirements[i] !in ids
          invariant 0 <= i <= |e.data.requirements|
          invariant forall j :: 0 <= j < i ==> e.data.requirements[j] !in ids
        {
          i := i + 1;
        }
        if i < |e.data.requirements| {
          assert Binds(e, e.data.requirements[i]);
        }
        none := none && i == |e.data.requirements|;
      }
      k := k + 1;
    }
  }

  /** What artifacts are compared by: the name is not part of it. */
  function KeyOf(a: ArtifactRef): (string, string) {
    (a.scheme, a.digest)
  }

  method KeysOf(artifacts: Option<seq<ArtifactRef>>) returns (keys: set<(string, string)>)
    ensures forall a: ArtifactRef :: KeyOf(a) in keys <==> Lists(artifacts, a)
  {
    keys := {};
    if artifacts.Some? {
      var i := 0;
      while i < |artifacts.value|
        invariant 0 <= i <= |artifacts.value|
        invariant forall a: ArtifactRef :: KeyOf(a) in keys <==>
                    exists k :: 0 <= k < i && artifacts.value[k].scheme == a.scheme && artifacts.value[k].digest == a.digest
      {
        keys := keys + {KeyOf(artifacts.value[i])};
        i := i + 1;
      }
    }
  }

  /** An accepted result of the claim's thread lists the artifact. */
  ghost predicate ResultLists(q: Context, c: Claim, r: Record, a: ArtifactRef) {
    && r.kind == Kind.Result && IsAccepted(q, r.id) && r.thread == c.selection.thread && r.data.ResultData?
    && Lists(r.data.artifacts, a)
  }

  /** The artifacts the candidate and the accepted results of its thread put on record. */
  method FindOnRecord(q: Context, c: Claim, candidate: Record) returns (keys: set<(string, string)>)
    ensures forall a: ArtifactRef :: KeyOf(a) in keys <==> OnRecord(q, c, candidate, a)
  {
    hide Lists, KeyOf, IsAccepted;
    keys := {};
    if candidate.data.CandidateData? {
      keys := KeysOf(candidate.data.artifacts);
    }
    var i := 0;
    while i < |q.records|
      invariant 0 <= i <= |q.records|
      invariant forall a: ArtifactRef :: KeyOf(a) in keys <==>
                  || (candidate.data.CandidateData? && Lists(candidate.data.artifacts, a))
                  || exists k :: 0 <= k < i && ResultLists(q, c, q.records[k], a)
    {
      var r := q.records[i];
      if r.kind == Kind.Result && IsAccepted(q, r.id) && r.thread == c.selection.thread && r.data.ResultData? {
        var more := KeysOf(r.data.artifacts);
        keys := keys + more;
      }
      i := i + 1;
    }
  }

  method CitesOnRecord(q: Context, c: Claim, candidate: Option<Record>, e: Record, keys: set<(string, string)>)
    returns (good: bool)
    requires |c.chosen| == 1
    requires forall a: ArtifactRef :: KeyOf(a) in keys <==> candidate.Some? && OnRecord(q, c, candidate.value, a)
    ensures good <==> JudgesOnRecord(q, c, candidate, e)
  {
    hide OnRecord;
    if !e.data.EvaluationDataV2? || e.data.candidate != c.chosen[0] || e.data.evidence == [] {
      return false;
    }
    good := true;
    var m := 0;
    while m < |e.data.evidence|
      invariant 0 <= m <= |e.data.evidence|
      invariant good <==> AllOnRecord(q, c, candidate, e.data.evidence, m)
    {
      var a := e.data.evidence[m];
      assert KeyOf(a) in keys <==> candidate.Some? && OnRecord(q, c, candidate.value, a);
      good := good && KeyOf(a) in keys;
      m := m + 1;
    }
  }

  method EvidenceOnRecord(q: Context, c: Claim, candidate: Option<Record>) returns (bound: bool)
    requires |c.chosen| == 1
    ensures bound <==> forall k :: 0 <= k < |c.used| ==> JudgesOnRecord(q, c, candidate, c.used[k])
  {
    hide OnRecord;
    var keys: set<(string, string)> := {};
    if candidate.Some? {
      keys := FindOnRecord(q, c, candidate.value);
    }
    bound := true;
    var k := 0;
    while k < |c.used|
      invariant 0 <= k <= |c.used|
      invariant bound <==> forall j :: 0 <= j < k ==> JudgesOnRecord(q, c, candidate, c.used[j])
    {
      var good := CitesOnRecord(q, c, candidate, c.used[k], keys);
      bound := bound && good;
      k := k + 1;
    }
  }

  /** D4 and D5: nobody judged their own candidate; every decider is bound. */
  method CheckDeciders(used: seq<Record>, producer: Option<string>) returns (distinct: bool, bound: bool)
    ensures distinct <==> producer.Some? && forall k :: 0 <= k < |used| ==> used[k].author.id != producer.value
    ensures bound <==> used != [] && forall k :: 0 <= k < |used| ==> DeciderBound(used[k])
  {
    distinct, bound := producer.Some?, used != [];
    var k := 0;
    while k < |used|
      invariant 0 <= k <= |used|
      invariant distinct <==> producer.Some? && forall j :: 0 <= j < k ==> used[j].author.id != producer.value
      invariant bound <==> used != [] && forall j :: 0 <= j < k ==> DeciderBound(used[j])
    {
      if producer == Some(used[k].author.id) {
        distinct := false;
      }
      if !DeciderBound(used[k]) {
        bound := false;
      }
      k := k + 1;
    }
  }

  /** The facts of one claim, all clauses but the capability profile. */
  method EvaluateClaim(q: Context, head: Head, c: Claim) returns (r: Clauses)
    requires HasIndex(q)
    ensures r.d0 && r.d6
    ensures r.d1 <==> Covered(q, head, c)
    ensures r.d2 <==> AllPass(q, head, c)
    ensures r.d3 <==> BoundToCandidate(q, c)
    ensures r.d4 <==> OtherActors(q, c)
    ensures r.d5 <==> DecidersBound(c)
    ensures r.d7 <==> SoundAtHead(head, c)
  {
    hide HasIndex, Demanded, OnRecord, DeciderBound, SoundAtHead, Get, Binds, Covered, AllPass,
         JudgesOnRecord, Spoils, MetAmong, DemandedAmong;
    var ids := FindDemanded(q, head, c.request);
    var covered := CoverAll(head, c.used, ids);
    var clean := NoneSpoils(c.used, ids);
    var candidate: Option<Record> := None;
    var bound := false;
    if |c.chosen| == 1 {
      candidate := Get(q, c.chosen[0]);
      bound := EvidenceOnRecord(q, c, candidate);
    }
    var distinct, deciders := CheckDeciders(c.used, if candidate.Some? then Some(candidate.value.author.id) else None);
    DemandedIsCovered(q, head, c, ids);
    DemandedIsClean(q, head, c, ids);
    r := Clauses(true, covered, clean, bound, distinct, deciders, true, SoundAtHead(head, c));
  }

  lemma DemandedIsCovered(q: Context, head: Head, c: Claim, ids: seq<Id>)
    requires HasIndex(q) && forall id :: id in ids <==> DemandedAmong(q, head, c.request, |q.records|, id)
    ensures Covered(q, head, c) <==>
            forall id :: id in ids ==> MetAmong(head, c.used, |c.used|, id)
  {
    hide HasIndex, Demanded;
    forall i | 0 <= i < |q.records| && Demanded(q, head, c.request, q.records[i])
      ensures q.records[i].id in ids
    {
      assert DemandedAmong(q, head, c.request, |q.records|, q.records[i].id);
    }
  }

  lemma DemandedIsClean(q: Context, head: Head, c: Claim, ids: seq<Id>)
    requires HasIndex(q) && forall id :: id in ids <==> DemandedAmong(q, head, c.request, |q.records|, id)
    ensures AllPass(q, head, c) <==> forall k :: 0 <= k < |c.used| ==> !Spoils(c.used[k], ids)
  {
    hide HasIndex, Demanded;
    forall i | 0 <= i < |q.records| && Demanded(q, head, c.request, q.records[i])
      ensures q.records[i].id in ids
    {
      assert DemandedAmong(q, head, c.request, |q.records|, q.records[i].id);
    }
  }

  /** `evaluate`; `core` is the outcome of the capability profile. */
  method Evaluate(q: Context, head: Head, core: bool) returns (clauses: Clauses, picked: seq<Claim>)
    requires HasIndex(q)
    ensures var claims := ClaimsAmong(q, |q.records|); picked == PickedAmong(head, claims, |claims|)
    ensures clauses == Profile(q, head, core, picked)
  {
    hide HasIndex, Covered, AllPass, BoundToCandidate, OtherActors, DecidersBound, SoundAtHead, ClaimsAmong, PickedAmong;
    var claims := FindClaims(q);
    picked := PickClaims(head, claims);
    if picked == [] {
      return ALL_FAILED, picked;
    }
    clauses := Clauses(true, true, true, true, true, true, core, true);
    var i := 0;
    while i < |picked|
      invariant 0 <= i <= |picked|
      invariant clauses.d0 && clauses.d6 == core
      invariant clauses.d1 <==> forall k :: 0 <= k < i ==> Covered(q, head, picked[k])
      invariant clauses.d2 <==> forall k :: 0 <= k < i ==> AllPass(q, head, picked[k])
      invariant clauses.d3 <==> forall k :: 0 <= k < i ==> BoundToCandidate(q, picked[k])
      invariant clauses.d4 <==> forall k :: 0 <= k < i ==> OtherActors(q, picked[k])
      invariant clauses.d5 <==> forall k :: 0 <= k < i ==> DecidersBound(picked[k])
      invariant clauses.d7 <==> forall k :: 0 <= k < i ==> SoundAtHead(head, picked[k])
    {
      var r := EvaluateClaim(q, head, picked[i]);
      clauses := clauses.(
        d1 := clauses.d1 && r.d1, d2 := clauses.d2 && r.d2, d3 := clauses.d3 && r.d3, d4 := clauses.d4 && r.d4,
        d5 := clauses.d5 && r.d5, d7 := clauses.d7 && r.d7);
      i := i + 1;
    }
  }
}
