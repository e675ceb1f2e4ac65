// What a conformant delivery receipt rests on, over a verified log.
module DeliveryRuns {
  import opened Records
  import opened LedgerState
  import opened Rules
  import opened Checks
  import opened Ledger
  import opened Replay
  import opened Facts
  import opened Histories
  import opened StandingRuns
  import opened QueryRuns
  import opened Taint
  import opened Queries
  import opened Delivery

  /** What an accepted record rests on is as clean as the record: were anything it used or
      required retracted or tainted, taint would have reached it. */
  lemma UntaintedRestsClean(c: Crypto, rules: Rules, log: seq<Record>, i: nat, t: Id)
    requires LawfulLog(c, rules, log) && AcceptedAt(log, i)
    requires log[i].id !in StateOf(log).tainted && t in EpistemicTargets(log[i])
    ensures !Withdrawn(StateOf(log), t)
  {
    hide Lawful, StateOf, RegimeOf, Fold, EpistemicTargets;
    VerifiedIsPaired(RegimeOf(c, rules), log);
    StateIsFold(log);
    var h := AcceptedOf(log);
    HistoryMember(log, log[i]);
    IndexIsExact(h);
    TaintIsKept(h);
    assert Rests(h, log[i].id, t);
  }

  lemma NamedIsEpistemic(r: Record, t: Id)
    ensures HasRef(r, Use, t) || HasRef(r, Require, t) ==> t in EpistemicTargets(r)
  {
    if i :| 0 <= i < |r.refs| && (r.refs[i] == Ref(Use, t) || r.refs[i] == Ref(Require, t)) {
    }
  }

  // ----- What the rules guarantee of selections and evaluations ---------------------------------------

  lemma ChosenAreRequired(rules: Rules, prior: Prior, s: State, r: Record, x: Id)
    requires r.kind == Selection && BatteryHolds(rules, prior, s, r)
    requires r.data.SelectionData? && x in SelectedIds(r.data.decision)
    ensures HasRef(r, Require, x)
  {
    SelectionPassed(rules, prior, s, r);
    hide CheckSelection, BatteryHolds, ResolveSelectionApproval;
    var winners := set y | y in SelectedIds(r.data.decision);
    var required := set y | y in Targets(r.refs, Require);
    assert x in winners && winners <= required;
  }

  lemma SelectionPassed(rules: Rules, prior: Prior, s: State, r: Record)
    requires r.kind == Selection && BatteryHolds(rules, prior, s, r)
    ensures r.data.SelectionData? && CheckSelectionAuthority(rules, prior, s, r).None?
  {
    CandidateRules(prior, rules, s, r);
    hide BatteryHolds, CheckSelectionAuthority, CheckUsedEvaluations, CheckWinners, CheckReaffirmation, ResolvesToCandidate;
  }

  lemma EvaluationPassed(rules: Rules, prior: Prior, s: State, r: Record)
    requires r.kind == Evaluation && BatteryHolds(rules, prior, s, r)
    ensures CheckEvaluation(rules, prior, s, r).None?
    ensures r.data.EvaluationDataV2? ==> r.schema == EvaluationV2 || r.schema == EvaluationAttested
  {
    hide CheckEvaluation, CheckReplacement, CheckRefs, ExpectedEvidence, CarriesCycle;
  }

  /** An extended evaluation uses the candidate it judges and every requirement it binds. */
  lemma EvaluationUses(rules: Rules, prior: Prior, s: State, r: Record, rid: Id)
    requires r.kind == Evaluation && BatteryHolds(rules, prior, s, r) && r.data.EvaluationDataV2?
    ensures HasRef(r, Use, r.data.candidate)
    ensures rid in r.data.requirements ==> HasRef(r, Use, rid)
  {
    EvaluationPassed(rules, prior, s, r);
    hide BatteryHolds, ArtifactsWellFormed;
    if rid in r.data.requirements {
      var k :| 0 <= k < |r.data.requirements| && r.data.requirements[k] == rid;
      assert BindsRequirement(prior, s, r, r.data.requirements[k]);
    }
  }

  // ----- A conformant receipt ----------------------------------------------------------------------------

  /** The head report of a replayed log. */
  ghost function HeadOfLog(log: seq<Record>): Head {
    Head(StateOf(log).retracted, StateOf(log).tainted, StandingOfLog(log).unsound)
  }

  ghost function StandingOfLog(log: seq<Record>): Standing.Section {
    Standing.StandingOf(LineageAt(log))
  }

  lemma AcceptedRecord(c: Crypto, rules: Rules, log: seq<Record>, r: Record) returns (i: nat)
    requires LawfulLog(c, rules, log) && r in log && r.id in StateOf(log).accepted
    ensures AcceptedAt(log, i) && log[i] == r
  {
    hide Lawful, StateOf, RegimeOf, PriorOf;
    VerifiedIsPaired(RegimeOf(c, rules), log);
    assert log[..|log|] == log;
    i := AcceptedIsEarlier(c, rules, log, |log|, r.id);
    var j :| 0 <= j < |log| && log[j] == r;
    SameIdSameRecord(c, rules, log, i, j);
  }

  lemma FoundInLog(log: seq<Record>, id: Id)
    ensures Get(ContextOf(log), id).Some? ==> Get(ContextOf(log), id).value in log
  {
    hide StateOf;
  }

  /** A picked claim of a conformant receipt: the selection, everything it used and all that
      those evaluations bind or judge stand at the head. */
  lemma ClaimRestsClean(c: Crypto, rules: Rules, log: seq<Record>, claim: Claim, e: Record, rid: Id)
    requires LawfulLog(c, rules, log)
    requires claim.selection in log && ClaimIn(ContextOf(log), claim.selection) == Some(claim)
    requires claim.selection.id !in StateOf(log).tainted
    ensures forall x :: x in claim.chosen ==> !Withdrawn(StateOf(log), x)
    ensures e in claim.used ==> !Withdrawn(StateOf(log), e.id)
    ensures e in claim.used && Binds(e, rid) ==> !Withdrawn(StateOf(log), rid)
  {
    hide Lawful, StateOf, RegimeOf, BatteryHolds, PriorOf, EpistemicTargets, Withdrawn, ContextOf, RequestsBound;
    var sel := claim.selection;
    ClaimShape(ContextOf(log), sel, claim);
    ContextAccepts(log, sel.id);
    var i := AcceptedRecord(c, rules, log, sel);
    AcceptedPassedAt(c, rules, log, i);
    forall x | x in claim.chosen
      ensures !Withdrawn(StateOf(log), x)
    {
      ChosenAreRequired(rules, PriorOf(log[..i]), StateOf(log[..i]), sel, x);
      NamedIsEpistemic(sel, x);
      UntaintedRestsClean(c, rules, log, i, x);
    }
    if e in claim.used {
      NamedIsEpistemic(sel, e.id);
      UntaintedRestsClean(c, rules, log, i, e.id);
      EvaluationRestsClean(c, rules, log, e, rid);
    }
  }

  /** An accepted evaluation on record that the record names as used. */
  ghost predicate UsesEvaluation(q: Context, sel: Record, e: Record)
    requires HasIndex(q)
  {
    e.kind == Evaluation && IsAccepted(q, e.id) && Get(q, e.id) == Some(e) && HasRef(sel, Use, e.id)
  }

  /** No accepted evaluation of the requirement that the record uses did other than pass. */
  ghost predicate OnlyPassed(q: Context, sel: Record, rid: Id)
    requires HasIndex(q)
  {
    forall e :: UsesEvaluation(q, sel, e) && Binds(e, rid) ==> e.data.outcome.Passed?
  }

  lemma ClaimShape(q: Context, sel: Record, claim: Claim)
    requires HasIndex(q) && ClaimIn(q, sel) == Some(claim)
    ensures claim.selection == sel && sel.kind == Selection && IsAccepted(q, sel.id)
    ensures sel.data.SelectionData? && claim.chosen == SelectedIds(sel.data.decision)
    ensures forall e :: e in claim.used <==> UsesEvaluation(q, sel, e)
  {
    hide HasIndex, Get;
  }

  lemma ContextAccepts(log: seq<Record>, id: Id)
    ensures IsAccepted(ContextOf(log), id) ==> id in StateOf(log).accepted
  {
    hide StateOf;
  }

  /** What a used evaluation binds stands as long as the evaluation is untainted. */
  lemma EvaluationRestsClean(c: Crypto, rules: Rules, log: seq<Record>, e: Record, rid: Id)
    requires LawfulLog(c, rules, log) && e.kind == Evaluation && IsAccepted(ContextOf(log), e.id)
    requires Get(ContextOf(log), e.id) == Some(e) && !Withdrawn(StateOf(log), e.id)
    ensures Binds(e, rid) ==> !Withdrawn(StateOf(log), rid)
  {
    hide Lawful, StateOf, RegimeOf, BatteryHolds, PriorOf, EpistemicTargets, ContextOf;
    FoundInLog(log, e.id);
    ContextAccepts(log, e.id);
    var i := AcceptedRecord(c, rules, log, e);
    AcceptedPassedAt(c, rules, log, i);
    if Binds(e, rid) {
      EvaluationUses(rules, PriorOf(log[..i]), StateOf(log[..i]), e, rid);
      NamedIsEpistemic(e, rid);
      UntaintedRestsClean(c, rules, log, i, rid);
    }
  }

  /** A demanded requirement, met: a used evaluation passed it, was made by someone other
      than the producer of the candidate, and neither is withdrawn. */
  ghost predicate Met(log: seq<Record>, claim: Claim, candidate: Record, rid: Id) {
    exists e :: e in claim.used && Binds(e, rid) && e.data.outcome.Passed? && e.author.id != candidate.author.id
             && !Withdrawn(StateOf(log), e.id) && !Withdrawn(StateOf(log), rid)
  }

  /** A conformant receipt rests on nothing withdrawn: each evaluated claim's selection
      stands and chooses one standing candidate; every live required requirement of its
      request is met, and no accepted evaluation the selection uses of one did other than
      pass; nothing any of them binds is retracted or tainted. */
  lemma ConformantRestsOnNothingWithdrawn(c: Crypto, rules: Rules, log: seq<Record>, core: bool, claim: Claim)
    requires LawfulLog(c, rules, log)
    requires var q, claims := ContextOf(log), ClaimsAmong(ContextOf(log), |log|);
             Conformant(Profile(q, HeadOfLog(log), core, PickedAmong(HeadOfLog(log), claims, |claims|)))
             && claim in PickedAmong(HeadOfLog(log), claims, |claims|)
    ensures !Withdrawn(StateOf(log), claim.selection.id)
    ensures |claim.chosen| == 1 && Get(ContextOf(log), claim.chosen[0]).Some? && !Withdrawn(StateOf(log), claim.chosen[0])
    ensures forall r :: r in log && Demanded(ContextOf(log), HeadOfLog(log), claim.request, r) ==>
              && Met(log, claim, Get(ContextOf(log), claim.chosen[0]).value, r.id)
              && OnlyPassed(ContextOf(log), claim.selection, r.id)
    ensures forall e, rid :: e in claim.used && Binds(e, rid) ==>
              !Withdrawn(StateOf(log), e.id) && !Withdrawn(StateOf(log), rid)
  {
    hide Lawful, StateOf, RegimeOf, ClaimIn, LineageAt, Demanded, Binds, Profile, Conformant, Covered, OtherActors,
         SoundAtHead, ClaimsAmong, PickedAmong, Collisionless, Withdrawn, AllPass, OnlyPassed;
    var q, head := ContextOf(log), HeadOfLog(log);
    var claims := ClaimsAmong(q, |log|);
    var picked := PickedAmong(head, claims, |claims|);
    PickedPasses(q, head, core, picked, claim);
    StandsAtHead(log, claim.selection.id);
    assert claim in claims;
    assert claim.chosen[0] in claim.chosen;
    forall e, rid | e in claim.used && Binds(e, rid)
      ensures !Withdrawn(StateOf(log), e.id) && !Withdrawn(StateOf(log), rid)
    {
      ClaimRestsClean(c, rules, log, claim, e, rid);
    }
    ClaimRestsClean(c, rules, log, claim, claim.selection, 0);
    forall r | r in log && Demanded(q, head, claim.request, r)
      ensures Met(log, claim, Get(q, claim.chosen[0]).value, r.id)
      ensures OnlyPassed(q, claim.selection, r.id)
    {
      UsedPasses(q, head, claim, r);
      var e := CoveredBy(q, head, claim, r);
      assert Binds(e, r.id);
    }
  }

  /** Everything the clauses say of one picked claim. */
  lemma PickedPasses(q: Context, head: Head, core: bool, picked: seq<Claim>, claim: Claim)
    requires HasIndex(q) && Conformant(Profile(q, head, core, picked)) && claim in picked
    ensures Covered(q, head, claim) && AllPass(q, head, claim) && OtherActors(q, claim)
    ensures claim.selection.id !in head.retracted && claim.selection.id !in head.tainted
    ensures |claim.chosen| == 1 && Get(q, claim.chosen[0]).Some?
  {
    hide HasIndex, Covered, AllPass, BoundToCandidate, DecidersBound;
    var i :| 0 <= i < |picked| && picked[i] == claim;
  }

  lemma StandsAtHead(log: seq<Record>, id: Id)
    requires id !in HeadOfLog(log).retracted && id !in HeadOfLog(log).tainted
    ensures id !in StateOf(log).tainted && !Withdrawn(StateOf(log), id)
  {
    hide StateOf, StandingOfLog;
  }

  lemma UsedPasses(q: Context, head: Head, claim: Claim, r: Record)
    requires HasIndex(q) && AllPass(q, head, claim) && ClaimIn(q, claim.selection) == Some(claim)
    requires r in q.records && Demanded(q, head, claim.request, r)
    ensures OnlyPassed(q, claim.selection, r.id)
  {
    hide HasIndex, Demanded, ClaimIn, UsesEvaluation;
    ClaimShape(q, claim.selection, claim);
    var i :| 0 <= i < |q.records| && q.records[i] == r;
    forall e | UsesEvaluation(q, claim.selection, e) && Binds(e, r.id)
      ensures e.data.outcome.Passed?
    {
      var k :| 0 <= k < |claim.used| && claim.used[k] == e;
      assert Binds(claim.used[k], q.records[i].id);
    }
  }

  lemma CoveredBy(q: Context, head: Head, claim: Claim, r: Record) returns (e: Record)
    requires HasIndex(q) && Covered(q, head, claim) && OtherActors(q, claim)
    requires r in q.records && Demanded(q, head, claim.request, r)
    ensures e in claim.used && Binds(e, r.id) && e.data.outcome.Passed?
    ensures e.author.id != Get(q, claim.chosen[0]).value.author.id
  {
    hide HasIndex, Demanded;
    var i :| 0 <= i < |q.records| && q.records[i] == r;
    var k :| 0 <= k < |claim.used| && claim.used[k].id !in head.retracted
             && Binds(claim.used[k], q.records[i].id) && claim.used[k].data.outcome.Passed?;
    e := claim.used[k];
  }
}
