// Standing over whole runs: why the walk terminates on every verified log, what an empty
// section means, and how one more accepted record can change anyone's standing.
module StandingRuns {
  import opened Records
  import opened LedgerState
  import opened Graphs
  import opened Rules
  import opened Checks
  import opened Ledger
  import opened Replay
  import opened Facts
  import opened Lineages
  import opened Standing

  // ----- The lineage of a verified log --------------------------------------------------------

  ghost function LineageAt(log: seq<Record>): Lineage {
    LineageOf(log, StateOf(log))
  }

  lemma {:induction false} CandidateEntry(records: seq<Record>, accepted: set<Id>, i: nat)
    requires UniqueIds(records) && i < |records|
    ensures records[i].id in Candidates(records, accepted) <==>
              records[i].id in accepted && CandidateFacts(records[i]).Some?
    ensures records[i].id in Candidates(records, accepted) ==>
              Candidates(records, accepted)[records[i].id] == CandidateFacts(records[i]).value
  {
    hide CandidateFacts;
    var n := |records| - 1;
    if i < n {
      CandidateEntry(records[..n], accepted, i);
      assert records[..n][i] == records[i];
    } else {
      assert forall k :: 0 <= k < n ==> records[..n][k].id != records[n].id;
      if records[n].id in Candidates(records[..n], accepted) {
        CandidatesAreRecords(records[..n], accepted, records[n].id);
      }
    }
  }

  lemma {:induction false} CandidatesAreRecords(records: seq<Record>, accepted: set<Id>, id: Id)
    requires id in Candidates(records, accepted)
    ensures exists i :: 0 <= i < |records| && records[i].id == id
  {
    var n := |records| - 1;
    if id in Candidates(records[..n], accepted) {
      CandidatesAreRecords(records[..n], accepted, id);
      var i :| 0 <= i < n && records[..n][i].id == id;
      assert records[i].id == id;
    } else {
      assert records[n].id == id;
    }
  }

  lemma {:induction false} SelectionEntry(records: seq<Record>, accepted: set<Id>, i: nat)
    requires UniqueIds(records) && i < |records|
    ensures records[i].id in Selections(records, accepted) <==>
              records[i].id in accepted && SelectionFacts(records[i]).Some?
    ensures records[i].id in Selections(records, accepted) ==>
              Selections(records, accepted)[records[i].id] == SelectionFacts(records[i]).value
  {
    hide SelectionFacts;
    var n := |records| - 1;
    if i < n {
      SelectionEntry(records[..n], accepted, i);
      assert records[..n][i] == records[i];
    } else {
      assert forall k :: 0 <= k < n ==> records[..n][k].id != records[n].id;
      if records[n].id in Selections(records[..n], accepted) {
        SelectionsAreRecords(records[..n], accepted, records[n].id);
      }
    }
  }

  lemma {:induction false} SelectionsAreRecords(records: seq<Record>, accepted: set<Id>, id: Id)
    requires id in Selections(records, accepted)
    ensures exists i :: 0 <= i < |records| && records[i].id == id
  {
    var n := |records| - 1;
    if id in Selections(records[..n], accepted) {
      SelectionsAreRecords(records[..n], accepted, id);
      var i :| 0 <= i < n && records[..n][i].id == id;
      assert records[i].id == id;
    } else {
      assert records[n].id == id;
    }
  }

  /** A lineage id, found: the accepted record it stands for. */
  lemma LineageRecord(c: Crypto, rules: Rules, log: seq<Record>, id: Id) returns (i: nat)
    requires LawfulLog(c, rules, log) && (id in LineageAt(log).cands || id in LineageAt(log).sels)
    ensures AcceptedAt(log, i) && log[i].id == id
    ensures id in LineageAt(log).cands ==>
              CandidateFacts(log[i]).Some? && LineageAt(log).cands[id] == CandidateFacts(log[i]).value
    ensures id in LineageAt(log).sels ==>
              SelectionFacts(log[i]).Some? && LineageAt(log).sels[id] == SelectionFacts(log[i]).value
  {
    hide Lawful, StateOf, RegimeOf, CandidateFacts, SelectionFacts;
    var accepted := StateOf(log).accepted;
    if id in LineageAt(log).cands {
      CandidatesAreRecords(log, accepted, id);
    } else {
      SelectionsAreRecords(log, accepted, id);
    }
    i :| 0 <= i < |log| && log[i].id == id;
    RegimeHolds(c, rules);
    Ledger.IdsAreUnique(RegimeOf(c, rules), log);
    CandidateEntry(log, accepted, i);
    SelectionEntry(log, accepted, i);
    VerifiedIsPaired(RegimeOf(c, rules), log);
    AcceptedExactly(log, id);
    var k: nat :| AcceptedAt(log, k) && log[k].id == id;
    SameIdSameRecord(c, rules, log, i, k);
  }

  /** And back: an accepted candidate or selection is in the lineage. */
  lemma RecordLineage(c: Crypto, rules: Rules, log: seq<Record>, i: nat)
    requires LawfulLog(c, rules, log) && AcceptedAt(log, i)
    ensures CandidateFacts(log[i]).Some? ==>
              log[i].id in LineageAt(log).cands && LineageAt(log).cands[log[i].id] == CandidateFacts(log[i]).value
    ensures SelectionFacts(log[i]).Some? ==>
              log[i].id in LineageAt(log).sels && LineageAt(log).sels[log[i].id] == SelectionFacts(log[i]).value
  {
    hide Lawful, StateOf, RegimeOf, CandidateFacts, SelectionFacts;
    RegimeHolds(c, rules);
    Ledger.IdsAreUnique(RegimeOf(c, rules), log);
    VerifiedIsPaired(RegimeOf(c, rules), log);
    AcceptedHere(log, i);
    CandidateEntry(log, StateOf(log).accepted, i);
    SelectionEntry(log, StateOf(log).accepted, i);
  }

  // ----- What the rules say of an accepted candidate or selection -------------------------------

  /** A continuation names an accepted anchor selection that chose its parent. */
  lemma ContinuationPassed(prior: Prior, rules: Rules, s: State, r: Record)
    requires CheckCandidate(rules, prior, s, r).None?
    ensures r.data.CandidateData?
    ensures r.data.basis.Continuation? ==>
      && |Targets(r.refs, Cause)| == 1 && r.data.parent.Some?
      && var anchor := Targets(r.refs, Cause)[0];
      && anchor in prior.byId && prior.byId[anchor].kind == Selection && prior.byId[anchor].id in s.accepted
      && prior.byId[anchor].data.SelectionData?
      && r.data.parent.value in SelectedIds(prior.byId[anchor].data.decision)
      && r.data.parent.value in prior.byId && prior.byId[r.data.parent.value].kind == Candidate
      && prior.byId[r.data.parent.value].id in s.accepted
  {
    hide SourceWellFormed, ArtifactsWellFormed;
  }

  lemma CausesResolve(prior: Prior, rules: Rules, s: State, r: Record, t: Id, kind: RefType)
    requires BatteryHolds(rules, prior, s, r) && t in Targets(r.refs, kind)
    ensures t in prior.byId
  {
    hide CheckKind, CheckReplacement, ExpectedEvidence, CheckRefs;
    RefsResolve(prior, s, r.space, r.refs, Ref(kind, t));
  }

  lemma ReplaceResolves(prior: Prior, rules: Rules, s: State, r: Record)
    requires BatteryHolds(rules, prior, s, r) && r.kind == Selection && FirstTarget(r.refs, Replace).Some?
    ensures var t := FirstTarget(r.refs, Replace).value;
            t in prior.byId && prior.byId[t].kind == Selection && prior.byId[t].id in s.accepted
  {
    hide CheckKind, CheckRefs, ExpectedEvidence;
  }

  // ----- Every edge points to an earlier record -----------------------------------------------------

  /** Where a record of the log sits. */
  ghost function Place(log: seq<Record>, id: Id): nat {
    if exists i: nat :: i < |log| && log[i].id == id then (var i: nat :| i < |log| && log[i].id == id; i) else 0
  }

  ghost function PlaceIn(log: seq<Record>): Id -> nat {
    id => Place(log, id)
  }

  /** What the prior index of a record knows sits before the record. */
  lemma PriorIsLower(c: Crypto, rules: Rules, log: seq<Record>, i: nat, id: Id)
    requires LawfulLog(c, rules, log) && i < |log| && id in PriorOf(log[..i]).byId
    ensures Place(log, id) < i && Place(log, log[i].id) == i && log[Place(log, id)] == PriorOf(log[..i]).byId[id]
  {
    hide Lawful, PriorOf, RegimeOf;
    var j := PriorIsEarlier(c, rules, log, i, id);
    SameIdSameRecord(c, rules, log, Place(log, id), j);
    SameIdSameRecord(c, rules, log, Place(log, log[i].id), i);
  }

  lemma LineLeadsDown(c: Crypto, rules: Rules, log: seq<Record>, a: Id, b: Id)
    requires LawfulLog(c, rules, log) && a in LineageAt(log).cands && b in Deps(LineageAt(log).cands, a)
    ensures Place(log, b) < Place(log, a)
  {
    hide Lawful, StateOf, PriorOf, RegimeOf, LineageAt, BatteryHolds;
    var i := LineageRecord(c, rules, log, a);
    AcceptedPassedAt(c, rules, log, i);
    var prior, s := PriorOf(log[..i]), StateOf(log[..i]);
    CandidateRules(prior, rules, s, log[i]);
    if log[i].data.basis.Continuation? {
      ContinuationPassed(prior, rules, s, log[i]);
    } else {
      CausesResolve(prior, rules, s, log[i], b, Cause);
    }
    PriorIsLower(c, rules, log, i, b);
  }

  lemma CandidateRules(prior: Prior, rules: Rules, s: State, r: Record)
    requires BatteryHolds(rules, prior, s, r)
    ensures r.kind == Candidate ==> CheckCandidate(rules, prior, s, r).None?
    ensures r.kind == Selection ==> CheckSelection(rules, prior, s, r).None?
  {
    hide CheckCandidate, CheckSelection, CheckReplacement, CheckRefs, ExpectedEvidence, DecodesAs, CarriesCycle;
  }

  lemma ChainLeadsDown(c: Crypto, rules: Rules, log: seq<Record>, a: Id, b: Id)
    requires LawfulLog(c, rules, log) && Edge(Chains(LineageAt(log).sels), a, b)
    ensures Place(log, b) < Place(log, a) && b in LineageAt(log).sels
  {
    hide Lawful, StateOf, PriorOf, RegimeOf, LineageAt, BatteryHolds;
    var i := LineageRecord(c, rules, log, a);
    AcceptedPassedAt(c, rules, log, i);
    ReplaceResolves(PriorOf(log[..i]), rules, StateOf(log[..i]), log[i]);
    PriorIsLower(c, rules, log, i, b);
    EarlierSelection(c, rules, log, i, b);
  }

  /** An earlier accepted Selection, named by id, is in the lineage. */
  lemma EarlierSelection(c: Crypto, rules: Rules, log: seq<Record>, i: nat, id: Id)
    requires LawfulLog(c, rules, log) && i < |log| && i % 2 == 0 && id in PriorOf(log[..i]).byId
    requires PriorOf(log[..i]).byId[id].kind == Selection
    requires PriorOf(log[..i]).byId[id].id in StateOf(log[..i]).accepted
    ensures id in LineageAt(log).sels
    ensures PriorOf(log[..i]).byId[id].data.SelectionData?
    ensures LineageAt(log).sels[id] == SelectionFacts(PriorOf(log[..i]).byId[id]).value
  {
    hide Lawful, StateOf, PriorOf, RegimeOf, LineageAt, BatteryHolds;
    var k := PriorIsEarlier(c, rules, log, i, id);
    var j := AcceptedIsEarlier(c, rules, log, i, id);
    AcceptedPassedAt(c, rules, log, j);
    CandidateRules(PriorOf(log[..j]), rules, StateOf(log[..j]), log[j]);
    SelectionDecodes(PriorOf(log[..j]), rules, StateOf(log[..j]), log[j]);
    RecordLineage(c, rules, log, j);
  }

  lemma SelectionDecodes(prior: Prior, rules: Rules, s: State, r: Record)
    ensures CheckSelection(rules, prior, s, r).None? ==> r.data.SelectionData?
    ensures CheckCandidate(rules, prior, s, r).None? ==> r.data.CandidateData?
  {
  }

  /** On a verified log both graphs lead down through the log, so every walk over them ends. */
  lemma VerifiedDescends(c: Crypto, rules: Rules, log: seq<Record>)
    requires LawfulLog(c, rules, log)
    ensures Descending(Lines(LineageAt(log).cands), PlaceIn(log))
    ensures Descending(Chains(LineageAt(log).sels), PlaceIn(log))
  {
    hide Lawful, StateOf, RegimeOf, LineageAt;
    var l := LineageAt(log);
    forall a, b | Edge(Lines(l.cands), a, b)
      ensures PlaceIn(log)(b) < PlaceIn(log)(a)
    {
      LineLeadsDown(c, rules, log, a, b);
    }
    forall a, b | Edge(Chains(l.sels), a, b)
      ensures PlaceIn(log)(b) < PlaceIn(log)(a)
    {
      ChainLeadsDown(c, rules, log, a, b);
    }
  }

  /** Replay with its standing section: derived only from a log that replays. */
  method ReportStanding(c: Crypto, rules: Rules, records: seq<Record>) returns (verdict: LogVerdict, section: Section)
    requires Collisionless(c)
    ensures verdict.reason.None? <==> Lawful(RegimeOf(c, rules), records)
    ensures section == if verdict.reason.None? then StandingOf(LineageAt(records)) else Section({}, {}, map[])
  {
    hide Lawful, StateOf, RegimeOf, Descending, StandingOf, LineageOf, Lines, Chains;
    var state;
    verdict, state := VerifyLog(c, rules, records);
    section := Section({}, {}, map[]);
    if verdict.reason.None? {
      VerifiedDescends(c, rules, records);
      section := DeriveStanding(records, state.Now(), PlaceIn(records));
    }
  }
}
