// How standing moves: a retraction can only hurt, everything else can only help, and one
// reaffirming selection repairs every line that rested on what it replaced.
module StandingSteps {
  import opened Records
  import opened LedgerState
  import opened Graphs
  import opened Rules
  import opened Checks
  import opened Ledger
  import opened Replay
  import opened Facts
  import opened Histories
  import opened Lineages
  import opened Standing
  import opened StandingRuns
  import opened Taint

  // ----- Continuations of a verified log are well formed ------------------------------------------

  /** A continuation with its anchor selection and the parent that selection chose. */
  ghost predicate Continues(l: Lineage, x: Id, anchor: Id, parent: Id) {
    && x in l.cands && l.cands[x].basis.Continuation?
    && l.cands[x].causes == [anchor] && l.cands[x].parent == Some(parent)
    && anchor in l.sels && parent in l.sels[anchor].selected && parent in l.cands
  }

  lemma ContinuationIsWhole(c: Crypto, rules: Rules, log: seq<Record>, x: Id) returns (anchor: Id, parent: Id)
    requires LawfulLog(c, rules, log) && x in LineageAt(log).cands && LineageAt(log).cands[x].basis.Continuation?
    ensures Continues(LineageAt(log), x, anchor, parent)
  {
    hide Lawful, StateOf, PriorOf, RegimeOf, LineageAt, BatteryHolds, CheckCandidate, CheckSelection, AcceptedAt;
    var i := LineageRecord(c, rules, log, x);
    AcceptedIsEven(log, i);
    AcceptedPassedAt(c, rules, log, i);
    var prior, s := PriorOf(log[..i]), StateOf(log[..i]);
    CandidateRules(prior, rules, s, log[i]);
    ContinuationPassed(prior, rules, s, log[i]);
    anchor, parent := Targets(log[i].refs, Cause)[0], log[i].data.parent.value;
    EarlierSelection(c, rules, log, i, anchor);
    EarlierCandidate(c, rules, log, i, parent);
  }

  lemma AcceptedIsEven(log: seq<Record>, i: nat)
    requires AcceptedAt(log, i)
    ensures i % 2 == 0 && i < |log|
  {
  }

  lemma EarlierCandidate(c: Crypto, rules: Rules, log: seq<Record>, i: nat, id: Id)
    requires LawfulLog(c, rules, log) && i < |log| && i % 2 == 0 && id in PriorOf(log[..i]).byId
    requires PriorOf(log[..i]).byId[id].kind == Candidate
    requires PriorOf(log[..i]).byId[id].id in StateOf(log[..i]).accepted
    ensures id in LineageAt(log).cands
  {
    hide Lawful, StateOf, PriorOf, RegimeOf, LineageAt, BatteryHolds;
    var _ := PriorIsEarlier(c, rules, log, i, id);
    var j := AcceptedIsEarlier(c, rules, log, i, id);
    AcceptedPassedAt(c, rules, log, j);
    CandidateRules(PriorOf(log[..j]), rules, StateOf(log[..j]), log[j]);
    SelectionDecodes(PriorOf(log[..j]), rules, StateOf(log[..j]), log[j]);
    RecordLineage(c, rules, log, j);
  }

  lemma AnchorsAreKnown(c: Crypto, rules: Rules, log: seq<Record>)
    requires LawfulLog(c, rules, log)
    ensures var l := LineageAt(log);
            forall x :: x in l.cands && l.cands[x].basis.Continuation? ==>
              l.cands[x].causes != [] && l.cands[x].causes[0] in l.sels
  {
    hide Lawful, StateOf, RegimeOf, LineageAt;
    var l := LineageAt(log);
    forall x | x in l.cands && l.cands[x].basis.Continuation?
      ensures l.cands[x].causes != [] && l.cands[x].causes[0] in l.sels
    {
      var anchor, parent := ContinuationIsWhole(c, rules, log, x);
    }
  }

  /** Not retracted, and if a continuation then of an anchor that stands or is restored. */
  ghost predicate Stands(l: Lineage, x: Id) {
    x !in l.retracted && forall anchor, parent :: Continues(l, x, anchor, parent) ==> AnchorSound(l, anchor, parent)
  }

  /** On a verified log the branch for a malformed continuation is never taken: standing
      is exactly that everything in the cone stands. */
  lemma StandingIsConeStanding(c: Crypto, rules: Rules, log: seq<Record>, id: Id)
    requires LawfulLog(c, rules, log) && id in LineageAt(log).cands
    ensures var l := LineageAt(log);
            LineSound(l, id) <==> forall x :: x in l.cands && Reaches(Lines(l.cands), id, x) ==> Stands(l, x)
  {
    hide Lawful, StateOf, RegimeOf, LineageAt, Reaches, Lines, AnchorSound;
    var l := LineageAt(log);
    forall x | x in l.cands
      ensures SelfSound(l, x) <==> Stands(l, x)
    {
      if l.cands[x].basis.Continuation? {
        var anchor, parent := ContinuationIsWhole(c, rules, log, x);
      }
    }
  }

  // ----- A sound history ------------------------------------------------------------------------

  /** Compromise always has a cause that was withdrawn. */
  lemma CompromiseHasACause(c: Crypto, rules: Rules, log: seq<Record>, id: Id) returns (x: Id)
    requires LawfulLog(c, rules, log) && id in StandingOf(LineageAt(log)).compromised
    ensures var l := LineageAt(log);
            && x in l.cands && Reaches(Lines(l.cands), id, x)
            && (x in l.retracted
                || exists anchor, parent :: Continues(l, x, anchor, parent) && Unsound(l, anchor)
                     && forall heir :: Restores(l, heir, anchor) ==> parent !in l.sels[heir].selected)
  {
    hide Lawful, StateOf, RegimeOf, LineageAt, Reaches, Lines, Restores;
    var l := LineageAt(log);
    StandingIsConeStanding(c, rules, log, id);
    x :| x in l.cands && Reaches(Lines(l.cands), id, x) && !Stands(l, x);
  }

  lemma NoTaintWithoutRetraction(log: seq<Record>)
    requires |log| % 2 == 0 && StateOf(log).retracted == {}
    ensures StateOf(log).tainted == {}
  {
    hide StateOf, Fold;
    StateIsFold(log);
    var h := AcceptedOf(log);
    IndexIsExact(h);
    forall id
      ensures id !in StateOf(log).tainted
    {
      TaintIsExact(h, id);
      forall p
        ensures !TaintChain(h, p)
      {
        assert |p| >= 2 ==> (IsRetracted(h, p[|p| - 1]) <==> p[|p| - 1] in Fold(h).retracted);
      }
    }
  }

  /** Without a retraction the section is empty. */
  lemma NothingWithdrawnNothingCompromised(c: Crypto, rules: Rules, log: seq<Record>)
    requires LawfulLog(c, rules, log) && StateOf(log).retracted == {}
    ensures StandingOf(LineageAt(log)) == Section({}, {}, map[])
  {
    hide Lawful, StateOf, RegimeOf, Reaches, Restores, LineSound, Candidates, Selections;
    VerifiedIsPaired(RegimeOf(c, rules), log);
    NoTaintWithoutRetraction(log);
    var l := LineageAt(log);
    if id :| id in StandingOf(l).compromised {
      var x := CompromiseHasACause(c, rules, log, id);
    }
  }

  // ----- Retraction only hurts ----------------------------------------------------------------------

  ghost predicate Withdraws(a: Lineage, b: Lineage) {
    a.cands == b.cands && a.sels == b.sels && a.retracted <= b.retracted && a.tainted <= b.tainted
  }

  /** With more withdrawn and nothing added, what stands now stood before. */
  lemma WithdrawingOnlyHurts(a: Lineage, b: Lineage, id: Id)
    requires Withdraws(a, b) && LineSound(b, id)
    ensures LineSound(a, id)
  {
    hide Reaches, StrictlyReaches, Lines, Chains;
    forall x | x in a.cands && Reaches(Lines(a.cands), id, x)
      ensures SelfSound(a, x)
    {
      assert SelfSound(b, x);
      var info := a.cands[x];
      if info.basis.Continuation? && Unsound(a, info.causes[0]) {
        var heir :| Restores(b, heir, info.causes[0]) && info.parent.value in b.sels[heir].selected;
        assert Restores(a, heir, info.causes[0]);
      }
    }
  }

  // ----- Everything else only helps --------------------------------------------------------------------

  /** One more candidate or selection, nothing withdrawn that was there. */
  ghost predicate Extends(a: Lineage, b: Lineage) {
    && (forall x :: x in a.cands ==> x in b.cands && b.cands[x] == a.cands[x])
    && (forall x :: x in a.sels ==> x in b.sels && b.sels[x] == a.sels[x])
    && (forall x, y :: x in a.cands && Edge(Lines(b.cands), x, y) ==> y in a.cands)
    && (forall x :: x in a.cands && x in b.retracted ==> x in a.retracted)
    && (forall x :: x in a.sels && Unsound(b, x) ==> Unsound(a, x))
  }

  lemma {:induction false} ChainSurvives(a: Lineage, b: Lineage, p: seq<Id>)
    requires Extends(a, b) && Walk(Chains(a.sels), p)
    ensures Walk(Chains(b.sels), p)
  {
    forall i | 0 <= i < |p| - 1
      ensures Edge(Chains(b.sels), p[i], p[i + 1])
    {
      assert Edge(Chains(a.sels), p[i], p[i + 1]);
    }
  }

  lemma RestorationSurvives(a: Lineage, b: Lineage, heir: Id, s: Id)
    requires Extends(a, b) && Restores(a, heir, s)
    ensures Restores(b, heir, s)
  {
    var p :| WalkFrom(Chains(a.sels), p, heir, s) && |p| >= 2;
    ChainSurvives(a, b, p);
    assert WalkFrom(Chains(b.sels), p, heir, s);
  }

  /** The cone of an old candidate holds only old candidates. */
  lemma {:induction false} ConeIsOld(a: Lineage, b: Lineage, p: seq<Id>)
    requires Extends(a, b) && p != [] && p[0] in a.cands && Walk(Lines(b.cands), p)
    ensures Walk(Lines(a.cands), p) && p[|p| - 1] in a.cands
  {
    hide Deps;
    if |p| > 1 {
      var n := |p| - 1;
      WalkSlice(Lines(b.cands), p, 0, n);
      ConeIsOld(a, b, p[0..n]);
      assert Edge(Lines(b.cands), p[n - 1], p[n - 1 + 1]);
      SameDeps(a, b, p[n - 1], p[n]);
      WalkGrows(Lines(a.cands), p[0..n], p[n]);
      assert p == p[0..n] + [p[n]];
    }
  }

  lemma SameDeps(a: Lineage, b: Lineage, x: Id, y: Id)
    requires Extends(a, b) && x in a.cands && Edge(Lines(b.cands), x, y)
    ensures Edge(Lines(a.cands), x, y)
  {
    assert y in a.cands;
  }

  lemma ExtendingOnlyHelps(a: Lineage, b: Lineage, id: Id)
    requires Extends(a, b) && LineSound(a, id)
    requires forall x :: x in a.cands && a.cands[x].basis.Continuation? && a.cands[x].causes != [] ==>
               a.cands[x].causes[0] in a.sels
    ensures LineSound(b, id)
  {
    hide Lines, Chains, StrictlyReaches;
    forall x | x in b.cands && Reaches(Lines(b.cands), id, x)
      ensures SelfSound(b, x)
    {
      var p :| WalkFrom(Lines(b.cands), p, id, x);
      ConeIsOld(a, b, p);
      assert WalkFrom(Lines(a.cands), p, id, x);
      assert SelfSound(a, x);
      var info := a.cands[x];
      if info.basis.Continuation? && Unsound(a, info.causes[0]) {
        var heir :| Restores(a, heir, info.causes[0]) && info.parent.value in a.sels[heir].selected;
        RestorationSurvives(a, b, heir, info.causes[0]);
      }
    }
  }

  // ----- One more pair ---------------------------------------------------------------------------------

  lemma {:induction false} SameAcceptedSameLineage(records: seq<Record>, a: set<Id>, b: set<Id>)
    requires forall i :: 0 <= i < |records| ==> (records[i].id in a <==> records[i].id in b)
    ensures Candidates(records, a) == Candidates(records, b) && Selections(records, a) == Selections(records, b)
  {
    hide CandidateFacts, SelectionFacts;
    if records != [] {
      var n := |records| - 1;
      assert forall i :: 0 <= i < n ==> records[..n][i] == records[i];
      SameAcceptedSameLineage(records[..n], a, b);
    }
  }

  /** The lineage with one more record entered. */
  function Entered(l: Lineage, r: Record): Lineage {
    l.(cands := if CandidateFacts(r).Some? then l.cands[r.id := CandidateFacts(r).value] else l.cands,
       sels := if SelectionFacts(r).Some? then l.sels[r.id := SelectionFacts(r).value] else l.sels)
  }

  /** A pair enters its subject if it is accepted, and nothing otherwise. */
  lemma LineageStep(c: Crypto, rules: Rules, log: seq<Record>, s: Record, v: Record)
    requires LawfulLog(c, rules, log + [s, v])
    ensures var l, after := LineageAt(log), LineageAt(log + [s, v]);
            var want := if JudgmentOf(v).Accept? then Entered(l, s) else l;
            after.cands == want.cands && after.sels == want.sels
    ensures s.id !in LineageAt(log).cands && s.id !in LineageAt(log).sels
  {
    hide Lawful, StateOf, PriorOf, RegimeOf, BatteryHolds, CandidateFacts, SelectionFacts, Candidates, Selections;
    NextPair(c, rules, log, s, v);
    AcceptedAfterPair(log, s, v);
    var a, b := StateOf(log).accepted, StateOf(log + [s, v]).accepted;
    forall i | 0 <= i < |log|
      ensures log[i].id in a <==> log[i].id in b
    {
      PriorFindsFirst(log, s.id);
    }
    SameAcceptedSameLineage(log, a, b);
    NewNotInLineage(c, rules, log, s, v);
    NewVerdictNotAccepted(c, rules, log, s, v);
    EntriesOfPair(log, s, v, b);
  }

  lemma NewNotInLineage(c: Crypto, rules: Rules, log: seq<Record>, s: Record, v: Record)
    requires LawfulLog(c, rules, log + [s, v])
    ensures s.id !in LineageAt(log).cands && s.id !in LineageAt(log).sels
  {
    hide Lawful, StateOf, PriorOf, RegimeOf, BatteryHolds, LineageAt;
    NextPair(c, rules, log, s, v);
    if s.id in LineageAt(log).cands || s.id in LineageAt(log).sels {
      var i := LineageRecord(c, rules, log, s.id);
      PriorFindsFirst(log, s.id);
    }
  }

  /** The last two records of a log that ends in a pair. */
  lemma EntriesOfPair(log: seq<Record>, s: Record, v: Record, accepted: set<Id>)
    requires v.kind == Verdict
    ensures Candidates(log + [s, v], accepted) ==
              (if s.id in accepted && CandidateFacts(s).Some?
               then Candidates(log, accepted)[s.id := CandidateFacts(s).value] else Candidates(log, accepted))
    ensures Selections(log + [s, v], accepted) ==
              (if s.id in accepted && SelectionFacts(s).Some?
               then Selections(log, accepted)[s.id := SelectionFacts(s).value] else Selections(log, accepted))
  {
    assert CandidateFacts(v).None? && SelectionFacts(v).None?;
    hide CandidateFacts, SelectionFacts;
    assert (log + [s, v])[..|log| + 1] == log + [s];
    assert (log + [s])[..|log|] == log;
  }

  lemma AcceptedAfterPair(log: seq<Record>, s: Record, v: Record)
    requires |log| % 2 == 0
    ensures StateOf(log + [s, v]).accepted
         == StateOf(log).accepted + if JudgmentOf(v).Accept? then {s.id} else {}
  {
    hide ApplyKind;
    assert (log + [s, v])[..|log|] == log;
    if JudgmentOf(v).Accept? {
      Projects(StateOf(log), s);
    }
  }

  lemma NewVerdictNotAccepted(c: Crypto, rules: Rules, log: seq<Record>, s: Record, v: Record)
    requires LawfulLog(c, rules, log + [s, v])
    ensures v.kind == Verdict
  {
    hide Lawful, StateOf, PriorOf, Judge, BatteryHolds;
    NextPair(c, rules, log, s, v);
  }

  /** An accepted retraction never clears anyone. */
  lemma RetractionOnlyCompromises(c: Crypto, rules: Rules, log: seq<Record>, s: Record, v: Record)
    requires LawfulLog(c, rules, log + [s, v])
    requires s.kind == Retraction && JudgmentOf(v).Accept?
    ensures StandingOf(LineageAt(log)).compromised <= StandingOf(LineageAt(log + [s, v])).compromised
  {
    hide Lawful, StateOf, PriorOf, RegimeOf, BatteryHolds, Candidates, Selections, LineSound;
    LineageStep(c, rules, log, s, v);
    NextPair(c, rules, log, s, v);
    WithdrawnGrows(c, rules, log, s, v);
    var a, b := LineageAt(log), LineageAt(log + [s, v]);
    forall id | id in a.cands && !LineSound(a, id)
      ensures !LineSound(b, id)
    {
      if LineSound(b, id) {
        WithdrawingOnlyHurts(a, b, id);
      }
    }
  }

  lemma WithdrawnGrows(c: Crypto, rules: Rules, log: seq<Record>, s: Record, v: Record)
    requires LawfulLog(c, rules, log + [s, v])
    ensures StateOf(log).retracted <= StateOf(log + [s, v]).retracted
    ensures StateOf(log).tainted <= StateOf(log + [s, v]).tainted
  {
    hide Lawful, PriorOf, RegimeOf, BatteryHolds, Spread;
    NextPair(c, rules, log, s, v);
    assert (log + [s, v])[..|log|] == log;
  }

  /** Any other pair leaves everything that was there as it was. */
  lemma OthersExtend(c: Crypto, rules: Rules, log: seq<Record>, s: Record, v: Record)
    requires LawfulLog(c, rules, log + [s, v])
    requires s.kind != Retraction || JudgmentOf(v).Reject?
    ensures Extends(LineageAt(log), LineageAt(log + [s, v]))
  {
    hide Lawful, StateOf, PriorOf, RegimeOf, BatteryHolds, Candidates, Selections, Lines, PairOk, CandidateFacts,
         SelectionFacts, Collisionless;
    LineageStep(c, rules, log, s, v);
    OnlyRetractionsTaint(c, rules, log, s, v);
    var a, b := LineageAt(log), LineageAt(log + [s, v]);
    forall x, y | x in a.cands && Edge(Lines(b.cands), x, y)
      ensures y in a.cands
    {
      NewIsNotOld(c, rules, log, s, v, x, y);
    }
  }

  /** Any other accepted record, and any rejected one, never compromises a candidate that
      was there. */
  lemma OthersOnlyRepair(c: Crypto, rules: Rules, log: seq<Record>, s: Record, v: Record, id: Id)
    requires LawfulLog(c, rules, log + [s, v]) && id in LineageAt(log).cands
    requires s.kind != Retraction || JudgmentOf(v).Reject?
    ensures id in StandingOf(LineageAt(log + [s, v])).compromised ==> id in StandingOf(LineageAt(log)).compromised
  {
    hide Lawful, StateOf, PriorOf, RegimeOf, BatteryHolds, LineageAt, LineSound, Extends;
    NextPair(c, rules, log, s, v);
    OthersExtend(c, rules, log, s, v);
    AnchorsAreKnown(c, rules, log);
    if LineSound(LineageAt(log), id) {
      ExtendingOnlyHelps(LineageAt(log), LineageAt(log + [s, v]), id);
    }
  }

  /** A line whose only faults are continuations of one anchor from one parent stands again
      once something sound that replaces the anchor selects that parent. */
  lemma RestoredLineStands(a: Lineage, b: Lineage, heir: Id, anchor: Id, parent: Id, id: Id)
    requires Extends(a, b) && id in a.cands
    requires Restores(b, heir, anchor) && parent in b.sels[heir].selected
    requires forall x :: x in a.cands && a.cands[x].basis.Continuation? ==>
               a.cands[x].causes != [] && a.cands[x].causes[0] in a.sels
    requires forall x :: x in a.cands && Reaches(Lines(a.cands), id, x) ==>
               SelfSound(a, x) || (x !in a.retracted && Continues(a, x, anchor, parent))
    ensures LineSound(b, id)
  {
    hide Lines, Chains, StrictlyReaches;
    forall x | x in b.cands && Reaches(Lines(b.cands), id, x)
      ensures SelfSound(b, x)
    {
      var p :| WalkFrom(Lines(b.cands), p, id, x);
      ConeIsOld(a, b, p);
      assert WalkFrom(Lines(a.cands), p, id, x);
      var info := a.cands[x];
      if SelfSound(a, x) && info.basis.Continuation? && Unsound(a, info.causes[0]) {
        var other :| Restores(a, other, info.causes[0]) && info.parent.value in a.sels[other].selected;
        RestorationSurvives(a, b, other, info.causes[0]);
      }
    }
  }

  /** One accepted, untainted Selection whose Replace chain leads to an anchor and which
      selects a parent again repairs every line that only failed in continuing that anchor
      from that parent, at any depth. */
  lemma ReaffirmationRepairs(c: Crypto, rules: Rules, log: seq<Record>, s: Record, v: Record,
                             anchor: Id, parent: Id, id: Id)
    requires LawfulLog(c, rules, log + [s, v]) && id in LineageAt(log).cands
    requires s.kind == Selection && JudgmentOf(v).Accept?
    requires Restores(LineageAt(log + [s, v]), s.id, anchor)
    requires parent in LineageAt(log + [s, v]).sels[s.id].selected
    requires forall x :: x in LineageAt(log).cands && Reaches(Lines(LineageAt(log).cands), id, x) ==>
               || SelfSound(LineageAt(log), x)
               || (x !in StateOf(log).retracted && Continues(LineageAt(log), x, anchor, parent))
    ensures id !in StandingOf(LineageAt(log + [s, v])).compromised
  {
    hide Lawful, StateOf, PriorOf, RegimeOf, BatteryHolds, LineSound, Extends, Restores, Continues, SelfSound, Reaches,
         Candidates, Selections, Lines;
    NextPair(c, rules, log, s, v);
    OthersExtend(c, rules, log, s, v);
    AnchorsAreKnown(c, rules, log);
    RestoredLineStands(LineageAt(log), LineageAt(log + [s, v]), s.id, anchor, parent, id);
  }

  /** An old candidate does not rest on the new one. */
  lemma NewIsNotOld(c: Crypto, rules: Rules, log: seq<Record>, s: Record, v: Record, x: Id, y: Id)
    requires LawfulLog(c, rules, log + [s, v]) && x in LineageAt(log).cands
    requires Edge(Lines(LineageAt(log + [s, v]).cands), x, y)
    ensures y in LineageAt(log).cands
  {
    hide Lawful, StateOf, PriorOf, RegimeOf, BatteryHolds, LineageAt;
    var after := log + [s, v];
    NextPair(c, rules, log, s, v);
    LineageStep(c, rules, log, s, v);
    if y !in LineageAt(log).cands {
      assert y == s.id;
      LineLeadsDown(c, rules, after, x, y);
      SameIdSameRecord(c, rules, after, Place(after, s.id), |log|);
      var i := LineageRecord(c, rules, log, x);
      assert after[i] == log[i];
      SameIdSameRecord(c, rules, after, Place(after, x), i);
    }
  }
}
