// The standing section of a verified log, declared over positions: which candidates are
// compromised, which selections are unsound, and what restores them.
module Compromise {
  import opened Records
  import opened LedgerState
  import opened Refs
  import opened Rules
  import opened Ledger
  import opened Replay
  import opened Facts
  import opened Graphs
  import opened Taint
  import opened Lineages
  import Standing
  import opened StandingRuns
  import opened Pasts
  import opened Rulebook
  import opened Reflections
  import opened Verdicts
  import opened Descents

  ghost predicate CandidateAt(log: seq<Record>, i: nat) {
    i < |log| && PassedAt(log, i) && log[i].kind == Candidate && log[i].data.CandidateData?
  }

  ghost predicate SelectionAt(log: seq<Record>, i: nat) {
    i < |log| && PassedAt(log, i) && log[i].kind == Selection && log[i].data.SelectionData?
  }

  /** The candidate at `i` continues or derives from the one at `j`. */
  ghost predicate ComesFrom(log: seq<Record>, i: nat, j: nat) {
    && CandidateAt(log, i) && CandidateAt(log, j)
    && (|| (log[i].data.basis == Continuation && log[i].data.parent == Some(log[j].id))
        || (log[i].data.basis == Derivation && Ref(Cause, log[j].id) in log[i].refs))
  }

  ghost predicate Takes(log: seq<Record>, i: nat, j: nat) {
    SelectionAt(log, i) && SelectionAt(log, j) && Ref(Replace, log[j].id) in log[i].refs
  }

  /** Back through the lines of a candidate. */
  ghost predicate LineBack(log: seq<Record>, p: seq<nat>) {
    p != [] && forall k :: 0 <= k < |p| - 1 ==> ComesFrom(log, p[k], p[k + 1])
  }

  /** The candidate at `x` is the one at `i`, or in its line. */
  ghost predicate GoesBackTo(log: seq<Record>, i: nat, x: nat) {
    exists p :: LineBack(log, p) && p[0] == i && p[|p| - 1] == x
  }

  /** Back through the selections one replaced. */
  ghost predicate ChainBack(log: seq<Record>, p: seq<nat>) {
    |p| >= 2 && forall k :: 0 <= k < |p| - 1 ==> Takes(log, p[k], p[k + 1])
  }

  ghost predicate ChainsTo(log: seq<Record>, h: nat, s: nat) {
    exists p :: ChainBack(log, p) && p[0] == h && p[|p| - 1] == s
  }

  ghost predicate WithdrawnAt(log: seq<Record>, i: nat)
    requires i < |log|
  {
    PastOf(log).Withdrawn(log[i].id)
  }

  /** A selection that stands replaced, directly or not, the one at `s`. */
  ghost predicate RestoresAt(log: seq<Record>, h: nat, s: nat) {
    && SelectionAt(log, h) && !WithdrawnAt(log, h)
    && ChainsTo(log, h, s)
  }

  /** The anchor at `a` stands, or something that restores it chose the parent again. */
  ghost predicate HoldsFor(log: seq<Record>, a: nat, parent: Id)
    requires a < |log|
  {
    !WithdrawnAt(log, a) || exists h: nat :: RestoresAt(log, h, a) && Chose(log[h], parent)
  }

  /** Retracted, or a continuation of an anchor that no longer holds for its parent. */
  ghost predicate FaultyAt(log: seq<Record>, x: nat) {
    && CandidateAt(log, x)
    && (|| IsRetracted(AcceptedOf(log), log[x].id)
        || (log[x].data.basis == Continuation && log[x].data.parent.Some?
            && exists a: nat :: a < |log| && OnlyNames(log[x].refs, Cause, log[a].id)
                 && !HoldsFor(log, a, log[x].data.parent.value)))
  }

  /** Something faulty is in its line. */
  ghost predicate CompromisedAt(log: seq<Record>, i: nat) {
    CandidateAt(log, i) && exists x: nat :: GoesBackTo(log, i, x) && FaultyAt(log, x)
  }

  // ----- Lineage ids and positions ------------------------------------------------------------------

  lemma CandidateKnown(c: Crypto, rules: Rules, log: seq<Record>, i: nat)
    requires LawfulLog(c, rules, log) && i < |log|
    ensures log[i].id in LineageAt(log).cands <==> CandidateAt(log, i)
    ensures CandidateAt(log, i) ==>
              LineageAt(log).cands[log[i].id]
                  == CandInfo(log[i].data.basis, log[i].data.parent, Targets(log[i].refs, Cause))
  {
    hide LawfulLog, LineageAt, AcceptedAt;
    PassedMeans(log, i);
    if log[i].id in LineageAt(log).cands {
      var j := LineageRecord(c, rules, log, log[i].id);
      InsideLog(log, j);
      SameIdSameRecord(c, rules, log, i, j);
    }
    if CandidateAt(log, i) {
      RecordLineage(c, rules, log, i);
    }
  }

  lemma InsideLog(log: seq<Record>, j: nat)
    requires AcceptedAt(log, j)
    ensures j < |log|
  {
  }

  lemma SelectionKnown(c: Crypto, rules: Rules, log: seq<Record>, i: nat)
    requires LawfulLog(c, rules, log) && i < |log|
    ensures log[i].id in LineageAt(log).sels <==> SelectionAt(log, i)
    ensures SelectionAt(log, i) ==>
              && LineageAt(log).sels[log[i].id].selected == (set x | x in SelectedIds(log[i].data.decision))
              && LineageAt(log).sels[log[i].id].replaceTarget == FirstTarget(log[i].refs, Replace)
  {
    hide LawfulLog, LineageAt, AcceptedAt;
    PassedMeans(log, i);
    if log[i].id in LineageAt(log).sels {
      var j := LineageRecord(c, rules, log, log[i].id);
      InsideLog(log, j);
      SameIdSameRecord(c, rules, log, i, j);
    }
    if SelectionAt(log, i) {
      RecordLineage(c, rules, log, i);
    }
  }

  lemma LineEdge(c: Crypto, rules: Rules, log: seq<Record>, i: nat, j: nat)
    requires LawfulLog(c, rules, log) && i < |log| && j < |log|
    ensures Edge(Lines(LineageAt(log).cands), log[i].id, log[j].id) <==> ComesFrom(log, i, j)
  {
    hide LawfulLog, LineageAt, CandidateAt;
    CandidateKnown(c, rules, log, i);
    CandidateKnown(c, rules, log, j);
  }

  lemma OneReplace(c: Crypto, rules: Rules, log: seq<Record>, i: nat, x: Id)
    requires LawfulLog(c, rules, log) && i < |log| && PassedAt(log, i)
    ensures FirstTarget(log[i].refs, Replace) == Some(x) <==> Ref(Replace, x) in log[i].refs
  {
    hide LawfulLog, PastOf, PassedAt, NamesAccepted, Several, NoneOf, FirstNames, FirstTarget;
    ReplacingRuled(c, rules, log, i);
    TargetsMean(log[i].refs, Replace);
    SoleFirst(log[i].refs, Replace, x);
  }

  /** An accepted selection replaces an accepted selection, if any. */
  lemma ReplacedIsSelection(c: Crypto, rules: Rules, log: seq<Record>, i: nat, x: Id) returns (j: nat)
    requires LawfulLog(c, rules, log) && SelectionAt(log, i) && Ref(Replace, x) in log[i].refs
    ensures j < i && SelectionAt(log, j) && log[j].id == x
  {
    j := ReplacedRecord(c, rules, log, i, x);
    hide LawfulLog, PassedAt, AcceptedAt;
    PassedMeans(log, j);
    SelectionsDecode(c, rules, log, j);
  }

  lemma ReplacedRecord(c: Crypto, rules: Rules, log: seq<Record>, i: nat, x: Id) returns (j: nat)
    requires LawfulLog(c, rules, log) && SelectionAt(log, i) && Ref(Replace, x) in log[i].refs
    ensures j < i && AcceptedAt(log, j) && log[j].id == x && log[j].kind == Selection
  {
    hide LawfulLog, PastOf, Past.Accepted, Past.Named;
    ReplacingRuled(c, rules, log, i);
    j := NamedBefore(c, rules, log, i, x, Selection);
  }

  lemma SelectionsDecode(c: Crypto, rules: Rules, log: seq<Record>, j: nat)
    requires LawfulLog(c, rules, log) && j < |log| && PassedAt(log, j) && log[j].kind == Selection
    ensures log[j].data.SelectionData?
  {
    hide LawfulLog, PastOf, Envelope;
    PassedRuling(c, rules, log, j);
  }

  lemma ChainEdge(c: Crypto, rules: Rules, log: seq<Record>, i: nat, j: nat)
    requires LawfulLog(c, rules, log) && i < |log| && j < |log|
    ensures Edge(Chains(LineageAt(log).sels), log[i].id, log[j].id) <==> Takes(log, i, j)
  {
    hide LawfulLog, LineageAt, FirstTarget;
    SelectionKnown(c, rules, log, i);
    if SelectionAt(log, i) {
      OneReplace(c, rules, log, i, log[j].id);
      if Ref(Replace, log[j].id) in log[i].refs {
        var k := ReplacedIsSelection(c, rules, log, i, log[j].id);
        SameIdSameRecord(c, rules, log, j, k);
      }
    }
  }

  // ----- Walks of ids and of positions -------------------------------------------------------------------

  ghost function IdsOf(log: seq<Record>, p: seq<nat>): (ids: seq<Id>)
    requires forall k :: 0 <= k < |p| ==> p[k] < |log|
    ensures |ids| == |p|
  {
    seq(|p|, k requires 0 <= k < |p| => log[p[k]].id)
  }

  lemma LineIsWalk(c: Crypto, rules: Rules, log: seq<Record>, p: seq<nat>)
    requires LawfulLog(c, rules, log) && LineBack(log, p) && p[0] < |log|
    ensures (forall k :: 0 <= k < |p| ==> p[k] < |log|)
    ensures WalkFrom(Lines(LineageAt(log).cands), IdsOf(log, p), log[p[0]].id, log[p[|p| - 1]].id)
  {
    hide LawfulLog, LineageAt, Lines;
    forall k | 0 < k < |p|
      ensures p[k] < |log|
    {
      assert ComesFrom(log, p[k - 1], p[k - 1 + 1]);
    }
    var g, ids := Lines(LineageAt(log).cands), IdsOf(log, p);
    forall k | 0 <= k < |ids| - 1
      ensures Edge(g, ids[k], ids[k + 1])
    {
      LineEdge(c, rules, log, p[k], p[k + 1]);
    }
  }

  lemma {:induction false} WalkIsLine(c: Crypto, rules: Rules, log: seq<Record>, ids: seq<Id>, i: nat)
    returns (p: seq<nat>)
    requires LawfulLog(c, rules, log) && i < |log| && ids != [] && ids[0] == log[i].id
    requires Walk(Lines(LineageAt(log).cands), ids)
    ensures LineBack(log, p) && p[0] == i && p[|p| - 1] < |log| && log[p[|p| - 1]].id == ids[|ids| - 1]
    decreases |ids|
  {
    hide LawfulLog, LineageAt, ComesFrom;
    var g := Lines(LineageAt(log).cands);
    if |ids| == 1 {
      p := [i];
    } else {
      assert Edge(g, ids[0], ids[0 + 1]);
      var j := LineageRecord(c, rules, log, ids[1]);
      InsideLog(log, j);
      LineEdge(c, rules, log, i, j);
      WalkSlice(g, ids, 1, |ids|);
      var rest := WalkIsLine(c, rules, log, ids[1..|ids|], j);
      p := [i] + rest;
    }
  }

  lemma ReachesBack(c: Crypto, rules: Rules, log: seq<Record>, i: nat, x: nat)
    requires LawfulLog(c, rules, log) && i < |log| && x < |log|
    ensures Reaches(Lines(LineageAt(log).cands), log[i].id, log[x].id) <==> GoesBackTo(log, i, x)
  {
    hide LawfulLog, LineageAt, ComesFrom, Lines;
    var g := Lines(LineageAt(log).cands);
    if Reaches(g, log[i].id, log[x].id) {
      var ids :| WalkFrom(g, ids, log[i].id, log[x].id);
      var p := WalkIsLine(c, rules, log, ids, i);
      SameIdSameRecord(c, rules, log, p[|p| - 1], x);
    }
    if GoesBackTo(log, i, x) {
      var p :| LineBack(log, p) && p[0] == i && p[|p| - 1] == x;
      LineIsWalk(c, rules, log, p);
    }
  }

  lemma ChainIsWalk(c: Crypto, rules: Rules, log: seq<Record>, p: seq<nat>)
    requires LawfulLog(c, rules, log) && ChainBack(log, p)
    ensures (forall k :: 0 <= k < |p| ==> p[k] < |log|)
    ensures WalkFrom(Chains(LineageAt(log).sels), IdsOf(log, p), log[p[0]].id, log[p[|p| - 1]].id)
  {
    hide LawfulLog, LineageAt, Chains;
    forall k | 0 <= k < |p|
      ensures p[k] < |log|
    {
      assert Takes(log, if k == 0 then p[0] else p[k - 1], if k == 0 then p[0 + 1] else p[k - 1 + 1]);
    }
    var g, ids := Chains(LineageAt(log).sels), IdsOf(log, p);
    forall k | 0 <= k < |ids| - 1
      ensures Edge(g, ids[k], ids[k + 1])
    {
      ChainEdge(c, rules, log, p[k], p[k + 1]);
    }
  }

  /** Where a step along a Replace leads. */
  lemma NextInChain(c: Crypto, rules: Rules, log: seq<Record>, i: nat, x: Id) returns (j: nat)
    requires LawfulLog(c, rules, log) && i < |log| && Edge(Chains(LineageAt(log).sels), log[i].id, x)
    ensures j < |log| && log[j].id == x && Takes(log, i, j)
  {
    hide LawfulLog, LineageAt, FirstTarget;
    SelectionKnown(c, rules, log, i);
    OneReplace(c, rules, log, i, x);
    j := ReplacedIsSelection(c, rules, log, i, x);
  }

  lemma {:induction false} WalkIsChain(c: Crypto, rules: Rules, log: seq<Record>, ids: seq<Id>, i: nat)
    returns (p: seq<nat>)
    requires LawfulLog(c, rules, log) && i < |log| && |ids| >= 2 && ids[0] == log[i].id
    requires Walk(Chains(LineageAt(log).sels), ids)
    ensures ChainBack(log, p) && p[0] == i && p[|p| - 1] < |log| && log[p[|p| - 1]].id == ids[|ids| - 1]
    decreases |ids|
  {
    hide LawfulLog, LineageAt, Takes, Chains;
    var g := Chains(LineageAt(log).sels);
    assert Edge(g, ids[0], ids[0 + 1]);
    var j := NextInChain(c, rules, log, i, ids[1]);
    if |ids| == 2 {
      p := [i, j];
    } else {
      WalkSlice(g, ids, 1, |ids|);
      var rest := WalkIsChain(c, rules, log, ids[1..|ids|], j);
      p := [i] + rest;
    }
  }

  lemma ReachesChain(c: Crypto, rules: Rules, log: seq<Record>, h: nat, s: nat)
    requires LawfulLog(c, rules, log) && h < |log| && s < |log|
    ensures StrictlyReaches(Chains(LineageAt(log).sels), log[h].id, log[s].id) <==> ChainsTo(log, h, s)
  {
    hide LawfulLog, LineageAt, Takes, Chains;
    var g := Chains(LineageAt(log).sels);
    if StrictlyReaches(g, log[h].id, log[s].id) {
      var ids :| WalkFrom(g, ids, log[h].id, log[s].id) && |ids| >= 2;
      var p := WalkIsChain(c, rules, log, ids, h);
      SameIdSameRecord(c, rules, log, p[|p| - 1], s);
    }
    if ChainsTo(log, h, s) {
      var p :| ChainBack(log, p) && p[0] == h && p[|p| - 1] == s;
      ChainIsWalk(c, rules, log, p);
      assert |IdsOf(log, p)| >= 2;
    }
  }

  // ----- What stands ------------------------------------------------------------------------------------

  lemma WithdrawnMeans(c: Crypto, rules: Rules, log: seq<Record>, i: nat)
    requires LawfulLog(c, rules, log) && i < |log|
    ensures Unsound(LineageAt(log), log[i].id) <==> WithdrawnAt(log, i)
    ensures log[i].id in LineageAt(log).retracted <==> IsRetracted(AcceptedOf(log), log[i].id)
  {
    hide Lawful, RegimeOf, StateOf, Fold, Past.Withdrawn, IsRetracted;
    VerifiedIsPaired(RegimeOf(c, rules), log);
    StandingReflects(log);
    StateIsFold(log);
    IndexIsExact(AcceptedOf(log));
  }

  lemma RestoresMeans(c: Crypto, rules: Rules, log: seq<Record>, h: nat, s: nat)
    requires LawfulLog(c, rules, log) && h < |log| && s < |log|
    ensures Standing.Restores(LineageAt(log), log[h].id, log[s].id) <==> RestoresAt(log, h, s)
  {
    hide LawfulLog, LineageAt, Chains, ChainsTo, WithdrawnAt, Unsound, SelectionAt, StrictlyReaches;
    SelectionKnown(c, rules, log, h);
    WithdrawnMeans(c, rules, log, h);
    ReachesChain(c, rules, log, h, s);
  }

  lemma ChoseMeans(c: Crypto, rules: Rules, log: seq<Record>, h: nat, x: Id)
    requires LawfulLog(c, rules, log) && h < |log| && SelectionAt(log, h)
    ensures log[h].id in LineageAt(log).sels && (x in LineageAt(log).sels[log[h].id].selected <==> Chose(log[h], x))
  {
    hide LawfulLog, LineageAt;
    SelectionKnown(c, rules, log, h);
  }

  lemma AnchorMeans(c: Crypto, rules: Rules, log: seq<Record>, a: nat, parent: Id)
    requires LawfulLog(c, rules, log) && a < |log|
    ensures Standing.AnchorSound(LineageAt(log), log[a].id, parent) <==> HoldsFor(log, a, parent)
  {
    hide LawfulLog, LineageAt, ChainsTo, WithdrawnAt, Unsound, StrictlyReaches, Chains, Chose, PassedAt;
    var l := LineageAt(log);
    WithdrawnMeans(c, rules, log, a);
    if heir :| Standing.Restores(l, heir, log[a].id) && parent in l.sels[heir].selected {
      var h := LineageRecord(c, rules, log, heir);
      InsideLog(log, h);
      RestoresMeans(c, rules, log, h, a);
      SelectionKnown(c, rules, log, h);
      ChoseMeans(c, rules, log, h, parent);
    }
    if h: nat :| RestoresAt(log, h, a) && Chose(log[h], parent) {
      RestoresMeans(c, rules, log, h, a);
      ChoseMeans(c, rules, log, h, parent);
    }
  }

  // ----- The section --------------------------------------------------------------------------------------

  lemma FaultMeans(c: Crypto, rules: Rules, log: seq<Record>, x: nat)
    requires LawfulLog(c, rules, log) && CandidateAt(log, x)
    ensures log[x].id in LineageAt(log).cands
    ensures Standing.SelfSound(LineageAt(log), log[x].id) <==> !FaultyAt(log, x)
  {
    hide LawfulLog, LineageAt, HoldsFor, Standing.AnchorSound, PassedAt, IsRetracted, OnlyNames;
    CandidateKnown(c, rules, log, x);
    WithdrawnMeans(c, rules, log, x);
    if log[x].data.basis == Continuation {
      var a, m := ContinuationsAreAnchored(c, rules, log, x);
      PassedMeans(log, m);
      CandidateKnown(c, rules, log, m);
      CandidatesDecode(c, rules, log, m);
      TargetsMean(log[x].refs, Cause);
      AnchorMeans(c, rules, log, a, log[m].id);
      forall b: nat | b < |log| && OnlyNames(log[x].refs, Cause, log[b].id)
        ensures b == a
      {
        assert [log[a].id][0] == [log[b].id][0];
        SameIdSameRecord(c, rules, log, a, b);
      }
    }
  }

  lemma CandidatesDecode(c: Crypto, rules: Rules, log: seq<Record>, j: nat)
    requires LawfulLog(c, rules, log) && j < |log| && PassedAt(log, j) && log[j].kind == Candidate
    ensures log[j].data.CandidateData?
  {
    hide LawfulLog, PastOf, Envelope;
    PassedRuling(c, rules, log, j);
  }

  /** A candidate is compromised exactly when something faulty is in its line. */
  lemma CompromiseIsDeclared(c: Crypto, rules: Rules, log: seq<Record>, i: nat)
    requires LawfulLog(c, rules, log) && i < |log|
    ensures log[i].id in Standing.StandingOf(LineageAt(log)).compromised <==> CompromisedAt(log, i)
  {
    hide LawfulLog, LineageAt, Lines, Reaches, GoesBackTo, FaultyAt, Standing.SelfSound, PassedAt;
    var l := LineageAt(log);
    CandidateKnown(c, rules, log, i);
    if CandidateAt(log, i) {
      if x :| x in l.cands && Reaches(Lines(l.cands), log[i].id, x) && !Standing.SelfSound(l, x) {
        var n := LineageRecord(c, rules, log, x);
        InsideLog(log, n);
        CandidateKnown(c, rules, log, n);
        FaultMeans(c, rules, log, n);
        ReachesBack(c, rules, log, i, n);
      }
      if x: nat :| GoesBackTo(log, i, x) && FaultyAt(log, x) {
        FaultIsCandidate(log, x);
        FaultMeans(c, rules, log, x);
        ReachesBack(c, rules, log, i, x);
      }
    }
  }

  lemma FaultIsCandidate(log: seq<Record>, x: nat)
    requires FaultyAt(log, x)
    ensures CandidateAt(log, x)
  {
    hide HoldsFor, IsRetracted;
  }

  /** The unsound selections are those withdrawn, each listed with exactly the selections
      that restore it, if any do. */
  lemma RestorationsAreDeclared(c: Crypto, rules: Rules, log: seq<Record>, s: nat, h: nat)
    requires LawfulLog(c, rules, log) && s < |log| && h < |log|
    ensures var section := Standing.StandingOf(LineageAt(log));
            && (log[s].id in section.unsound <==> SelectionAt(log, s) && WithdrawnAt(log, s))
            && (log[h].id in Members(section.restorations, log[s].id) <==>
                  SelectionAt(log, s) && WithdrawnAt(log, s) && RestoresAt(log, h, s))
  {
    hide LawfulLog, LineageAt, RestoresAt, WithdrawnAt, Unsound, SelectionAt, Standing.Restores;
    var l := LineageAt(log);
    SelectionKnown(c, rules, log, s);
    SelectionKnown(c, rules, log, h);
    WithdrawnMeans(c, rules, log, s);
    RestoresMeans(c, rules, log, h, s);
    RestorerKnown(l, log[h].id, log[s].id);
  }

  lemma RestorerKnown(l: Lineage, heir: Id, s: Id)
    ensures Standing.Restores(l, heir, s) ==> heir in l.sels
  {
    hide StrictlyReaches, Chains;
  }

  /** Everything the section names is a record of the log. */
  lemma SectionNamesRecords(c: Crypto, rules: Rules, log: seq<Record>, id: Id)
    requires LawfulLog(c, rules, log)
    requires var section := Standing.StandingOf(LineageAt(log));
             id in section.compromised || id in section.unsound || id in section.restorations.Keys
    ensures exists i: nat :: i < |log| && log[i].id == id
  {
    hide LawfulLog, LineageAt, Standing.LineSound, Unsound, Standing.Restores;
    var i := LineageRecord(c, rules, log, id);
    InsideLog(log, i);
  }
}
