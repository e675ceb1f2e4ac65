// Queries and standing read the same history: on a verified log every candidate has a
// line of descent, and its standing can be read off that line.
module QueryRuns {
  import opened Records
  import opened LedgerState
  import opened Graphs
  import opened Rules
  import opened Checks
  import opened Ledger
  import opened Replay
  import opened Facts
  import opened Lineages
  import opened Standing
  import opened StandingRuns
  import opened StandingSteps
  import opened Storage
  import opened Queries

  /** The query context of a verified log. */
  ghost function ContextOf(log: seq<Record>): (q: Context)
    ensures HasIndex(q)
  {
    Context(log, StateOf(log).accepted, IndexOf(log))
  }

  lemma RecordIsFound(c: Crypto, rules: Rules, log: seq<Record>, i: nat)
    requires LawfulLog(c, rules, log) && i < |log|
    ensures Get(ContextOf(log), log[i].id) == Some(log[i])
  {
    hide Lawful, StateOf, RegimeOf;
    SameIdSameRecord(c, rules, log, i, ContextOf(log).byId[log[i].id]);
  }

  /** A derivation rests on accepted candidates and evaluations only. */
  lemma DerivationPassed(prior: Prior, rules: Rules, s: State, r: Record, t: Id)
    requires CheckCandidate(rules, prior, s, r).None? && r.data.basis.Derivation? && t in Targets(r.refs, Cause)
    ensures t in prior.byId && prior.byId[t].id in s.accepted
    ensures prior.byId[t].kind == Candidate || prior.byId[t].kind == Evaluation
  {
    hide SourceWellFormed, ArtifactsWellFormed;
    var causes := Targets(r.refs, Cause);
    var k :| 0 <= k < |causes| && causes[k] == t;
    assert DerivesFrom(prior, s, causes[k]);
  }

  /** What a backward edge of a candidate leads to: a candidate its standing rests on, or
      the selection that anchors it. */
  lemma BackEdgeMeans(c: Crypto, rules: Rules, log: seq<Record>, a: Id, b: Id)
    requires LawfulLog(c, rules, log) && a in LineageAt(log).cands && Edge(Back(ContextOf(log)), a, b)
    ensures var l := LineageAt(log); (b in l.cands && Edge(Lines(l.cands), a, b)) || b in l.sels
  {
    hide Lawful, StateOf, PriorOf, RegimeOf, LineageAt, BatteryHolds, Lines;
    var l, q := LineageAt(log), ContextOf(log);
    var i := LineageRecord(c, rules, log, a);
    RecordIsFound(c, rules, log, i);
    AcceptedPassedAt(c, rules, log, i);
    CandidateRules(PriorOf(log[..i]), rules, StateOf(log[..i]), log[i]);
    EdgesMeet(q, a);
    hide Back;
    if log[i].data.basis.Continuation? {
      var anchor, parent := ContinuationIsWhole(c, rules, log, a);
      ContinuationEdges(q, log[i], anchor, parent, b);
      EdgeIn(l, a, b);
    } else if log[i].data.basis.Derivation? {
      DerivationEdges(q, log[i], b);
      DerivationPassed(PriorOf(log[..i]), rules, StateOf(log[..i]), log[i], b);
      var j := PriorIsEarlier(c, rules, log, i, b);
      RecordIsFound(c, rules, log, j);
      EarlierCandidate(c, rules, log, i, b);
      EdgeIn(l, a, b);
    }
  }

  lemma EdgeIn(l: Lineage, a: Id, b: Id)
    requires a in l.cands
    ensures Edge(Lines(l.cands), a, b) <==> b in Deps(l.cands, a) && b in l.cands
  {
  }

  lemma ContinuationEdges(q: Context, r: Record, anchor: Id, parent: Id, b: Id)
    requires HasIndex(q) && r.kind == Candidate && r.data.CandidateData? && r.data.basis.Continuation?
    requires Targets(r.refs, Cause) == [anchor] && r.data.parent == Some(parent)
    ensures b in Heads(BackEdges(q, r)) <==> b == anchor || b == parent
  {
    hide HasIndex;
    var sorted := SortIds([anchor]);
    assert |sorted| == 1 && sorted[0] in sorted;
    assert BackEdges(q, r) == [Step(anchor, ContinuationAnchor), Step(parent, ParentCandidate)];
    assert Heads(BackEdges(q, r)) == [anchor, parent];
  }

  lemma DerivationEdges(q: Context, r: Record, b: Id)
    requires HasIndex(q) && r.kind == Candidate && r.data.CandidateData? && r.data.basis.Derivation?
    ensures b in Heads(BackEdges(q, r)) <==>
              b in Targets(r.refs, Cause) && Get(q, b).Some? && Get(q, b).value.kind == Candidate
  {
    hide HasIndex;
    var ids := CandidatesOnly(q, SortIds(Targets(r.refs, Cause)));
    assert Heads(Steps(ids, DerivationCause)) == ids;
  }

  /** Every dependency of a candidate is one of its backward edges. */
  lemma LineIsBack(c: Crypto, rules: Rules, log: seq<Record>, a: Id, b: Id)
    requires LawfulLog(c, rules, log) && Edge(Lines(LineageAt(log).cands), a, b)
    ensures Edge(Back(ContextOf(log)), a, b)
  {
    hide Lawful, StateOf, PriorOf, RegimeOf, LineageAt, BatteryHolds, Lines;
    var l, q := LineageAt(log), ContextOf(log);
    EdgeLeavesCandidate(l, a, b);
    EdgeIn(l, a, b);
    var i := LineageRecord(c, rules, log, a);
    var j := LineageRecord(c, rules, log, b);
    RecordIsFound(c, rules, log, i);
    RecordIsFound(c, rules, log, j);
    EdgesMeet(q, a);
    hide Back;
    if log[i].data.basis.Continuation? {
      var anchor, parent := ContinuationIsWhole(c, rules, log, a);
      ContinuationEdges(q, log[i], anchor, parent, b);
    } else {
      DerivationEdges(q, log[i], b);
    }
  }

  lemma EdgeLeavesCandidate(l: Lineage, a: Id, b: Id)
    requires Edge(Lines(l.cands), a, b)
    ensures a in l.cands && b in l.cands
  {
  }

  lemma SelectionHasNoEdges(c: Crypto, rules: Rules, log: seq<Record>, a: Id, b: Id)
    requires LawfulLog(c, rules, log) && a in LineageAt(log).sels
    ensures !Edge(Back(ContextOf(log)), a, b) && a !in LineageAt(log).cands
  {
    hide Lawful, StateOf, RegimeOf, LineageAt;
    var i := LineageRecord(c, rules, log, a);
    RecordIsFound(c, rules, log, i);
    EdgesMeet(ContextOf(log), a);
  }

  /** A backward walk from a candidate stays among candidates, but for a last selection. */
  lemma {:induction false} BackwardWalk(c: Crypto, rules: Rules, log: seq<Record>, p: seq<Id>)
    requires LawfulLog(c, rules, log) && p != [] && p[0] in LineageAt(log).cands && Walk(Back(ContextOf(log)), p)
    ensures var l := LineageAt(log); var last := p[|p| - 1];
            (last in l.cands && Walk(Lines(l.cands), p)) || last in l.sels
  {
    hide Lawful, StateOf, RegimeOf, LineageAt, ContextOf, Back, Lines;
    if |p| > 1 {
      var n := |p| - 1;
      WalkSlice(Back(ContextOf(log)), p, 0, n);
      BackwardWalk(c, rules, log, p[0..n]);
      assert Edge(Back(ContextOf(log)), p[n - 1], p[n - 1 + 1]);
      if p[n - 1] in LineageAt(log).sels {
        SelectionHasNoEdges(c, rules, log, p[n - 1], p[n]);
      } else {
        BackEdgeMeans(c, rules, log, p[n - 1], p[n]);
        if p[n] in LineageAt(log).cands && Edge(Lines(LineageAt(log).cands), p[n - 1], p[n]) {
          WalkGrows(Lines(LineageAt(log).cands), p[0..n], p[n]);
          assert p == p[0..n] + [p[n]];
        }
      }
    }
  }

  /** Among candidates, the two searches reach the same ones. */
  lemma SearchesAgree(c: Crypto, rules: Rules, log: seq<Record>, id: Id, x: Id)
    requires LawfulLog(c, rules, log) && id in LineageAt(log).cands && x in LineageAt(log).cands
    ensures Reaches(Back(ContextOf(log)), id, x) <==> Reaches(Lines(LineageAt(log).cands), id, x)
  {
    hide Lawful, StateOf, RegimeOf, LineageAt, ContextOf, Back, Lines;
    if Reaches(Back(ContextOf(log)), id, x) {
      var p :| WalkFrom(Back(ContextOf(log)), p, id, x);
      BackwardWalk(c, rules, log, p);
      if x in LineageAt(log).sels {
        SelectionHasNoEdges(c, rules, log, x, x);
      }
      assert WalkFrom(Lines(LineageAt(log).cands), p, id, x);
    }
    if Reaches(Lines(LineageAt(log).cands), id, x) {
      var p :| WalkFrom(Lines(LineageAt(log).cands), p, id, x);
      forall i | 0 <= i < |p| - 1
        ensures Edge(Back(ContextOf(log)), p[i], p[i + 1])
      {
        LineIsBack(c, rules, log, p[i], p[i + 1]);
      }
      assert WalkFrom(Back(ContextOf(log)), p, id, x);
    }
  }

  /** Over a verified log descent never fails on an accepted candidate. */
  lemma CandidatesAreDescribable(c: Crypto, rules: Rules, log: seq<Record>, id: Id)
    requires LawfulLog(c, rules, log) && id in LineageAt(log).cands
    ensures Describable(ContextOf(log), id)
  {
    hide Lawful, StateOf, RegimeOf, LineageAt, Back, Reaches, Resolvable, Collisionless;
    var q := ContextOf(log);
    var i := LineageRecord(c, rules, log, id);
    RecordIsFound(c, rules, log, i);
    VerifiedIsPaired(RegimeOf(c, rules), log);
    AcceptedHere(log, i);
    forall x | Reaches(Back(q), id, x)
      ensures Resolvable(q, x)
    {
      ReachedIsResolvable(c, rules, log, id, x);
    }
  }

  lemma ReachedIsResolvable(c: Crypto, rules: Rules, log: seq<Record>, id: Id, x: Id)
    requires LawfulLog(c, rules, log) && id in LineageAt(log).cands && Reaches(Back(ContextOf(log)), id, x)
    ensures Resolvable(ContextOf(log), x)
  {
    hide Lawful, StateOf, RegimeOf, LineageAt, Back, ContextOf;
    var p :| WalkFrom(Back(ContextOf(log)), p, id, x);
    BackwardWalk(c, rules, log, p);
    var j := LineageRecord(c, rules, log, x);
    RecordIsFound(c, rules, log, j);
  }

  /** The breadth-first line and the depth-first standing agree: a candidate is compromised
      exactly when it, or some candidate in its line of descent, was retracted or continues
      from an anchor that neither stands nor is restored. */
  lemma DescentShowsStanding(c: Crypto, rules: Rules, log: seq<Record>, id: Id, line: seq<Step>)
    requires LawfulLog(c, rules, log) && id in LineageAt(log).cands
    requires LineOfDescent(ContextOf(log), id, line)
    ensures id in StandingOf(LineageAt(log)).compromised <==>
              exists x :: (x == id || x in Heads(line)) && x in LineageAt(log).cands && !Stands(LineageAt(log), x)
  {
    hide Lawful, StateOf, RegimeOf, LineageAt, ContextOf, Back, Lines, Reaches, Stands, LineSound, NoFarther, Justified;
    var l := LineageAt(log);
    StandingIsConeStanding(c, rules, log, id);
    ReachesSelf(Lines(l.cands), id);
    forall x | x in l.cands
      ensures Reaches(Lines(l.cands), id, x) <==> x == id || x in Heads(line)
    {
      SearchesAgree(c, rules, log, id, x);
    }
  }
}
