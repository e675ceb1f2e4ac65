// Descent over a verified log, said of the records: what each step of an answered line
// means, which entry it comes from, and the order of the steps out of one record.
module Descents {
  import opened Records
  import opened Refs
  import opened Rules
  import opened Checks
  import opened Ledger
  import opened Replay
  import opened Facts
  import opened Lineages
  import opened StandingRuns
  import opened Queries
  import opened QueryRuns
  import opened Pasts
  import opened Rulebook
  import opened Rulings
  import opened Verdicts

  // ----- Which entry a step comes from -----------------------------------------------------------

  /** The target, then the entries of the line in order. */
  function Source(target: Id, line: seq<Step>, k: nat): Id
    requires k <= |line|
  {
    if k == 0 then target else line[k - 1].id
  }

  /** The step leaves this entry, and no entry before it has a step to the same place. */
  ghost predicate FirstFrom(q: Context, target: Id, line: seq<Step>, k: nat, step: Step)
    requires HasIndex(q) && k <= |line|
  {
    && step in EdgesOf(q, Source(target, line, k))
    && forall j, other :: 0 <= j < k && other in EdgesOf(q, Source(target, line, j)) ==> other.id != step.id
  }

  /** Adding edges adds only sightings of what no edge so far leads to. */
  lemma {:induction false} NewSightings(a: seq<Step>, b: seq<Step>, target: Id, step: Step)
    requires step in Firsts(a + b, target) && step !in Firsts(a, target)
    ensures step in b && forall other :: other in a ==> other.id != step.id
    decreases |b|
  {
    assert b == [] ==> a + b == a;
    if b != [] {
      var front, last := b[..|b| - 1], b[|b| - 1];
      assert a + b == (a + front) + [last];
      OneMoreSighting(a + front, last, target);
      if step in Firsts(a + front, target) {
        NewSightings(a, front, target, step);
      } else {
        forall other | other in a
          ensures other.id != step.id
        {
          assert other in a + front;
          FirstsCover(a + front, target, other);
        }
      }
    }
  }

  /** Every sighting along a line comes from the first entry that leads to it. */
  lemma {:induction false} SightedFromFirst(q: Context, target: Id, line: seq<Step>, m: nat, step: Step)
    returns (k: nat)
    requires HasIndex(q) && m <= |line| && step in Firsts(EdgesAlong(q, target, line[..m]), target)
    ensures k <= m && FirstFrom(q, target, line, k, step)
    decreases m
  {
    hide EdgesOf, HasIndex, Firsts;
    if m == 0 {
      assert line[..0] == [];
      SightedAlong(EdgesOf(q, target), target, step);
      k := 0;
    } else {
      var a := EdgesAlong(q, target, line[..m - 1]);
      assert line[..m][..m - 1] == line[..m - 1] && line[..m][m - 1] == line[m - 1];
      if step in Firsts(a, target) {
        k := SightedFromFirst(q, target, line, m - 1, step);
      } else {
        NewSightings(a, EdgesOf(q, line[m - 1].id), target, step);
        k := m;
        forall j, other | 0 <= j < m && other in EdgesOf(q, Source(target, line, j))
          ensures other.id != step.id
        {
          EdgeIsAlong(q, target, line, j, m - 1, other);
        }
      }
    }
  }

  lemma {:induction false} SightedAlong(steps: seq<Step>, target: Id, step: Step)
    requires step in Firsts(steps, target)
    ensures step in steps
  {
    if steps != [] && step != steps[|steps| - 1] {
      SightedAlong(steps[..|steps| - 1], target, step);
    }
  }

  lemma {:induction false} EdgeIsAlong(q: Context, target: Id, line: seq<Step>, j: nat, m: nat, step: Step)
    requires HasIndex(q) && j <= m <= |line| && step in EdgesOf(q, Source(target, line, j))
    ensures step in EdgesAlong(q, target, line[..m])
    decreases m
  {
    hide EdgesOf, HasIndex;
    if m > 0 {
      assert line[..m][..m - 1] == line[..m - 1] && line[..m][m - 1] == line[m - 1];
      if j < m {
        EdgeIsAlong(q, target, line, j, m - 1, step);
      }
    }
  }

  // ----- Steps out of one record --------------------------------------------------------------------

  /** The candidate at `i` leads to an id, in this way. */
  ghost predicate LeadsTo(log: seq<Record>, i: nat, step: Step) {
    && i < |log| && log[i].kind == Candidate && log[i].data.CandidateData?
    && var r := log[i];
    match step.via
    case ContinuationAnchor => r.data.basis == Continuation && Ref(Cause, step.id) in r.refs
    case ParentCandidate => r.data.basis == Continuation && r.data.parent == Some(step.id)
    case DerivationCause =>
      && r.data.basis == Derivation && Ref(Cause, step.id) in r.refs
      && exists j: nat :: j < |log| && log[j].id == step.id && log[j].kind == Candidate
  }

  /** An anchor before a parent; otherwise by ascending id. */
  predicate StepBefore(a: Step, b: Step) {
    if a.via == b.via then a.id < b.id else a.via == ContinuationAnchor && b.via == ParentCandidate
  }

  /** Exactly the ways the record leads on, each once, in their order. */
  ghost predicate StepsOut(log: seq<Record>, i: nat, steps: seq<Step>) {
    && (forall step :: step in steps <==> LeadsTo(log, i, step))
    && forall a, b :: 0 <= a < b < |steps| ==> StepBefore(steps[a], steps[b])
  }

  lemma CandidateIsNamed(log: seq<Record>, x: Id)
    requires forall i, j :: 0 <= i < j < |log| ==> log[i].id != log[j].id
    ensures Get(ContextOf(log), x).Some? && Get(ContextOf(log), x).value.kind == Candidate <==>
              exists j: nat :: j < |log| && log[j].id == x && log[j].kind == Candidate
  {
    hide StateOf;
    if j: nat :| j < |log| && log[j].id == x && log[j].kind == Candidate {
      assert ContextOf(log).byId[x] == j;
    }
  }

  lemma {:induction false} SortedOnce(ids: seq<Id>)
    requires forall i, j :: 0 <= i < j < |ids| ==> ids[i] < ids[j]
    ensures SortIds(ids) == ids
  {
    if ids != [] {
      SortedOnce(ids[1..]);
      assert ids == [ids[0]] + ids[1..];
      assert ids[1..] != [] ==> ids[0] < ids[1..][0];
    }
  }

  lemma {:induction false} KeepsOrder(q: Context, ids: seq<Id>)
    requires HasIndex(q) && forall i, j :: 0 <= i < j < |ids| ==> ids[i] < ids[j]
    ensures forall i, j :: 0 <= i < j < |CandidatesOnly(q, ids)| ==>
              CandidatesOnly(q, ids)[i] < CandidatesOnly(q, ids)[j]
  {
    hide HasIndex, Get;
    if ids != [] {
      KeepsOrder(q, ids[1..]);
      var rest := CandidatesOnly(q, ids[1..]);
      forall j | 0 <= j < |rest|
        ensures ids[0] < rest[j]
      {
        assert rest[j] in rest;
        var k :| 0 <= k < |ids[1..]| && ids[1..][k] == rest[j];
      }
    }
  }

  /** Targets of one type in a canonical list ascend. */
  lemma {:induction false} TargetsAscend(refs: seq<Ref>, t: RefType)
    requires StrictlySorted(refs)
    ensures forall i, j :: 0 <= i < j < |Targets(refs, t)| ==> Targets(refs, t)[i] < Targets(refs, t)[j]
  {
    if refs != [] {
      TailSorted(refs);
      TargetsAscend(refs[1..], t);
      var rest := Targets(refs[1..], t);
      if refs[0].kind == t {
        forall j | 0 <= j < |rest|
          ensures refs[0].target < rest[j]
        {
          assert rest[j] in rest;
          var k :| 0 <= k < |refs[1..]| && refs[1..][k] == Ref(t, rest[j]);
          SortedPairs(refs, 0, k + 1);
        }
      }
    }
  }

  lemma StepsAscend(ids: seq<Id>, via: Via)
    requires forall i, j :: 0 <= i < j < |ids| ==> ids[i] < ids[j]
    ensures var steps := Steps(ids, via);
            && (forall a, b :: 0 <= a < b < |steps| ==> StepBefore(steps[a], steps[b]))
            && (forall step :: step in steps <==> step.via == via && step.id in ids)
  {
    var steps := Steps(ids, via);
    forall step
      ensures step in steps <==> step.via == via && step.id in ids
    {
      if step.via == via && step.id in ids {
        var k :| 0 <= k < |ids| && ids[k] == step.id;
        assert steps[k] == step;
      }
    }
  }

  lemma AnchorsThenParent(ids: seq<Id>, parent: Option<Id>)
    requires forall i, j :: 0 <= i < j < |ids| ==> ids[i] < ids[j]
    ensures var steps := Steps(ids, ContinuationAnchor)
                         + if parent.Some? then [Step(parent.value, ParentCandidate)] else [];
            && (forall a, b :: 0 <= a < b < |steps| ==> StepBefore(steps[a], steps[b]))
            && (forall step :: step in steps <==>
                  || (step.via == ContinuationAnchor && step.id in ids)
                  || (step.via == ParentCandidate && parent == Some(step.id)))
  {
    hide Steps;
    StepsAscend(ids, ContinuationAnchor);
  }

  lemma ContinuationSteps(log: seq<Record>, i: nat)
    requires i < |log| && log[i].kind == Candidate && log[i].data.CandidateData? && StrictlySorted(log[i].refs)
    requires log[i].data.basis == Continuation
    ensures StepsOut(log, i, BackEdges(ContextOf(log), log[i]))
  {
    hide ContextOf, Steps, StrictlySorted, StepBefore;
    var causes := Targets(log[i].refs, Cause);
    TargetsAscend(log[i].refs, Cause);
    SortedOnce(causes);
    AnchorsThenParent(causes, log[i].data.parent);
  }

  lemma DerivationSteps(log: seq<Record>, i: nat)
    requires forall a, b :: 0 <= a < b < |log| ==> log[a].id != log[b].id
    requires i < |log| && log[i].kind == Candidate && log[i].data.CandidateData? && StrictlySorted(log[i].refs)
    requires log[i].data.basis == Derivation
    ensures StepsOut(log, i, BackEdges(ContextOf(log), log[i]))
  {
    hide ContextOf, Steps, StrictlySorted, CandidatesOnly;
    var q, r := ContextOf(log), log[i];
    var causes := Targets(r.refs, Cause);
    TargetsAscend(r.refs, Cause);
    SortedOnce(causes);
    var ids := CandidatesOnly(q, causes);
    KeepsOrder(q, causes);
    StepsAscend(ids, DerivationCause);
    forall x: Id
      ensures Get(q, x).Some? && Get(q, x).value.kind == Candidate <==>
              exists j: nat :: j < |log| && log[j].id == x && log[j].kind == Candidate
    {
      CandidateIsNamed(log, x);
    }
  }

  /** The steps out of a candidate with canonical refs are exactly those the record names, in
      their order. */
  lemma StepsAreDeclared(log: seq<Record>, i: nat)
    requires forall a, b :: 0 <= a < b < |log| ==> log[a].id != log[b].id
    requires i < |log| && log[i].kind == Candidate && log[i].data.CandidateData? && StrictlySorted(log[i].refs)
    ensures StepsOut(log, i, BackEdges(ContextOf(log), log[i]))
  {
    hide ContextOf, Steps, StrictlySorted;
    match log[i].data.basis {
      case Root =>
        assert BackEdges(ContextOf(log), log[i]) == [];
      case Continuation =>
        ContinuationSteps(log, i);
      case Derivation =>
        DerivationSteps(log, i);
    }
  }

  // ----- Over a verified log -----------------------------------------------------------------------

  lemma AcceptedIsCanonical(c: Crypto, rules: Rules, log: seq<Record>, i: nat)
    requires LawfulLog(c, rules, log) && AcceptedAt(log, i)
    ensures StrictlySorted(log[i].refs)
    ensures log[i].kind == Candidate ==> log[i].data.CandidateData?
  {
    hide Lawful, StateOf, PriorOf, CheckKind, CheckRefs, CheckReplacement, CheckEvidence, CheckAuthor, CarriesCycle,
         StrictlySorted;
    AcceptedPassed(RegimeOf(c, rules), log, i);
  }

  lemma UniqueInLog(c: Crypto, rules: Rules, log: seq<Record>)
    requires LawfulLog(c, rules, log)
    ensures forall a, b :: 0 <= a < b < |log| ==> log[a].id != log[b].id
  {
    hide Lawful, RegimeOf;
    RegimeHolds(c, rules);
    IdsAreUnique(RegimeOf(c, rules), log);
  }

  /** What descent sees at an accepted record is what the record says. */
  lemma EdgesAreDeclared(c: Crypto, rules: Rules, log: seq<Record>, s: nat)
    requires LawfulLog(c, rules, log) && AcceptedAt(log, s)
    ensures StepsOut(log, s, EdgesOf(ContextOf(log), log[s].id))
  {
    hide LawfulLog, ContextOf, BackEdges, StrictlySorted;
    AcceptedIsCanonical(c, rules, log, s);
    UniqueInLog(c, rules, log);
    RecordIsFound(c, rules, log, s);
    if log[s].kind == Candidate {
      StepsAreDeclared(log, s);
    }
  }

  lemma EntryIsReached(q: Context, target: Id, line: seq<Step>, k: nat)
    requires HasIndex(q) && LineOfDescent(q, target, line) && k < |line|
    ensures Reaches(Back(q), target, line[k].id)
  {
    hide Back, Reaches, NoFarther, Justified, HasIndex;
    assert Heads(line)[k] == line[k].id && line[k].id in Heads(line);
  }

  /** Every entry of a line, and its target, is an accepted record. */
  lemma SourceIsAccepted(c: Crypto, rules: Rules, log: seq<Record>, i: nat, line: seq<Step>, k: nat) returns (s: nat)
    requires LawfulLog(c, rules, log) && AcceptedAt(log, i) && log[i].kind == Candidate
    requires LineOfDescent(ContextOf(log), log[i].id, line) && k <= |line|
    ensures AcceptedAt(log, s) && log[s].id == Source(log[i].id, line, k)
    ensures k > 0 ==> log[s].kind == Candidate || log[s].kind == Selection
  {
    hide Lawful, RegimeOf, StateOf, LineageAt, Back, ContextOf, LineOfDescent;
    if k == 0 {
      s := i;
    } else {
      var x := line[k - 1].id;
      EntryIsReached(ContextOf(log), log[i].id, line, k - 1);
      AcceptedIsCanonical(c, rules, log, i);
      RecordLineage(c, rules, log, i);
      var p :| WalkFrom(Back(ContextOf(log)), p, log[i].id, x);
      BackwardWalk(c, rules, log, p);
      s := LineageRecord(c, rules, log, x);
    }
  }

  // ----- What the causes and the parent of an accepted candidate are ------------------------------------

  lemma CandidateRuling(c: Crypto, rules: Rules, log: seq<Record>, s: nat)
    requires LawfulLog(c, rules, log) && PassedAt(log, s) && log[s].kind == Candidate
    ensures Rulebook.Candidates(rules, PastOf(log[..s]), log[s]).Fine?
  {
    hide Lawful, RegimeOf, PastOf, Envelope, Rulebook.Candidates;
    PassedRuling(c, rules, log, s);
  }

  /** A record named before a position that is accepted and of a kind sits where it is. */
  lemma NamedBefore(c: Crypto, rules: Rules, log: seq<Record>, s: nat, id: Id, k: Kind) returns (j: nat)
    requires LawfulLog(c, rules, log) && s + 1 < |log| && s % 2 == 0 && NamesAccepted(PastOf(log[..s]), id, k)
    ensures j < s && AcceptedAt(log, j) && log[j].id == id && log[j].kind == k
    ensures PastOf(log[..s]).Named(id) == Some(log[j])
  {
    hide Lawful, RegimeOf, PastOf, Past.Named, Past.Accepted, PassedAt, AcceptedAt;
    AcceptedBefore(c, rules, log, s, id);
    j :| j < s && PassedAt(log, j) && log[j].id == id;
    PassedMeans(log, j);
  }

  /** An accepted continuation has one Cause, an earlier accepted selection that chose its
      parent, and the parent is an earlier accepted candidate. */
  lemma ContinuationsAreAnchored(c: Crypto, rules: Rules, log: seq<Record>, s: nat) returns (j: nat, m: nat)
    requires LawfulLog(c, rules, log) && PassedAt(log, s) && log[s].kind == Candidate
    requires log[s].data.CandidateData? && log[s].data.basis == Continuation
    ensures j < s && AcceptedAt(log, j) && log[j].kind == Selection && OnlyNames(log[s].refs, Cause, log[j].id)
    ensures m < s && AcceptedAt(log, m) && log[m].kind == Candidate && log[s].data.parent == Some(log[m].id)
    ensures Chose(log[j], log[m].id)
  {
    hide Lawful, RegimeOf, PastOf, Past.Named, Past.Accepted, Past.Withdrawn, SourceHolds, ArtifactsInOrder, OnlyNames;
    CandidateRuling(c, rules, log, s);
    var p, r := PastOf(log[..s]), log[s];
    var q :| OnlyNames(r.refs, Cause, q) && NamesAccepted(p, q, Selection) && r.data.parent.Some?
             && Chose(p.Named(q).value, r.data.parent.value);
    j := NamedBefore(c, rules, log, s, q, Selection);
    m := NamedBefore(c, rules, log, s, r.data.parent.value, Candidate);
  }

  /** Every Cause of an accepted derivation is an earlier accepted candidate or evaluation. */
  lemma DerivationsAreFounded(c: Crypto, rules: Rules, log: seq<Record>, s: nat, x: Id) returns (j: nat)
    requires LawfulLog(c, rules, log) && PassedAt(log, s) && log[s].kind == Candidate
    requires log[s].data.CandidateData? && log[s].data.basis == Derivation && Ref(Cause, x) in log[s].refs
    ensures j < s && AcceptedAt(log, j) && log[j].id == x && (log[j].kind == Candidate || log[j].kind == Evaluation)
  {
    hide Lawful, RegimeOf, PastOf, Past.Named, Past.Accepted, SourceHolds, ArtifactsInOrder, NamesAccepted;
    CandidateRuling(c, rules, log, s);
    if NamesAccepted(PastOf(log[..s]), x, Candidate) {
      j := NamedBefore(c, rules, log, s, x, Candidate);
    } else {
      j := NamedBefore(c, rules, log, s, x, Evaluation);
    }
  }

  /** No entry before the one at `k` leads to the id in any way. */
  ghost predicate NoneBefore(log: seq<Record>, target: Id, line: seq<Step>, k: nat, id: Id)
    requires k <= |line|
  {
    forall j: nat, s: nat, via :: j < k && s < |log| && log[s].id == Source(target, line, j) ==>
      !LeadsTo(log, s, Step(id, via))
  }

  /** A step of an answered line leads from the first entry, target included, that leads to
      its record at all, and in the way that entry's record names it: a Cause of a
      continuation, the parent it declares, or a candidate Cause of a derivation. */
  lemma DescentIsDeclared(c: Crypto, rules: Rules, log: seq<Record>, i: nat, line: seq<Step>, n: nat)
    returns (k: nat, s: nat)
    requires LawfulLog(c, rules, log) && AcceptedAt(log, i) && log[i].kind == Candidate
    requires LineOfDescent(ContextOf(log), log[i].id, line)
        && Queries.InOrder(ContextOf(log), log[i].id, line) && n < |line|
    ensures k <= n && AcceptedAt(log, s) && log[s].id == Source(log[i].id, line, k)
    ensures LeadsTo(log, s, line[n]) && NoneBefore(log, log[i].id, line, k, line[n].id)
  {
    hide Lawful, RegimeOf, StateOf, LineOfDescent, Queries.InOrder, EdgesOf, Firsts, EdgesAlong, LeadsTo, ContextOf;
    var q, target := ContextOf(log), log[i].id;
    NextIsSighted(q, target, line, n);
    k := SightedFromFirst(q, target, line, n, line[n]);
    s := SourceIsAccepted(c, rules, log, i, line, k);
    EdgesAreDeclared(c, rules, log, s);
    forall j: nat, t: nat, via | j < k && t < |log| && log[t].id == Source(target, line, j)
      ensures !LeadsTo(log, t, Step(line[n].id, via))
    {
      var u := SourceIsAccepted(c, rules, log, i, line, j);
      SameIdSameRecord(c, rules, log, t, u);
      EdgesAreDeclared(c, rules, log, u);
    }
  }

  lemma AnchorIsNoParent(c: Crypto, rules: Rules, log: seq<Record>, j: nat, m: nat)
    requires LawfulLog(c, rules, log) && j < |log| && m < |log| && log[j].kind != log[m].kind
    ensures log[j].id != log[m].id
  {
    hide LawfulLog;
    if log[j].id == log[m].id {
      SameIdSameRecord(c, rules, log, j, m);
    }
  }

  /** What the way a step was taken says of the record it leads from. */
  predicate NamedAs(r: Record, step: Step)
    requires r.data.CandidateData?
  {
    && (step.via == ContinuationAnchor <==> r.data.basis == Continuation && Ref(Cause, step.id) in r.refs)
    && (step.via == ParentCandidate <==> r.data.basis == Continuation && r.data.parent == Some(step.id))
    && (step.via == DerivationCause <==> r.data.basis == Derivation && Ref(Cause, step.id) in r.refs)
  }

  lemma ContinuationVia(c: Crypto, rules: Rules, log: seq<Record>, s: nat, step: Step) returns (t: nat)
    requires LawfulLog(c, rules, log) && PassedAt(log, s) && LeadsTo(log, s, step) && log[s].data.basis == Continuation
    ensures AcceptedAt(log, t) && t < s && log[t].id == step.id
    ensures log[t].kind == (if step.via == ContinuationAnchor then Selection else Candidate)
    ensures NamedAs(log[s], step)
  {
    hide LawfulLog, PassedAt, AcceptedAt, OnlyNames;
    var j, m := ContinuationsAreAnchored(c, rules, log, s);
    OnlyMember(log[s].refs, Cause, log[j].id, step.id);
    AnchorIsNoParent(c, rules, log, j, m);
    t := if step.via == ContinuationAnchor then j else m;
  }

  lemma DerivationVia(c: Crypto, rules: Rules, log: seq<Record>, s: nat, step: Step) returns (t: nat)
    requires LawfulLog(c, rules, log) && PassedAt(log, s) && LeadsTo(log, s, step) && log[s].data.basis != Continuation
    ensures AcceptedAt(log, t) && t < s && log[t].id == step.id && log[t].kind == Candidate
    ensures step.via == DerivationCause && NamedAs(log[s], step)
  {
    hide LawfulLog, PassedAt, AcceptedAt, OnlyNames;
    t := DerivationsAreFounded(c, rules, log, s, step.id);
    var j: nat :| j < |log| && log[j].id == step.id && log[j].kind == Candidate;
    SameIdSameRecord(c, rules, log, j, t);
  }

  /** How an entry was reached says what it is: an accepted selection exactly when it is the
      anchor of the continuation it was reached from, and otherwise an accepted candidate,
      that continuation's declared parent or a Cause of a derivation. */
  lemma ViaIsDeclared(c: Crypto, rules: Rules, log: seq<Record>, s: nat, step: Step) returns (t: nat)
    requires LawfulLog(c, rules, log) && AcceptedAt(log, s) && LeadsTo(log, s, step)
    ensures AcceptedAt(log, t) && t < s && log[t].id == step.id
    ensures log[t].kind == (if step.via == ContinuationAnchor then Selection else Candidate)
    ensures NamedAs(log[s], step)
  {
    PassedMeans(log, s);
    hide LawfulLog, PassedAt, AcceptedAt;
    if log[s].data.basis == Continuation {
      t := ContinuationVia(c, rules, log, s, step);
    } else {
      t := DerivationVia(c, rules, log, s, step);
    }
  }
}
