// The lineage facts standing and the lineage queries share: what each accepted candidate
// and selection says, and the two graphs those facts span.
module Lineages {
  import opened Records
  import opened LedgerState
  import opened Graphs

  datatype CandInfo = CandInfo(basis: CandidateBasis, parent: Option<Id>, causes: seq<Id>)

  datatype SelInfo = SelInfo(selected: set<Id>, replaceTarget: Option<Id>)

  datatype Lineage = Lineage(
    cands: map<Id, CandInfo>, sels: map<Id, SelInfo>, retracted: set<Id>, tainted: set<Id>)

  function CandidateFacts(r: Record): Option<CandInfo> {
    if r.kind == Candidate && r.data.CandidateData?
    then Some(CandInfo(r.data.basis, r.data.parent, Targets(r.refs, Cause))) else None
  }

  function SelectionFacts(r: Record): Option<SelInfo> {
    if r.kind == Selection && r.data.SelectionData?
    then Some(SelInfo((set x | x in SelectedIds(r.data.decision)), FirstTarget(r.refs, Replace))) else None
  }

  function Candidates(records: seq<Record>, accepted: set<Id>): map<Id, CandInfo> {
    if records == [] then map[]
    else
      var m, r := Candidates(records[..|records| - 1], accepted), records[|records| - 1];
      if r.id in accepted && CandidateFacts(r).Some? then m[r.id := CandidateFacts(r).value] else m
  }

  function Selections(records: seq<Record>, accepted: set<Id>): map<Id, SelInfo> {
    if records == [] then map[]
    else
      var m, r := Selections(records[..|records| - 1], accepted), records[|records| - 1];
      if r.id in accepted && SelectionFacts(r).Some? then m[r.id := SelectionFacts(r).value] else m
  }

  function LineageOf(records: seq<Record>, s: State): Lineage {
    Lineage(Candidates(records, s.accepted), Selections(records, s.accepted), s.retracted, s.tainted)
  }

  method ReadLineage(records: seq<Record>, s: State) returns (l: Lineage)
    ensures l == LineageOf(records, s)
  {
    var cands: map<Id, CandInfo> := map[];
    var sels: map<Id, SelInfo> := map[];
    var i := 0;
    while i < |records|
      invariant 0 <= i <= |records|
      invariant cands == Candidates(records[..i], s.accepted) && sels == Selections(records[..i], s.accepted)
    {
      var r := records[i];
      assert records[..i + 1][..i] == records[..i];
      if r.id in s.accepted {
        if CandidateFacts(r).Some? {
          cands := cands[r.id := CandidateFacts(r).value];
        } else if SelectionFacts(r).Some? {
          sels := sels[r.id := SelectionFacts(r).value];
        }
      }
      i := i + 1;
    }
    assert records[..i] == records;
    l := Lineage(cands, sels, s.retracted, s.tainted);
  }

  // ----- The two graphs -------------------------------------------------------------------

  predicate Unsound(l: Lineage, id: Id) {
    id in l.retracted || id in l.tainted
  }

  /** The candidates whose standing a candidate's own rests on, as the walk lists them. */
  function Deps(cands: map<Id, CandInfo>, c: Id): seq<Id>
    requires c in cands
  {
    var info := cands[c];
    match info.basis
    case Root => []
    case Continuation => if info.parent.Some? then [info.parent.value] else []
    case Derivation => Known(cands, info.causes)
  }

  /** Those of a list that are candidates. */
  function Known(cands: map<Id, CandInfo>, ids: seq<Id>): (out: seq<Id>)
    ensures forall x :: x in out <==> x in ids && x in cands
  {
    if ids == [] then []
    else
      assert ids == [ids[0]] + ids[1..];
      (if ids[0] in cands then [ids[0]] else []) + Known(cands, ids[1..])
  }

  ghost function Lines(cands: map<Id, CandInfo>): Graph<Id> {
    map c | c in cands :: set d | d in Deps(cands, c) && d in cands
  }

  ghost function Chains(sels: map<Id, SelInfo>): Graph<Id> {
    map s | s in sels :: if sels[s].replaceTarget.Some? then {sels[s].replaceTarget.value} else {}
  }

  ghost predicate WalkFrom<T>(g: Graph<T>, p: seq<T>, a: T, b: T) {
    Walk(g, p) && p != [] && p[0] == a && p[|p| - 1] == b
  }

  /** In zero or more steps. */
  ghost predicate Reaches<T(!new)>(g: Graph<T>, a: T, b: T) {
    exists p :: WalkFrom(g, p, a, b)
  }

  /** In at least one step. */
  ghost predicate StrictlyReaches<T(!new)>(g: Graph<T>, a: T, b: T) {
    exists p :: WalkFrom(g, p, a, b) && |p| >= 2
  }

  /** Every edge between nodes of the graph leads down in rank. */
  ghost predicate Descending<T(!new)>(g: Graph<T>, rank: T -> nat) {
    forall a, b :: Edge(g, a, b) && b in g ==> rank(b) < rank(a)
  }

  lemma {:induction false} WalkDescends<T(!new)>(g: Graph<T>, rank: T -> nat, p: seq<T>, i: nat, j: nat)
    requires Descending(g, rank) && Walk(g, p) && i < j < |p| && p[j] in g
    ensures rank(p[j]) < rank(p[i])
    decreases j
  {
    assert Edge(g, p[j - 1], p[j - 1 + 1]);
    if i < j - 1 {
      WalkDescends(g, rank, p, i, j - 1);
    }
  }

  lemma ReachesSelf<T(!new)>(g: Graph<T>, a: T)
    ensures Reaches(g, a, a)
  {
    assert WalkFrom(g, [a], a, a);
  }

  lemma StepThenReach<T(!new)>(g: Graph<T>, a: T, b: T, x: T)
    requires Edge(g, a, b) && Reaches(g, b, x)
    ensures Reaches(g, a, x) && StrictlyReaches(g, a, x)
  {
    var p :| WalkFrom(g, p, b, x);
    assert Walk(g, [a, b]);
    WalkJoins(g, [a, b], p);
    assert WalkFrom(g, [a, b] + p[1..], a, x);
  }

  /** What is reached is oneself or reached through a first step. */
  lemma FirstStep<T(!new)>(g: Graph<T>, a: T, x: T) returns (b: T)
    requires Reaches(g, a, x) && a != x
    ensures Edge(g, a, b) && Reaches(g, b, x)
  {
    var p :| WalkFrom(g, p, a, x);
    b := p[1];
    assert Edge(g, p[0], p[0 + 1]);
    WalkSlice(g, p, 1, |p|);
    assert WalkFrom(g, p[1..|p|], b, x);
  }
}
