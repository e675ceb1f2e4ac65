// Lineage queries over a verified log: the line of descent of a candidate, and the
// candidates that descend from a record.
module Queries {
  import opened Records
  import opened Graphs
  import opened Lineages
  import opened Breadth
  import opened Storage

  datatype QueryError = NotFound(id: Id) | NotAccepted(id: Id) | KindMismatch(id: Id)

  datatype Answer<T> = Answered(value: T) | Unanswered(error: QueryError)

  /** How an ancestor was reached. */
  datatype Via = ContinuationAnchor | ParentCandidate | DerivationCause

  datatype Step = Step(id: Id, via: Via)

  /** The records queries run against, with their index and what was accepted. */
  datatype Context = Context(records: seq<Record>, accepted: set<Id>, byId: map<Id, nat>)

  ghost predicate HasIndex(q: Context) {
    Indexes(q.byId, q.records)
  }

  function Get(q: Context, id: Id): Option<Record>
    requires HasIndex(q)
  {
    if id in q.byId then Some(q.records[q.byId[id]]) else None
  }

  // ----- Backward edges --------------------------------------------------------------------

  predicate Ascending(ids: seq<Id>) {
    forall i, j :: 0 <= i <= j < |ids| ==> ids[i] <= ids[j]
  }

  function Inserted(ids: seq<Id>, x: Id): (out: seq<Id>)
    requires Ascending(ids)
    ensures Ascending(out) && (forall y :: y in out <==> y in ids || y == x)
    ensures |out| == |ids| + 1
  {
    if ids == [] || x <= ids[0] then [x] + ids
    else
      assert ids == [ids[0]] + ids[1..];
      var rest := Inserted(ids[1..], x);
      assert forall j :: 0 <= j < |rest| ==> rest[j] in rest;
      assert forall y :: y in ids ==> ids[0] <= y;
      [ids[0]] + rest
  }

  /** Ids in ascending order. */
  function SortIds(ids: seq<Id>): (out: seq<Id>)
    ensures Ascending(out) && (forall y :: y in out <==> y in ids) && |out| == |ids|
  {
    if ids == [] then []
    else
      assert ids == [ids[0]] + ids[1..];
      Inserted(SortIds(ids[1..]), ids[0])
  }

  function Steps(ids: seq<Id>, via: Via): (out: seq<Step>)
    ensures |out| == |ids| && forall i :: 0 <= i < |ids| ==> out[i] == Step(ids[i], via)
  {
    seq(|ids|, i requires 0 <= i < |ids| => Step(ids[i], via))
  }

  /** Those of a list that are candidates of the log, accepted or not. */
  function CandidatesOnly(q: Context, ids: seq<Id>): (out: seq<Id>)
    requires HasIndex(q)
    ensures forall x :: x in out <==> x in ids && Get(q, x).Some? && Get(q, x).value.kind == Candidate
  {
    if ids == [] then []
    else
      assert ids == [ids[0]] + ids[1..];
      var keep := Get(q, ids[0]).Some? && Get(q, ids[0]).value.kind == Candidate;
      (if keep then [ids[0]] else []) + CandidatesOnly(q, ids[1..])
  }

  /** `back_edges`: anchors then parent of a continuation, candidate causes of a derivation. */
  function BackEdges(q: Context, r: Record): seq<Step>
    requires HasIndex(q) && r.data.CandidateData?
  {
    var causes := SortIds(Targets(r.refs, Cause));
    match r.data.basis
    case Root => []
    case Continuation =>
      Steps(causes, ContinuationAnchor) + if r.data.parent.Some? then [Step(r.data.parent.value, ParentCandidate)] else []
    case Derivation => Steps(CandidatesOnly(q, causes), DerivationCause)
  }

  function EdgesOf(q: Context, id: Id): seq<Step>
    requires HasIndex(q)
  {
    if Get(q, id).Some? && Get(q, id).value.kind == Candidate && Get(q, id).value.data.CandidateData?
    then BackEdges(q, Get(q, id).value) else []
  }

  function Heads(steps: seq<Step>): (out: seq<Id>)
    ensures |out| == |steps| && forall i :: 0 <= i < |steps| ==> out[i] == steps[i].id
  {
    seq(|steps|, i requires 0 <= i < |steps| => steps[i].id)
  }

  /** The graph descent walks. */
  ghost function Back(q: Context): Graph<Id>
    requires HasIndex(q)
  {
    map id | id in q.byId :: set x | x in Heads(EdgesOf(q, id))
  }

  // ----- Descent ------------------------------------------------------------------------------

  /** Everything descent has to look at is there and reads as what it is. */
  ghost predicate Resolvable(q: Context, id: Id)
    requires HasIndex(q)
  {
    Get(q, id).Some? && (Get(q, id).value.kind == Candidate ==> Get(q, id).value.data.CandidateData?)
  }

  ghost predicate Describable(q: Context, candidate: Id)
    requires HasIndex(q)
  {
    && Get(q, candidate).Some? && candidate in q.accepted && Get(q, candidate).value.kind == Candidate
    && forall x :: Reaches(Back(q), candidate, x) ==> Resolvable(q, x)
  }

  /** No walk to `y` is shorter than every walk to `x`. */
  ghost predicate NoFarther<T(!new)>(g: Graph<T>, a: T, x: T, y: T) {
    forall p :: WalkFrom(g, p, a, y) ==> exists w :: WalkFrom(g, w, a, x) && |w| <= |p|
  }

  /** A step along an edge from the target or from something already in the line. */
  ghost predicate Justified(q: Context, target: Id, line: seq<Step>, n: nat, step: Step)
    requires HasIndex(q) && n <= |line|
  {
    step in EdgesOf(q, target) || exists k :: 0 <= k < n && step in EdgesOf(q, line[k].id)
  }

  /** What a line of descent is: every ancestor once, nearest first, each by a real edge. */
  ghost predicate LineOfDescent(q: Context, target: Id, line: seq<Step>)
    requires HasIndex(q)
  {
    && (forall i, j :: 0 <= i < j < |line| ==> line[i].id != line[j].id)
    && (forall x :: x in Heads(line) <==> x != target && Reaches(Back(q), target, x))
    && (forall i, j :: 0 <= i <= j < |line| ==> NoFarther(Back(q), target, line[i].id, line[j].id))
    && (forall i :: 0 <= i < |line| ==> Justified(q, target, line, i, line[i]))
  }

  lemma EdgesMeet(q: Context, id: Id)
    requires HasIndex(q) && id in q.byId
    ensures forall y :: y in Heads(EdgesOf(q, id)) <==> Edge(Back(q), id, y)
  {
  }

  /** The line so far: what was seen besides the target, in order of level. */
  ghost predicate LineSoFar(target: Id, line: seq<Step>, level: map<Id, nat>) {
    && level.Keys == {target} + (set x | x in Heads(line))
    && target !in Heads(line)
    && (forall i, j :: 0 <= i < j < |line| ==> line[i].id != line[j].id)
    && (forall i, j :: 0 <= i <= j < |line| ==> LevelAt(level, line[i].id) <= LevelAt(level, line[j].id))
  }

  ghost function LevelAt(level: map<Id, nat>, x: Id): nat {
    if x in level then level[x] else 0
  }

  ghost predicate LineJustified(q: Context, target: Id, line: seq<Step>)
    requires HasIndex(q)
  {
    forall i :: 0 <= i < |line| ==> Justified(q, target, line, i, line[i])
  }

  ghost predicate QueueJustified(q: Context, target: Id, line: seq<Step>, queue: seq<Step>)
    requires HasIndex(q)
  {
    forall step :: step in queue ==> Justified(q, target, line, |line|, step)
  }

  ghost predicate AllResolvable(q: Context, level: map<Id, nat>)
    requires HasIndex(q)
  {
    forall x :: x in level ==> Resolvable(q, x)
  }

  /** Where the search stands, line and queue together. */
  ghost predicate Underway(q: Context, target: Id, line: seq<Step>, queue: seq<Step>,
                           level: map<Id, nat>, ql: seq<nat>)
    requires HasIndex(q)
  {
    && Searching(Back(q), target, level, Heads(queue), ql)
    && LineSoFar(target, line, level)
    && LineJustified(q, target, line)
    && QueueJustified(q, target, line, queue)
    && AllResolvable(q, level)
  }

  lemma HeadsSplit(a: seq<Step>, b: seq<Step>)
    ensures Heads(a + b) == Heads(a) + Heads(b)
    ensures a != [] ==> Heads(a[1..]) == Heads(a)[1..]
  {
  }

  lemma StillJustified(q: Context, target: Id, line: seq<Step>, n: nat, more: seq<Step>, m: nat, step: Step)
    requires HasIndex(q) && n <= |line| && n <= m <= |line + more| && Justified(q, target, line, n, step)
    ensures Justified(q, target, line + more, m, step)
  {
    if step !in EdgesOf(q, target) {
      var k :| 0 <= k < n && step in EdgesOf(q, line[k].id);
      assert (line + more)[k] == line[k];
    }
  }

  lemma BeginsUnderway(q: Context, target: Id)
    requires HasIndex(q) && target in q.byId && Resolvable(q, target)
    ensures Underway(q, target, [], EdgesOf(q, target), map[target := 0], Repeated(1, |EdgesOf(q, target)|))
  {
    hide Back, EdgesOf, Searching, Resolvable, HasIndex;
    EdgesMeet(q, target);
    Starts(Back(q), target, Heads(EdgesOf(q, target)));
  }

  lemma DropsStep(q: Context, target: Id, line: seq<Step>, queue: seq<Step>, level: map<Id, nat>, ql: seq<nat>)
    requires HasIndex(q) && queue != [] && Underway(q, target, line, queue, level, ql) && queue[0].id in level
    ensures ql != [] && Underway(q, target, line, queue[1..], level, ql[1..])
  {
    hide Back, EdgesOf, Resolvable, Justified, LineSoFar, LineJustified, AllResolvable, AllCovered, AllDiscovered, TwoLevels,
         Distance, HasIndex;
    HeadsSplit(queue, []);
    Drops(Back(q), target, level, Heads(queue), ql);
  }

  lemma LineGrows(target: Id, line: seq<Step>, level: map<Id, nat>, step: Step, n: nat)
    requires LineSoFar(target, line, level) && step.id !in level && forall x :: x in level ==> level[x] <= n
    ensures LineSoFar(target, line + [step], level[step.id := n])
  {
    var grown, level' := line + [step], level[step.id := n];
    HeadsSplit(line, [step]);
    assert forall i :: 0 <= i < |line| ==> line[i].id == Heads(line)[i] && line[i].id in Heads(line);
    assert forall i :: 0 <= i < |line| ==> line[i].id in level && line[i].id != step.id;
    assert Heads(grown) == Heads(line) + [step.id];
    forall i, j | 0 <= i <= j < |grown|
      ensures LevelAt(level', grown[i].id) <= LevelAt(level', grown[j].id)
    {
      if j < |line| {
        assert LevelAt(level, line[i].id) <= LevelAt(level, line[j].id);
      }
    }
  }

  lemma JustificationGrows(q: Context, target: Id, line: seq<Step>, queue: seq<Step>)
    requires HasIndex(q) && queue != [] && LineJustified(q, target, line) && QueueJustified(q, target, line, queue)
    ensures LineJustified(q, target, line + [queue[0]])
    ensures QueueJustified(q, target, line + [queue[0]], queue[1..] + EdgesOf(q, queue[0].id))
  {
    hide EdgesOf, HasIndex;
    var step := queue[0];
    var next := EdgesOf(q, step.id);
    var grown := line + [step];
    forall i | 0 <= i < |grown|
      ensures Justified(q, target, grown, i, grown[i])
    {
      StillJustified(q, target, line, if i < |line| then i else |line|, [step], i, grown[i]);
    }
    forall x | x in queue[1..] + next
      ensures Justified(q, target, grown, |grown|, x)
    {
      if x in queue[1..] {
        assert x in queue;
        StillJustified(q, target, line, |line|, [step], |grown|, x);
      } else {
        assert grown[|line|].id == step.id;
      }
    }
  }

  lemma TakesStep(q: Context, target: Id, line: seq<Step>, queue: seq<Step>, level: map<Id, nat>, ql: seq<nat>)
    requires HasIndex(q) && queue != [] && Underway(q, target, line, queue, level, ql) && queue[0].id !in level
    requires queue[0].id in q.byId && Resolvable(q, queue[0].id)
    ensures ql != []
    ensures var next := EdgesOf(q, queue[0].id);
            Underway(q, target, line + [queue[0]], queue[1..] + next, level[queue[0].id := ql[0]],
                     ql[1..] + Repeated(ql[0] + 1, |next|))
  {
    hide Back, EdgesOf, Resolvable, Justified, LineSoFar, LineJustified, QueueJustified, AllCovered, AllDiscovered,
         TwoLevels, Distance, HasIndex;
    var step := queue[0];
    var next := EdgesOf(q, step.id);
    HeadsSplit(queue, []);
    HeadsSplit(queue[1..], next);
    EdgesMeet(q, step.id);
    Takes(Back(q), target, level, Heads(queue), ql, Heads(next));
    LevelsAreBelow(Back(q), target, level, Heads(queue), ql);
    LineGrows(target, line, level, step, ql[0]);
    JustificationGrows(q, target, line, queue);
  }

  lemma LevelsAreBelow(g: Graph<Id>, root: Id, level: map<Id, nat>, queue: seq<Id>, ql: seq<nat>)
    requires Searching(g, root, level, queue, ql) && queue != []
    ensures forall x :: x in level ==> level[x] <= ql[0]
  {
  }

  lemma FinishesDescent(q: Context, target: Id, line: seq<Step>, level: map<Id, nat>)
    requires HasIndex(q) && Underway(q, target, line, [], level, [])
    ensures LineOfDescent(q, target, line)
    ensures forall x :: Reaches(Back(q), target, x) ==> Resolvable(q, x)
  {
    hide Back, Searching, Resolvable, Reaches, NoFarther, Justified, HasIndex;
    var g := Back(q);
    assert Heads([]) == [];
    forall x
      ensures x in level <==> Reaches(g, target, x)
    {
      FinishedSearch(g, target, level, x);
    }
    forall i, j | 0 <= i <= j < |line|
      ensures NoFarther(g, target, line[i].id, line[j].id)
    {
      LineIsOrdered(g, target, line, level, i, j);
    }
  }

  lemma LineIsOrdered(g: Graph<Id>, target: Id, line: seq<Step>, level: map<Id, nat>, i: nat, j: nat)
    requires Searching(g, target, level, [], []) && LineSoFar(target, line, level) && i <= j < |line|
    ensures NoFarther(g, target, line[i].id, line[j].id)
  {
    hide NoFarther, Distance;
    assert Heads(line)[i] == line[i].id && Heads(line)[j] == line[j].id;
    assert line[i].id in Heads(line) && line[j].id in Heads(line);
    assert LevelAt(level, line[i].id) <= LevelAt(level, line[j].id);
    CloserIsNoFarther(g, target, line[i].id, level[line[i].id], line[j].id, level[line[j].id]);
  }

  lemma CloserIsNoFarther(g: Graph<Id>, a: Id, x: Id, n: nat, y: Id, m: nat)
    requires Distance(g, a, x, n) && Distance(g, a, y, m) && n <= m
    ensures NoFarther(g, a, x, y)
  {
    var w :| WalkFrom(g, w, a, x) && |w| == n + 1;
  }

  // ----- The order of the line ---------------------------------------------------------------

  /** All edges out of the target and then out of each entry, in the order descent sees them. */
  ghost function EdgesAlong(q: Context, target: Id, line: seq<Step>): seq<Step>
    requires HasIndex(q)
  {
    if line == [] then EdgesOf(q, target)
    else EdgesAlong(q, target, line[..|line| - 1]) + EdgesOf(q, line[|line| - 1].id)
  }

  /** The steps that reach something new, the target itself aside. */
  ghost function Firsts(steps: seq<Step>, target: Id): seq<Step> {
    if steps == [] then []
    else
      var before, last := Firsts(steps[..|steps| - 1], target), steps[|steps| - 1];
      if last.id == target || last.id in Heads(before) then before else before + [last]
  }

  /** Nearest first, and the parents of each entry in ascending order after those of the
      entries before it: the line is the first sightings along its own edges. */
  ghost predicate InOrder(q: Context, target: Id, line: seq<Step>)
    requires HasIndex(q)
  {
    line == Firsts(EdgesAlong(q, target, line), target)
  }

  lemma OneMoreSighting(steps: seq<Step>, step: Step, target: Id)
    ensures var before := Firsts(steps, target);
            Firsts(steps + [step], target) ==
            if step.id == target || step.id in Heads(before) then before else before + [step]
  {
    assert (steps + [step])[..|steps|] == steps;
  }

  lemma OneMoreEntry(q: Context, target: Id, line: seq<Step>, step: Step)
    requires HasIndex(q)
    ensures EdgesAlong(q, target, line + [step]) == EdgesAlong(q, target, line) + EdgesOf(q, step.id)
  {
    hide EdgesOf, HasIndex;
    assert (line + [step])[..|line|] == line;
  }

  lemma {:induction false} FirstsGrow(a: seq<Step>, b: seq<Step>, target: Id)
    requires a <= b
    ensures Firsts(a, target) <= Firsts(b, target)
  {
    if |a| < |b| {
      FirstsGrow(a, b[..|b| - 1], target);
    } else {
      assert a == b;
    }
  }

  lemma {:induction false} FirstsCover(steps: seq<Step>, target: Id, step: Step)
    requires step in steps
    ensures step.id == target || step.id in Heads(Firsts(steps, target))
  {
    var front, last := steps[..|steps| - 1], steps[|steps| - 1];
    var before := Firsts(front, target);
    if step != last {
      assert step in front;
      FirstsCover(front, target, step);
      HeadsSplit(before, [last]);
    } else {
      assert Heads(before + [last])[|before|] == last.id;
    }
  }

  lemma {:induction false} EdgesGrow(q: Context, target: Id, line: seq<Step>, k: nat)
    requires HasIndex(q) && k <= |line|
    ensures EdgesAlong(q, target, line[..k]) <= EdgesAlong(q, target, line)
    decreases |line|
  {
    hide EdgesOf, HasIndex;
    if k < |line| {
      var front := line[..|line| - 1];
      EdgesGrow(q, target, front, k);
      assert front[..k] == line[..k];
    } else {
      assert line[..k] == line;
    }
  }

  lemma {:induction false} JustifiedIsAlong(q: Context, target: Id, line: seq<Step>, k: nat, step: Step)
    requires HasIndex(q) && k <= |line| && Justified(q, target, line, k, step)
    ensures step in EdgesAlong(q, target, line[..k])
    decreases k
  {
    hide EdgesOf, HasIndex;
    if k > 0 {
      assert line[..k][..k - 1] == line[..k - 1] && line[..k][k - 1] == line[k - 1];
      if step !in EdgesOf(q, line[k - 1].id) {
        JustifiedIsAlong(q, target, line, k - 1, step);
      }
    }
  }

  lemma NewWhereItStands(q: Context, target: Id, line: seq<Step>, m: nat, k: nat)
    requires HasIndex(q) && LineOfDescent(q, target, line) && m <= k < |line|
    ensures line[k].id != target && line[k].id !in Heads(line[..m])
  {
    hide HasIndex, Reaches, Back, NoFarther, Justified;
    assert line[k].id == Heads(line)[k] && line[k].id in Heads(line);
    forall i | 0 <= i < m
      ensures Heads(line[..m])[i] != line[k].id
    {
      assert line[..m][i] == line[i];
    }
  }

  lemma EntryIsJustified(q: Context, target: Id, line: seq<Step>, k: nat)
    requires HasIndex(q) && LineOfDescent(q, target, line) && k < |line|
    ensures line[k] in EdgesAlong(q, target, line[..k])
  {
    hide HasIndex, Reaches, Back, NoFarther, Justified, EdgesAlong;
    assert Justified(q, target, line, k, line[k]);
    JustifiedIsAlong(q, target, line, k, line[k]);
  }

  /** Each entry is new where it stands, so it is the next sighting along the edges so far. */
  lemma NextIsSighted(q: Context, target: Id, line: seq<Step>, k: nat)
    requires HasIndex(q) && LineOfDescent(q, target, line) && InOrder(q, target, line) && k < |line|
    ensures var sighted := Firsts(EdgesAlong(q, target, line[..k]), target);
            |sighted| > k && sighted[k] == line[k]
  {
    hide HasIndex, EdgesAlong, Firsts, LineOfDescent;
    var along := EdgesAlong(q, target, line[..k]);
    EdgesGrow(q, target, line, k);
    FirstsGrow(along, EdgesAlong(q, target, line), target);
    var sighted := Firsts(along, target);
    if |sighted| <= k {
      assert sighted == line[..|sighted|];
      EntryIsJustified(q, target, line, k);
      FirstsCover(along, target, line[k]);
      NewWhereItStands(q, target, line, |sighted|, k);
    }
  }

  /** There is only one such line. */
  lemma {:induction false} LinesAgree(q: Context, target: Id, a: seq<Step>, b: seq<Step>, k: nat)
    requires HasIndex(q) && LineOfDescent(q, target, a) && InOrder(q, target, a)
    requires LineOfDescent(q, target, b) && InOrder(q, target, b)
    requires k <= |a| && k <= |b|
    ensures a[..k] == b[..k]
  {
    hide HasIndex, LineOfDescent, InOrder, EdgesAlong, Firsts;
    if k > 0 {
      LinesAgree(q, target, a, b, k - 1);
      NextIsSighted(q, target, a, k - 1);
      NextIsSighted(q, target, b, k - 1);
      assert a[..k] == a[..k - 1] + [a[k - 1]] && b[..k] == b[..k - 1] + [b[k - 1]];
    }
  }

  lemma LineIsUnique(q: Context, target: Id, a: seq<Step>, b: seq<Step>)
    requires HasIndex(q) && LineOfDescent(q, target, a) && InOrder(q, target, a)
    requires LineOfDescent(q, target, b) && InOrder(q, target, b)
    ensures a == b
  {
    hide HasIndex, LineOfDescent, InOrder;
    NoLonger(q, target, a, b);
    NoLonger(q, target, b, a);
    LinesAgree(q, target, a, b, |a|);
    assert a[..|a|] == a && b[..|b|] == b;
  }

  lemma SameAncestors(q: Context, target: Id, a: seq<Step>, b: seq<Step>, k: nat)
    requires HasIndex(q) && LineOfDescent(q, target, a) && LineOfDescent(q, target, b) && k < |a|
    ensures a[k].id in Heads(b)
  {
    hide HasIndex, Reaches, Back, NoFarther, Justified;
    assert a[k].id == Heads(a)[k] && a[k].id in Heads(a);
  }

  /** Both list the same ancestors, each once. */
  lemma NoLonger(q: Context, target: Id, a: seq<Step>, b: seq<Step>)
    requires HasIndex(q) && LineOfDescent(q, target, a) && InOrder(q, target, a)
    requires LineOfDescent(q, target, b) && InOrder(q, target, b)
    ensures |a| <= |b|
  {
    hide HasIndex, LineOfDescent, InOrder;
    if |a| > |b| {
      LinesAgree(q, target, a, b, |b|);
      assert a[..|b|] == b;
      SameAncestors(q, target, a, b, |b|);
      NewWhereItStands(q, target, a, |b|, |b|);
    }
  }

  /** Where descent stands with its queue: what it took off gave the line, and the line
      gives what it took off and has yet to take. */
  ghost predicate Sighting(q: Context, target: Id, line: seq<Step>, popped: seq<Step>, queue: seq<Step>)
    requires HasIndex(q)
  {
    popped + queue == EdgesAlong(q, target, line) && line == Firsts(popped, target)
  }

  lemma SightsAgain(q: Context, target: Id, line: seq<Step>, popped: seq<Step>, queue: seq<Step>)
    requires HasIndex(q) && queue != [] && Sighting(q, target, line, popped, queue)
    requires queue[0].id == target || queue[0].id in Heads(line)
    ensures Sighting(q, target, line, popped + [queue[0]], queue[1..])
  {
    hide EdgesAlong, HasIndex, Firsts;
    OneMoreSighting(popped, queue[0], target);
    assert popped + [queue[0]] + queue[1..] == popped + queue;
  }

  lemma SightsNew(q: Context, target: Id, line: seq<Step>, popped: seq<Step>, queue: seq<Step>)
    requires HasIndex(q) && queue != [] && Sighting(q, target, line, popped, queue)
    requires queue[0].id != target && queue[0].id !in Heads(line)
    ensures Sighting(q, target, line + [queue[0]], popped + [queue[0]], queue[1..] + EdgesOf(q, queue[0].id))
  {
    hide EdgesAlong, EdgesOf, HasIndex, Firsts;
    OneMoreSighting(popped, queue[0], target);
    OneMoreEntry(q, target, line, queue[0]);
    assert popped + [queue[0]] + (queue[1..] + EdgesOf(q, queue[0].id)) == popped + queue + EdgesOf(q, queue[0].id);
  }

  lemma SightedAll(q: Context, target: Id, line: seq<Step>, popped: seq<Step>)
    requires HasIndex(q) && Sighting(q, target, line, popped, [])
    ensures InOrder(q, target, line)
  {
    hide EdgesAlong, HasIndex, Firsts;
    assert popped + [] == popped;
  }

  /** q1: the line of descent, breadth first. Answers exactly when every ancestor is there,
      and then with each of them once, none after a farther one, in the one such order that
      lists the parents of each entry ascending. */
  method Descent(q: Context, candidate: Id) returns (answer: Answer<seq<Step>>)
    requires HasIndex(q)
    ensures answer.Answered? <==> Describable(q, candidate)
    ensures answer.Answered? ==> LineOfDescent(q, candidate, answer.value) && InOrder(q, candidate, answer.value)
    ensures candidate !in q.byId ==> answer == Unanswered(NotFound(candidate))
    ensures candidate in q.byId && candidate !in q.accepted ==> answer == Unanswered(NotAccepted(candidate))
    ensures candidate in q.byId && candidate in q.accepted && Get(q, candidate).value.kind != Candidate ==>
              answer == Unanswered(KindMismatch(candidate))
  {
    hide LineOfDescent, Back, BackEdges, HasIndex, Underway, Reaches, Describable, Sighting, InOrder;
    IsDescribable(q, candidate);
    var found := Get(q, candidate);
    if found.None? {
      return Unanswered(NotFound(candidate));
    }
    if candidate !in q.accepted {
      return Unanswered(NotAccepted(candidate));
    }
    if found.value.kind != Candidate {
      return Unanswered(KindMismatch(candidate));
    }
    ReachesSelf(Back(q), candidate);
    if !found.value.data.CandidateData? {
      NotDescribable(q, candidate, candidate);
      return Unanswered(NotFound(candidate));
    }
    var line: seq<Step>, seen := [], {candidate};
    var queue := BackEdges(q, found.value);
    ghost var level: map<Id, nat>, ql := map[candidate := 0], Repeated(1, |queue|);
    BeginsUnderway(q, candidate);
    ghost var popped: seq<Step> := [];
    NothingSighted(q, candidate);
    while queue != []
      invariant Underway(q, candidate, line, queue, level, ql) && level.Keys == seen
      invariant Sighting(q, candidate, line, popped, queue)
      decreases |q.byId.Keys - seen|, |queue|
    {
      var step := queue[0];
      SeenIsListed(q, candidate, line, queue, level, ql);
      if step.id in seen {
        DropsStep(q, candidate, line, queue, level, ql);
        SightsAgain(q, candidate, line, popped, queue);
        popped := popped + [step];
        queue, ql := queue[1..], ql[1..];
        continue;
      }
      QueuedIsReached(q, candidate, line, queue, level, ql);
      var ancestor := Get(q, step.id);
      if ancestor.None? || (ancestor.value.kind == Candidate && !ancestor.value.data.CandidateData?) {
        NotDescribable(q, candidate, step.id);
        return Unanswered(NotFound(step.id));
      }
      TakesStep(q, candidate, line, queue, level, ql);
      var next := if ancestor.value.kind == Candidate then BackEdges(q, ancestor.value) else [];
      FewerLeft(q.byId.Keys, seen, step.id);
      SightsNew(q, candidate, line, popped, queue);
      popped := popped + [step];
      seen, line := seen + {step.id}, line + [step];
      level, ql := level[step.id := ql[0]], ql[1..] + Repeated(ql[0] + 1, |next|);
      queue := queue[1..] + next;
    }
    NoLevelsLeft(q, candidate, line, queue, level, ql);
    FinishesDescent(q, candidate, line, level);
    SightedAll(q, candidate, line, popped);
    return Answered(line);
  }

  lemma NothingSighted(q: Context, target: Id)
    requires HasIndex(q)
    ensures Sighting(q, target, [], [], EdgesOf(q, target))
  {
    hide EdgesOf, HasIndex;
    assert [] + EdgesOf(q, target) == EdgesOf(q, target);
  }

  lemma SeenIsListed(q: Context, target: Id, line: seq<Step>, queue: seq<Step>, level: map<Id, nat>, ql: seq<nat>)
    requires HasIndex(q) && Underway(q, target, line, queue, level, ql)
    ensures forall x :: x in level <==> x == target || x in Heads(line)
  {
    hide Searching, Back, LineJustified, QueueJustified, AllResolvable, HasIndex;
  }

  lemma IsDescribable(q: Context, candidate: Id)
    requires HasIndex(q)
    ensures Describable(q, candidate) <==>
      && Get(q, candidate).Some? && candidate in q.accepted && Get(q, candidate).value.kind == Candidate
      && forall x :: Reaches(Back(q), candidate, x) ==> Resolvable(q, x)
  {
  }

  lemma NotDescribable(q: Context, candidate: Id, x: Id)
    requires HasIndex(q) && Reaches(Back(q), candidate, x) && !Resolvable(q, x)
    ensures !Describable(q, candidate)
  {
  }

  lemma QueuedIsReached(q: Context, target: Id, line: seq<Step>, queue: seq<Step>, level: map<Id, nat>, ql: seq<nat>)
    requires HasIndex(q) && queue != [] && Underway(q, target, line, queue, level, ql)
    ensures Reaches(Back(q), target, queue[0].id)
  {
    hide Searching, Back, Reaches, LineSoFar, LineJustified, QueueJustified, AllResolvable, HasIndex;
    HeadIsReached(Back(q), target, level, Heads(queue), ql);
  }

  lemma NoLevelsLeft(q: Context, target: Id, line: seq<Step>, queue: seq<Step>, level: map<Id, nat>, ql: seq<nat>)
    requires HasIndex(q) && queue == [] && Underway(q, target, line, queue, level, ql)
    ensures ql == []
  {
  }

  lemma FewerLeft(all: set<Id>, seen: set<Id>, x: Id)
    requires x in all && x !in seen
    ensures |all - (seen + {x})| < |all - seen|
  {
    assert all - seen == (all - (seen + {x})) + {x};
  }

  // ----- Descendants ---------------------------------------------------------------------------

  ghost predicate AcceptedCandidate(q: Context, r: Record) {
    r.kind == Candidate && r.id in q.accepted
  }

  /** The record is another accepted candidate with the id among its ancestors. */
  ghost predicate DescendsFrom(q: Context, r: Record, id: Id)
    requires HasIndex(q)
  {
    AcceptedCandidate(q, r) && r.id != id && Reaches(Back(q), r.id, id)
  }

  /** Those of the first `n` records, in log order. */
  ghost function DescendantsAmong(q: Context, id: Id, n: nat): seq<Id>
    requires HasIndex(q) && n <= |q.records|
  {
    if n == 0 then []
    else
      var before := DescendantsAmong(q, id, n - 1);
      if DescendsFrom(q, q.records[n - 1], id) then before + [q.records[n - 1].id] else before
  }

  /** q2: every candidate whose descent passes through an id, in log order: the converse
      of descent. */
  method Descendants(q: Context, id: Id) returns (answer: Answer<seq<Id>>)
    requires HasIndex(q)
    ensures answer.Answered? ==> answer.value == DescendantsAmong(q, id, |q.records|)
    ensures answer.Answered? <==>
      && id in q.byId && id in q.accepted
      && forall r :: r in q.records && AcceptedCandidate(q, r) && r.id != id ==> Describable(q, r.id)
  {
    hide Back, HasIndex, Reaches, Describable, LineOfDescent, InOrder;
    if Get(q, id).None? {
      return Unanswered(NotFound(id));
    }
    if id !in q.accepted {
      return Unanswered(NotAccepted(id));
    }
    var found: seq<Id> := [];
    var i := 0;
    while i < |q.records|
      invariant 0 <= i <= |q.records|
      invariant found == DescendantsAmong(q, id, i)
      invariant forall k :: 0 <= k < i && AcceptedCandidate(q, q.records[k]) && q.records[k].id != id ==>
                  Describable(q, q.records[k].id)
    {
      var r := q.records[i];
      if r.kind == Candidate && r.id in q.accepted && r.id != id {
        var descent := Descent(q, r.id);
        if descent.Unanswered? {
          assert r in q.records;
          return Unanswered(descent.error);
        }
        InLine(q, r.id, descent.value, id);
        if exists k :: 0 <= k < |descent.value| && descent.value[k].id == id {
          found := found + [r.id];
        }
      }
      i := i + 1;
    }
    return Answered(found);
  }

  lemma InLine(q: Context, target: Id, line: seq<Step>, id: Id)
    requires HasIndex(q) && LineOfDescent(q, target, line) && id != target
    ensures (exists k :: 0 <= k < |line| && line[k].id == id) <==> Reaches(Back(q), target, id)
  {
    hide Back, Reaches, NoFarther, Justified;
    if Reaches(Back(q), target, id) {
      assert id in Heads(line);
      var k :| 0 <= k < |line| && Heads(line)[k] == id;
    }
    if k :| 0 <= k < |line| && line[k].id == id {
      assert Heads(line)[k] == id;
    }
  }

  /** A candidate is among the descendants of a record exactly when the record is in the
      line of descent of the candidate. */
  lemma {:induction false} DescendantsConverse(q: Context, id: Id, n: nat, i: nat, line: seq<Step>)
    requires HasIndex(q) && n <= |q.records| && i < |q.records|
    requires AcceptedCandidate(q, q.records[i]) && q.records[i].id != id
    requires LineOfDescent(q, q.records[i].id, line)
    requires forall j, k :: 0 <= j < k < |q.records| ==> q.records[j].id != q.records[k].id
    ensures i < n ==> (q.records[i].id in DescendantsAmong(q, id, n) <==> id in Heads(line))
    ensures i >= n ==> q.records[i].id !in DescendantsAmong(q, id, n)
  {
    hide Back, Reaches, LineOfDescent, HasIndex, AcceptedCandidate;
    if n > 0 {
      DescendantsConverse(q, id, n - 1, i, line);
      if i == n - 1 {
        InLine(q, q.records[i].id, line, id);
        assert id in Heads(line) <==> exists k :: 0 <= k < |line| && line[k].id == id;
      }
    }
  }
}
