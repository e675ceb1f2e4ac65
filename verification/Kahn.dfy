// Kahn's algorithm: nodes leave a queue once nothing they depend on is left, and
// whatever never leaves contains a cycle.
module Kahn {
  import opened Graphs

  datatype Node<T> = Node(id: T, dependsOn: seq<T>)

  predicate UniqueNodes<T(==)>(nodes: seq<Node<T>>) {
    forall i, j :: 0 <= i < j < |nodes| ==> nodes[i].id != nodes[j].id
  }

  ghost function Ids<T>(nodes: seq<Node<T>>): (ids: set<T>)
    ensures forall i :: 0 <= i < |nodes| ==> nodes[i].id in ids
  {
    if nodes == [] then {}
    else
      assert forall i :: 1 <= i < |nodes| ==> nodes[i] == nodes[1..][i - 1];
      {nodes[0].id} + Ids(nodes[1..])
  }

  lemma {:induction false} IdIndex<T>(nodes: seq<Node<T>>, x: T) returns (i: nat)
    requires x in Ids(nodes)
    ensures i < |nodes| && nodes[i].id == x
  {
    if nodes[0].id == x {
      i := 0;
    } else {
      i := IdIndex(nodes[1..], x);
      i := i + 1;
    }
  }

  ghost predicate Closed<T>(nodes: seq<Node<T>>) {
    forall i :: 0 <= i < |nodes| ==> Members(nodes[i].dependsOn) <= Ids(nodes)
  }

  ghost function Members<T>(xs: seq<T>): set<T> {
    set x | x in xs
  }

  ghost function GraphOf<T>(nodes: seq<Node<T>>): Graph<T>
    requires UniqueNodes(nodes)
  {
    map i | 0 <= i < |nodes| :: nodes[i].id := Members(nodes[i].dependsOn)
  }

  lemma EdgeMeaning<T>(nodes: seq<Node<T>>, a: T, b: T)
    requires UniqueNodes(nodes)
    ensures Edge(GraphOf(nodes), a, b) <==> exists i :: 0 <= i < |nodes| && nodes[i].id == a && b in nodes[i].dependsOn
  {
    if i :| 0 <= i < |nodes| && nodes[i].id == a && b in nodes[i].dependsOn {
      assert nodes[i].id in GraphOf(nodes);
    }
  }

  // ----- What the tables count ------------------------------------------------------

  /** How many entries of a dependency list are not done yet. */
  ghost function Pending<T>(deps: seq<T>, done: set<T>): nat {
    if deps == [] then 0 else (if deps[0] in done then 0 else 1) + Pending(deps[1..], done)
  }

  ghost function Occurrences<T>(xs: seq<T>, x: T): nat {
    multiset(xs)[x]
  }

  lemma {:induction false} PendingOfNone<T>(deps: seq<T>)
    ensures Pending(deps, {}) == |deps|
  {
    if deps != [] {
      PendingOfNone(deps[1..]);
    }
  }

  lemma {:induction false} PendingSplits<T>(deps: seq<T>, done: set<T>, x: T)
    requires x !in done
    ensures Pending(deps, done) == Pending(deps, done + {x}) + Occurrences(deps, x)
  {
    if deps != [] {
      PendingSplits(deps[1..], done, x);
      assert deps == [deps[0]] + deps[1..];
    }
  }

  lemma {:induction false} PendingZero<T>(deps: seq<T>, done: set<T>)
    ensures Pending(deps, done) == 0 <==> forall d :: d in deps ==> d in done
  {
    if deps != [] {
      PendingZero(deps[1..], done);
      assert deps == [deps[0]] + deps[1..];
    }
  }

  /** A dependent is listed once per occurrence of the dependency. */
  ghost predicate Listed<T>(nodes: seq<Node<T>>, row: seq<T>, d: T, i: nat)
    requires i < |nodes|
  {
    Occurrences(row, nodes[i].id) == Occurrences(nodes[i].dependsOn, d)
  }

  ghost predicate AdjacencyExact<T(!new)>(nodes: seq<Node<T>>, adj: map<T, seq<T>>) {
    && adj.Keys == Ids(nodes)
    && (forall d :: d in adj ==> Members(adj[d]) <= Ids(nodes))
    && (forall d, i :: d in adj && 0 <= i < |nodes| ==> Listed(nodes, adj[d], d, i))
  }

  /** Each node waits on what is pending of its list, plus what the current step has
      yet to hand out. */
  ghost predicate DegreesExact<T(!new)>(nodes: seq<Node<T>>, inDegree: map<T, nat>, done: set<T>, owed: seq<T>) {
    && inDegree.Keys == Ids(nodes)
    && forall i :: 0 <= i < |nodes| ==>
         inDegree[nodes[i].id] == Pending(nodes[i].dependsOn, done) + Occurrences(owed, nodes[i].id)
  }

  // ----- Filling the tables -----------------------------------------------------------

  /** What the tables reflect when `k` entries of node `n` have been read. */
  ghost function Read<T>(nodes: seq<Node<T>>, i: nat, n: nat, k: nat): seq<T>
    requires i < |nodes| && (n < |nodes| ==> k <= |nodes[n].dependsOn|)
  {
    if i < n then nodes[i].dependsOn else if i == n then nodes[i].dependsOn[..k] else []
  }

  ghost predicate DegreesFilled<T(!new)>(nodes: seq<Node<T>>, inDegree: map<T, nat>, n: nat, k: nat)
    requires n < |nodes| ==> k <= |nodes[n].dependsOn|
  {
    && inDegree.Keys == Ids(nodes)
    && forall i :: 0 <= i < |nodes| ==> inDegree[nodes[i].id] == |Read(nodes, i, n, k)|
  }

  ghost predicate CellFilled<T>(nodes: seq<Node<T>>, row: seq<T>, d: T, i: nat, n: nat, k: nat)
    requires i < |nodes| && (n < |nodes| ==> k <= |nodes[n].dependsOn|)
  {
    Occurrences(row, nodes[i].id) == Occurrences(Read(nodes, i, n, k), d)
  }

  ghost predicate AdjacencyFilled<T(!new)>(nodes: seq<Node<T>>, adj: map<T, seq<T>>, n: nat, k: nat)
    requires n < |nodes| ==> k <= |nodes[n].dependsOn|
  {
    && adj.Keys == Ids(nodes)
    && (forall d :: d in adj ==> Members(adj[d]) <= Ids(nodes))
    && (forall d, i :: d in adj && 0 <= i < |nodes| ==> CellFilled(nodes, adj[d], d, i, n, k))
  }

  lemma DegreesStep<T(!new)>(nodes: seq<Node<T>>, inDegree: map<T, nat>, n: nat, k: nat)
    requires UniqueNodes(nodes) && n < |nodes| && k < |nodes[n].dependsOn|
    requires DegreesFilled(nodes, inDegree, n, k)
    ensures DegreesFilled(nodes, inDegree[nodes[n].id := inDegree[nodes[n].id] + 1], n, k + 1)
  {
  }

  lemma CellStep<T>(nodes: seq<Node<T>>, row: seq<T>, d: T, i: nat, n: nat, k: nat)
    requires UniqueNodes(nodes) && i < |nodes| && n < |nodes| && k < |nodes[n].dependsOn|
    requires CellFilled(nodes, row, d, i, n, k)
    ensures CellFilled(nodes, if d == nodes[n].dependsOn[k] then row + [nodes[n].id] else row, d, i, n, k + 1)
  {
    if i == n {
      assert nodes[n].dependsOn[..k + 1] == nodes[n].dependsOn[..k] + [nodes[n].dependsOn[k]];
    } else {
      assert nodes[i].id != nodes[n].id;
    }
  }

  lemma AdjacencyStep<T(!new)>(nodes: seq<Node<T>>, adj: map<T, seq<T>>, n: nat, k: nat)
    requires UniqueNodes(nodes) && n < |nodes| && k < |nodes[n].dependsOn|
    requires AdjacencyFilled(nodes, adj, n, k) && nodes[n].dependsOn[k] in adj
    ensures var me, dep := nodes[n].id, nodes[n].dependsOn[k];
            AdjacencyFilled(nodes, adj[dep := adj[dep] + [me]], n, k + 1)
  {
    var me, dep := nodes[n].id, nodes[n].dependsOn[k];
    var adj' := adj[dep := adj[dep] + [me]];
    forall d, i {:trigger CellFilled(nodes, adj'[d], d, i, n, k + 1)} | d in adj' && 0 <= i < |nodes|
      ensures CellFilled(nodes, adj'[d], d, i, n, k + 1)
    {
      assert CellFilled(nodes, adj[d], d, i, n, k);
      CellStep(nodes, adj[d], d, i, n, k);
    }
    assert Members(adj[dep] + [me]) == Members(adj[dep]) + {me};
    assert adj'.Keys == adj.Keys;
  }

  /** The tables after the first `n` nodes and `k` entries of node `n`. */
  function Tables<T(==)>(nodes: seq<Node<T>>, n: nat, k: nat): (t: (map<T, nat>, map<T, seq<T>>))
    requires UniqueNodes(nodes) && Closed(nodes)
    requires n <= |nodes| && (n < |nodes| ==> k <= |nodes[n].dependsOn|) && (n == |nodes| ==> k == 0)
    ensures t.0.Keys == t.1.Keys == Ids(nodes)
    decreases n, k
  {
    if k > 0 then
      var (degrees, adj) := Tables(nodes, n, k - 1);
      var me, dep := nodes[n].id, nodes[n].dependsOn[k - 1];
      (degrees[me := degrees[me] + 1], adj[dep := adj[dep] + [me]])
    else if n > 0 then Tables(nodes, n - 1, |nodes[n - 1].dependsOn|)
    else (Constant(nodes, 0), Constant(nodes, []))
  }

  function Constant<T(==), V>(nodes: seq<Node<T>>, v: V): (m: map<T, V>)
    ensures m.Keys == Ids(nodes)
    ensures forall x :: x in m ==> m[x] == v
  {
    if nodes == [] then map[] else Constant(nodes[1..], v)[nodes[0].id := v]
  }

  ghost predicate InRange<T>(nodes: seq<Node<T>>, n: nat, k: nat) {
    n <= |nodes| && (n < |nodes| ==> k <= |nodes[n].dependsOn|) && (n == |nodes| ==> k == 0)
  }

  /** One step back through the tables. */
  lemma TablesUnfold<T(!new)>(nodes: seq<Node<T>>, n: nat, k: nat)
    requires UniqueNodes(nodes) && Closed(nodes) && InRange(nodes, n, k)
    ensures k > 0 ==>
      && var before := Tables(nodes, n, k - 1);
      && var me, dep := nodes[n].id, nodes[n].dependsOn[k - 1];
      && me in before.0 && dep in before.1
      && Tables(nodes, n, k) == (before.0[me := before.0[me] + 1], before.1[dep := before.1[dep] + [me]])
    ensures k == 0 && n > 0 ==> Tables(nodes, n, k) == Tables(nodes, n - 1, |nodes[n - 1].dependsOn|)
  {
    if k > 0 {
      DependencyKnown(nodes, n, k - 1);
    }
  }

  lemma {:induction false} DegreesTable<T(!new)>(nodes: seq<Node<T>>, n: nat, k: nat)
    requires UniqueNodes(nodes) && Closed(nodes) && InRange(nodes, n, k)
    ensures DegreesFilled(nodes, Tables(nodes, n, k).0, n, k)
    decreases n, k
  {
    hide DegreesFilled, Closed, UniqueNodes, Tables;
    TablesUnfold(nodes, n, k);
    if k > 0 {
      DegreesTable(nodes, n, k - 1);
      DegreesStep(nodes, Tables(nodes, n, k - 1).0, n, k - 1);
    } else if n > 0 {
      DegreesTable(nodes, n - 1, |nodes[n - 1].dependsOn|);
      NextDegrees(nodes, Tables(nodes, n, k).0, n - 1);
    } else {
      NothingRead(nodes);
    }
  }

  lemma NothingRead<T(!new)>(nodes: seq<Node<T>>)
    requires UniqueNodes(nodes) && Closed(nodes)
    ensures DegreesFilled(nodes, Tables(nodes, 0, 0).0, 0, 0)
  {
  }

  lemma NextDegrees<T(!new)>(nodes: seq<Node<T>>, inDegree: map<T, nat>, n: nat)
    requires n < |nodes| && DegreesFilled(nodes, inDegree, n, |nodes[n].dependsOn|)
    ensures DegreesFilled(nodes, inDegree, n + 1, 0)
  {
    forall i | 0 <= i < |nodes|
      ensures |Read(nodes, i, n + 1, 0)| == |Read(nodes, i, n, |nodes[n].dependsOn|)|
    {
    }
  }

  lemma {:induction false} AdjacencyTable<T(!new)>(nodes: seq<Node<T>>, n: nat, k: nat)
    requires UniqueNodes(nodes) && Closed(nodes) && InRange(nodes, n, k)
    ensures AdjacencyFilled(nodes, Tables(nodes, n, k).1, n, k)
    decreases n, k
  {
    hide AdjacencyFilled, Closed, UniqueNodes, Tables;
    TablesUnfold(nodes, n, k);
    if k > 0 {
      AdjacencyTable(nodes, n, k - 1);
      DependencyKnown(nodes, n, k - 1);
      AdjacencyStep(nodes, Tables(nodes, n, k - 1).1, n, k - 1);
    } else if n > 0 {
      AdjacencyTable(nodes, n - 1, |nodes[n - 1].dependsOn|);
      NextNode(nodes, Tables(nodes, n, k).1, n - 1);
    } else {
      NothingListed(nodes);
    }
  }

  lemma NothingListed<T(!new)>(nodes: seq<Node<T>>)
    requires UniqueNodes(nodes) && Closed(nodes)
    ensures AdjacencyFilled(nodes, Tables(nodes, 0, 0).1, 0, 0)
  {
    var adj := Tables(nodes, 0, 0).1;
    forall d, i {:trigger CellFilled(nodes, adj[d], d, i, 0, 0)} | d in adj && 0 <= i < |nodes|
      ensures CellFilled(nodes, adj[d], d, i, 0, 0)
    {
      assert adj[d] == [] && Read(nodes, i, 0, 0) == [];
    }
  }

  lemma NextNode<T(!new)>(nodes: seq<Node<T>>, adj: map<T, seq<T>>, n: nat)
    requires n < |nodes| && AdjacencyFilled(nodes, adj, n, |nodes[n].dependsOn|)
    ensures AdjacencyFilled(nodes, adj, n + 1, 0)
  {
    var all := |nodes[n].dependsOn|;
    assert nodes[n].dependsOn[..all] == nodes[n].dependsOn;
    forall d, i {:trigger CellFilled(nodes, adj[d], d, i, n + 1, 0)} | d in adj && 0 <= i < |nodes|
      ensures CellFilled(nodes, adj[d], d, i, n + 1, 0)
    {
      assert CellFilled(nodes, adj[d], d, i, n, all);
      assert Read(nodes, i, n + 1, 0) == Read(nodes, i, n, all);
    }
  }

  lemma AllRead<T(!new)>(nodes: seq<Node<T>>)
    requires UniqueNodes(nodes) && Closed(nodes)
    ensures DegreesExact(nodes, Tables(nodes, |nodes|, 0).0, {}, [])
    ensures AdjacencyExact(nodes, Tables(nodes, |nodes|, 0).1)
  {
    DegreesTable(nodes, |nodes|, 0);
    AdjacencyTable(nodes, |nodes|, 0);
    var (inDegree, adj) := Tables(nodes, |nodes|, 0);
    forall i | 0 <= i < |nodes|
      ensures inDegree[nodes[i].id] == Pending(nodes[i].dependsOn, {}) + Occurrences([], nodes[i].id)
    {
      PendingOfNone(nodes[i].dependsOn);
      assert Read(nodes, i, |nodes|, 0) == nodes[i].dependsOn;
    }
    forall d, i {:trigger Listed(nodes, adj[d], d, i)} | d in adj && 0 <= i < |nodes|
      ensures Listed(nodes, adj[d], d, i)
    {
      assert CellFilled(nodes, adj[d], d, i, |nodes|, 0);
    }
  }

  lemma DependencyKnown<T>(nodes: seq<Node<T>>, n: nat, k: nat)
    requires Closed(nodes) && n < |nodes| && k < |nodes[n].dependsOn|
    ensures nodes[n].dependsOn[k] in Ids(nodes) && nodes[n].id in Ids(nodes)
  {
  }

  /** Enter one node's dependency list into both tables. */
  method ReadNode<T(==, !new)>(nodes: seq<Node<T>>, n: nat, degrees: map<T, nat>, lists: map<T, seq<T>>)
    returns (inDegree: map<T, nat>, adj: map<T, seq<T>>)
    requires UniqueNodes(nodes) && Closed(nodes) && n < |nodes|
    requires (degrees, lists) == Tables(nodes, n, 0)
    ensures (inDegree, adj) == Tables(nodes, n, |nodes[n].dependsOn|)
  {
    hide UniqueNodes, Closed;
    inDegree, adj := degrees, lists;
    var k := 0;
    while k < |nodes[n].dependsOn|
      invariant 0 <= k <= |nodes[n].dependsOn|
      invariant (inDegree, adj) == Tables(nodes, n, k)
    {
      var me, dep := nodes[n].id, nodes[n].dependsOn[k];
      DependencyKnown(nodes, n, k);
      TableStep(nodes, n, k);
      inDegree := inDegree[me := inDegree[me] + 1];
      adj := adj[dep := adj[dep] + [me]];
      k := k + 1;
    }
  }

  lemma TableStep<T>(nodes: seq<Node<T>>, n: nat, k: nat)
    requires UniqueNodes(nodes) && Closed(nodes) && n < |nodes| && k < |nodes[n].dependsOn|
    ensures nodes[n].id in Ids(nodes) && nodes[n].dependsOn[k] in Ids(nodes)
    ensures var t := Tables(nodes, n, k);
            var me, dep := nodes[n].id, nodes[n].dependsOn[k];
            Tables(nodes, n, k + 1) == (t.0[me := t.0[me] + 1], t.1[dep := t.1[dep] + [me]])
  {
  }

  /** The degree table and adjacency lists, filled node by node and entry by entry. */
  method BuildGraph<T(==, !new)>(nodes: seq<Node<T>>) returns (inDegree: map<T, nat>, adj: map<T, seq<T>>)
    requires UniqueNodes(nodes) && Closed(nodes)
    ensures DegreesExact(nodes, inDegree, {}, [])
    ensures AdjacencyExact(nodes, adj)
  {
    hide DegreesExact, AdjacencyExact, UniqueNodes, Closed;
    inDegree, adj := Constant(nodes, 0), Constant(nodes, []);
    var n := 0;
    while n < |nodes|
      invariant 0 <= n <= |nodes|
      invariant (inDegree, adj) == Tables(nodes, n, 0)
    {
      inDegree, adj := ReadNode(nodes, n, inDegree, adj);
      n := n + 1;
    }
    AllRead(nodes);
  }

  // ----- The queue ----------------------------------------------------------------------

  ghost predicate NoRepeats<T>(xs: seq<T>) {
    forall i, j :: 0 <= i < j < |xs| ==> xs[i] != xs[j]
  }

  /** The queue holds, once each, the nodes waiting on nothing that are not done. */
  ghost predicate QueueExact<T(!new)>(inDegree: map<T, nat>, queue: seq<T>, done: set<T>) {
    && NoRepeats(queue)
    && (forall x :: x in queue <==> x in inDegree && inDegree[x] == 0 && x !in done)
    && (forall x :: x in done ==> x in inDegree && inDegree[x] == 0)
  }

  /** Finishing a node moves its occurrences from pending to owed. */
  lemma StartNode<T(!new)>(nodes: seq<Node<T>>, inDegree: map<T, nat>, adj: map<T, seq<T>>, done: set<T>, cur: T)
    requires DegreesExact(nodes, inDegree, done, []) && AdjacencyExact(nodes, adj)
    requires cur !in done && cur in adj
    ensures DegreesExact(nodes, inDegree, done + {cur}, adj[cur])
  {
    forall i | 0 <= i < |nodes|
      ensures inDegree[nodes[i].id] == Pending(nodes[i].dependsOn, done + {cur}) + Occurrences(adj[cur], nodes[i].id)
    {
      PendingSplits(nodes[i].dependsOn, done, cur);
      assert Listed(nodes, adj[cur], cur, i);
    }
  }

  lemma HandOutOne<T(!new)>(nodes: seq<Node<T>>, inDegree: map<T, nat>, done: set<T>, owed: seq<T>)
    requires UniqueNodes(nodes) && DegreesExact(nodes, inDegree, done, owed)
    requires owed != [] && owed[0] in Ids(nodes)
    ensures inDegree[owed[0]] > 0
    ensures DegreesExact(nodes, inDegree[owed[0] := inDegree[owed[0]] - 1], done, owed[1..])
  {
    assert owed == [owed[0]] + owed[1..];
    var j := IdIndex(nodes, owed[0]);
    forall i | 0 <= i < |nodes|
      ensures Occurrences(owed, nodes[i].id) == Occurrences(owed[1..], nodes[i].id) + if i == j then 1 else 0
    {
    }
  }

  /** Kahn's loop. The order in which nodes are done settles the graph; if the queue
      empties early, the nodes left over are stuck, and so contain a cycle. */
  method FindsCycle<T(==, !new)>(nodes: seq<Node<T>>) returns (cyclic: bool)
    requires UniqueNodes(nodes) && Closed(nodes)
    ensures cyclic <==> Cyclic(GraphOf(nodes))
  {
    var inDegree, adj := BuildGraph(nodes);
    ghost var order: seq<T> := [];
    var queue := Ready(nodes, inDegree);
    var visited := 0;
    assert Members(order) == {};
    while queue != []
      invariant DegreesExact(nodes, inDegree, Members(order), [])
      invariant QueueExact(inDegree, queue, Members(order))
      invariant NoRepeats(order) && visited == |order|
      invariant Settled(GraphOf(nodes), order)
      invariant Members(order) <= Ids(nodes)
      decreases Ids(nodes) - Members(order)
    {
      var cur := queue[0];
      assert cur in queue;
      SettleOne(nodes, inDegree, order, cur);
      StartNode(nodes, inDegree, adj, Members(order), cur);
      assert Members(order + [cur]) == Members(order) + {cur};
      DequeueExact(inDegree, queue, Members(order), cur);
      queue := queue[1..];
      order := order + [cur];
      visited := visited + 1;
      inDegree, queue := HandOut(nodes, inDegree, queue, Members(order), adj[cur]);
    }
    cyclic := visited != |nodes|;
    Conclude(nodes, inDegree, order);
  }

  /** The nodes that start out waiting on nothing, in list order. */
  method Ready<T(==, !new)>(nodes: seq<Node<T>>, inDegree: map<T, nat>) returns (queue: seq<T>)
    requires UniqueNodes(nodes) && inDegree.Keys == Ids(nodes)
    ensures QueueExact(inDegree, queue, {})
  {
    queue := [];
    var i := 0;
    while i < |nodes|
      invariant 0 <= i <= |nodes|
      invariant NoRepeats(queue)
      invariant forall x :: x in queue <==> exists k :: 0 <= k < i && nodes[k].id == x && inDegree[x] == 0
    {
      if inDegree[nodes[i].id] == 0 {
        queue := queue + [nodes[i].id];
      }
      i := i + 1;
    }
    forall x | x in inDegree && inDegree[x] == 0
      ensures x in queue
    {
      var k := IdIndex(nodes, x);
    }
  }

  /** Count down every dependent of a finished node, queueing those that reach zero. */
  method HandOut<T(==, !new)>(nodes: seq<Node<T>>, inDegree: map<T, nat>, queue: seq<T>, ghost done: set<T>, dependents: seq<T>)
    returns (inDegree': map<T, nat>, queue': seq<T>)
    requires UniqueNodes(nodes) && DegreesExact(nodes, inDegree, done, dependents)
    requires QueueExact(inDegree, queue, done)
    requires Members(dependents) <= Ids(nodes)
    ensures DegreesExact(nodes, inDegree', done, [])
    ensures QueueExact(inDegree', queue', done)
  {
    inDegree', queue' := inDegree, queue;
    var i := 0;
    while i < |dependents|
      invariant 0 <= i <= |dependents|
      invariant DegreesExact(nodes, inDegree', done, dependents[i..])
      invariant QueueExact(inDegree', queue', done)
    {
      var next := dependents[i];
      assert next in dependents;
      assert dependents[i..][0] == next && dependents[i..][1..] == dependents[i + 1..];
      HandOutOne(nodes, inDegree', done, dependents[i..]);
      assert next !in queue' && next !in done;
      inDegree' := inDegree'[next := inDegree'[next] - 1];
      if inDegree'[next] == 0 {
        queue' := queue' + [next];
      }
      i := i + 1;
    }
    assert dependents[i..] == [];
  }

  lemma DequeueExact<T(!new)>(inDegree: map<T, nat>, queue: seq<T>, done: set<T>, cur: T)
    requires QueueExact(inDegree, queue, done) && queue != [] && queue[0] == cur
    ensures QueueExact(inDegree, queue[1..], done + {cur})
  {
    var rest := queue[1..];
    assert queue == [cur] + rest;
    assert cur in queue;
    forall x
      ensures x in rest <==> x in queue && x != cur
    {
      if x in rest {
        var k :| 0 <= k < |rest| && rest[k] == x;
        assert queue[k + 1] == x && queue[0] != queue[k + 1];
      }
    }
  }

  lemma SettleOne<T(!new)>(nodes: seq<Node<T>>, inDegree: map<T, nat>, order: seq<T>, cur: T)
    requires UniqueNodes(nodes) && Settled(GraphOf(nodes), order)
    requires DegreesExact(nodes, inDegree, Members(order), [])
    requires cur in inDegree && inDegree[cur] == 0
    ensures Settled(GraphOf(nodes), order + [cur])
  {
    var g, longer := GraphOf(nodes), order + [cur];
    forall i, b | 0 <= i < |longer| && Edge(g, longer[i], b)
      ensures b in longer[..i]
    {
      if i < |order| {
        assert Edge(g, order[i], b);
        assert longer[..i] == order[..i];
      } else {
        EdgeMeaning(nodes, cur, b);
        var k :| 0 <= k < |nodes| && nodes[k].id == cur && b in nodes[k].dependsOn;
        PendingZero(nodes[k].dependsOn, Members(order));
        assert longer[..i] == order;
      }
    }
  }

  lemma {:induction false} DistinctCount<T>(xs: seq<T>)
    requires NoRepeats(xs)
    ensures |Members(xs)| == |xs|
  {
    if xs != [] {
      var front, last := xs[..|xs| - 1], xs[|xs| - 1];
      assert forall i, j :: 0 <= i < j < |front| ==> xs[i] != xs[j];
      DistinctCount(front);
      assert xs == front + [last];
      assert Members(xs) == Members(front) + {last};
      assert last !in front;
    }
  }

  lemma {:induction false} IdsCount<T>(nodes: seq<Node<T>>)
    requires UniqueNodes(nodes)
    ensures |Ids(nodes)| == |nodes|
  {
    if nodes != [] {
      var rest := nodes[1..];
      IdsCount(rest);
      forall x | x in Ids(rest)
        ensures x != nodes[0].id
      {
        var i := IdIndex(rest, x);
        assert rest[i] == nodes[i + 1];
      }
    }
  }

  lemma {:induction false} SubsetCount<T>(a: set<T>, b: set<T>)
    requires a <= b
    ensures |a| <= |b| && (|a| == |b| ==> a == b)
  {
    assert |b| == |a| + |b - a| by { assert b == a + (b - a); }
    if |a| == |b| {
      assert b - a == {};
    }
  }

  lemma EmptyDifference<T>(a: set<T>, b: set<T>)
    requires b <= a && a != b
    ensures a - b != {}
  {
    assert a == b + (a - b);
  }

  /** A node left over when the queue is empty waits on another node left over. */
  lemma LeftoverIsStuck<T(!new)>(nodes: seq<Node<T>>, inDegree: map<T, nat>, done: set<T>, a: T)
    requires UniqueNodes(nodes) && Closed(nodes)
    requires DegreesExact(nodes, inDegree, done, []) && QueueExact(inDegree, [], done)
    requires a in Ids(nodes) && a !in done
    ensures StepsWithin(GraphOf(nodes), Ids(nodes) - done, a)
  {
    assert a !in [];
    var i := IdIndex(nodes, a);
    assert Pending(nodes[i].dependsOn, done) > 0;
    PendingZero(nodes[i].dependsOn, done);
    var b :| b in nodes[i].dependsOn && b !in done;
    assert b in Members(nodes[i].dependsOn);
    EdgeMeaning(nodes, a, b);
  }

  /** With the queue empty: everything done means settled, anything left means stuck. */
  lemma Conclude<T(!new)>(nodes: seq<Node<T>>, inDegree: map<T, nat>, order: seq<T>)
    requires UniqueNodes(nodes) && Closed(nodes)
    requires DegreesExact(nodes, inDegree, Members(order), [])
    requires QueueExact(inDegree, [], Members(order))
    requires NoRepeats(order) && Settled(GraphOf(nodes), order) && Members(order) <= Ids(nodes)
    ensures |order| != |nodes| <==> Cyclic(GraphOf(nodes))
  {
    var g, ids, done := GraphOf(nodes), Ids(nodes), Members(order);
    DistinctCount(order);
    IdsCount(nodes);
    SubsetCount(done, ids);
    forall x
      ensures x in g ==> x in ids
    {
    }
    if |order| == |nodes| {
      forall a | a in g
        ensures a in order
      {
        assert a in done;
      }
      SettledIsAcyclic(g, order);
    } else {
      var left := ids - done;
      EmptyDifference(ids, done);
      forall a | a in left
        ensures StepsWithin(g, left, a)
      {
        LeftoverIsStuck(nodes, inDegree, done, a);
      }
      StuckIsCyclic(g, left);
    }
  }
}
