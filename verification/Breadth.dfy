// Breadth-first reachability: what a queue and a seen set know about distances.
module Breadth {
  import opened Graphs
  import opened Lineages

  /** `n` steps lead from one node to another, and no fewer do. */
  ghost predicate Distance<T(!new)>(g: Graph<T>, a: T, b: T, n: nat) {
    && (exists p :: WalkFrom(g, p, a, b) && |p| == n + 1)
    && forall p :: WalkFrom(g, p, a, b) ==> |p| >= n + 1
  }

  /** A node with its edge from one already seen, one level down. */
  ghost predicate Discovered<T(!new)>(g: Graph<T>, level: map<T, nat>, y: T, n: nat) {
    exists x :: x in level && Edge(g, x, y) && n == level[x] + 1
  }

  ghost predicate Queued<T>(queue: seq<T>, ql: seq<nat>, y: T, n: nat) {
    |queue| == |ql| && exists i :: 0 <= i < |queue| && queue[i] == y && ql[i] <= n
  }

  /** The edge is accounted for: its end is seen in time, or will be. */
  ghost predicate Covered<T(!new)>(level: map<T, nat>, queue: seq<T>, ql: seq<nat>, y: T, n: nat) {
    (y in level && level[y] <= n) || Queued(queue, ql, y, n)
  }

  /** The queue holds two levels at most, in order, none below a seen one. */
  ghost predicate TwoLevels<T(!new)>(level: map<T, nat>, ql: seq<nat>) {
    && (forall i, j :: 0 <= i <= j < |ql| ==> ql[i] <= ql[j] <= ql[i] + 1)
    && (forall x :: x in level && ql != [] ==> level[x] <= ql[0])
  }

  ghost predicate AllDiscovered<T(!new)>(g: Graph<T>, level: map<T, nat>, queue: seq<T>, ql: seq<nat>)
    requires |queue| == |ql|
  {
    forall i :: 0 <= i < |queue| ==> Discovered(g, level, queue[i], ql[i])
  }

  ghost predicate AllCovered<T(!new)>(g: Graph<T>, level: map<T, nat>, queue: seq<T>, ql: seq<nat>) {
    forall x, y :: x in level && Edge(g, x, y) ==> Covered(level, queue, ql, y, level[x] + 1)
  }

  /** What holds between two turns of the search; above all, the levels of seen nodes are
      their distances. */
  ghost predicate Searching<T(!new)>(g: Graph<T>, root: T, level: map<T, nat>, queue: seq<T>, ql: seq<nat>) {
    && |queue| == |ql| && root in level && level[root] == 0
    && TwoLevels(level, ql)
    && AllDiscovered(g, level, queue, ql)
    && AllCovered(g, level, queue, ql)
    && (forall x :: x in level ==> Distance(g, root, x, level[x]))
  }

  ghost function Repeated(n: nat, k: nat): (out: seq<nat>)
    ensures |out| == k && forall i :: 0 <= i < k ==> out[i] == n
  {
    seq(k, _ => n)
  }

  lemma Starts<T(!new)>(g: Graph<T>, root: T, next: seq<T>)
    requires forall y :: y in next <==> Edge(g, root, y)
    ensures Searching(g, root, map[root := 0], next, Repeated(1, |next|))
  {
    var level, ql := map[root := 0 as nat], Repeated(1, |next|);
    assert WalkFrom(g, [root], root, root);
    forall y | Edge(g, root, y)
      ensures Covered(level, next, ql, y, 1)
    {
      var i :| 0 <= i < |next| && next[i] == y;
      assert Queued(next, ql, y, 1);
    }
    forall i | 0 <= i < |next|
      ensures Discovered(g, level, next[i], ql[i])
    {
      assert next[i] in next && root in level && Edge(g, root, next[i]);
    }
  }

  /** Dropping the head of the queue keeps covered what was covered otherwise. */
  lemma StillCovered<T(!new)>(level: map<T, nat>, queue: seq<T>, ql: seq<nat>, y: T, n: nat)
    requires queue != [] && |queue| == |ql| && Covered(level, queue, ql, y, n)
    ensures Covered(level, queue[1..], ql[1..], y, n) || (queue[0] == y && ql[0] <= n)
  {
    if Queued(queue, ql, y, n) {
      var i :| 0 <= i < |queue| && queue[i] == y && ql[i] <= n;
      if i > 0 {
        assert queue[1..][i - 1] == y && ql[1..][i - 1] <= n;
      }
    }
  }

  /** A head that was seen already is dropped. */
  lemma Drops<T(!new)>(g: Graph<T>, root: T, level: map<T, nat>, queue: seq<T>, ql: seq<nat>)
    requires queue != [] && Searching(g, root, level, queue, ql) && queue[0] in level
    ensures Searching(g, root, level, queue[1..], ql[1..])
  {
    hide Distance, Covered;
    forall x, y | x in level && Edge(g, x, y)
      ensures Covered(level, queue[1..], ql[1..], y, level[x] + 1)
    {
      StillCovered(level, queue, ql, y, level[x] + 1);
      if queue[0] == y && ql[0] <= level[x] + 1 {
        SeenIsCovered(level, queue[1..], ql[1..], y, level[x] + 1);
      }
    }
    forall i | 0 <= i < |queue[1..]|
      ensures Discovered(g, level, queue[1..][i], ql[1..][i])
    {
      assert Discovered(g, level, queue[i + 1], ql[i + 1]);
    }
    assert forall x :: x in level && ql[1..] != [] ==> level[x] <= ql[0] <= ql[1..][0];
  }

  lemma SeenIsCovered<T(!new)>(level: map<T, nat>, queue: seq<T>, ql: seq<nat>, y: T, n: nat)
    requires y in level && level[y] <= n
    ensures Covered(level, queue, ql, y, n)
  {
  }

  /** Along any walk from the root, levels keep up until the walk leaves for the queue. */
  lemma {:induction false} WalkKeepsUp<T(!new)>(g: Graph<T>, root: T, level: map<T, nat>, queue: seq<T>, ql: seq<nat>,
                                                p: seq<T>, k: nat)
    requires Searching(g, root, level, queue, ql) && Walk(g, p) && k < |p| && p[0] == root
    ensures (p[k] in level && level[p[k]] <= k) || (ql != [] && ql[0] <= k)
  {
    hide Distance, Discovered;
    if k > 0 {
      WalkKeepsUp(g, root, level, queue, ql, p, k - 1);
      assert Edge(g, p[k - 1], p[k - 1 + 1]);
      if p[k - 1] in level && level[p[k - 1]] <= k - 1 {
        assert Covered(level, queue, ql, p[k], level[p[k - 1]] + 1);
      }
    }
  }

  /** The head of the queue, if new, is exactly as far away as its level says. */
  lemma HeadDistance<T(!new)>(g: Graph<T>, root: T, level: map<T, nat>, queue: seq<T>, ql: seq<nat>)
    requires queue != [] && Searching(g, root, level, queue, ql) && queue[0] !in level
    ensures Distance(g, root, queue[0], ql[0])
  {
    hide Covered;
    var y := queue[0];
    assert Discovered(g, level, queue[0], ql[0]);
    var x :| x in level && Edge(g, x, y) && ql[0] == level[x] + 1;
    var q :| WalkFrom(g, q, root, x) && |q| == level[x] + 1;
    WalkGrows(g, q, y);
    assert WalkFrom(g, q + [y], root, y);
    forall p | WalkFrom(g, p, root, y)
      ensures |p| >= ql[0] + 1
    {
      WalkKeepsUp(g, root, level, queue, ql, p, |p| - 1);
    }
  }

  /** What is queued is within reach. */
  lemma HeadIsReached<T(!new)>(g: Graph<T>, root: T, level: map<T, nat>, queue: seq<T>, ql: seq<nat>)
    requires queue != [] && Searching(g, root, level, queue, ql)
    ensures Reaches(g, root, queue[0])
  {
    hide Covered, TwoLevels, AllCovered;
    var y := queue[0];
    assert Discovered(g, level, queue[0], ql[0]);
    var x :| x in level && Edge(g, x, y);
    assert Distance(g, root, x, level[x]);
    var p :| WalkFrom(g, p, root, x);
    WalkGrows(g, p, y);
    assert WalkFrom(g, p + [y], root, y);
  }

  lemma TakenCovers<T(!new)>(g: Graph<T>, root: T, level: map<T, nat>, queue: seq<T>, ql: seq<nat>, next: seq<T>,
                             x: T, y: T)
    requires queue != [] && Searching(g, root, level, queue, ql) && queue[0] !in level
    requires forall z :: z in next <==> Edge(g, queue[0], z)
    requires x in level[queue[0] := ql[0]] && Edge(g, x, y)
    ensures Covered(level[queue[0] := ql[0]], queue[1..] + next, ql[1..] + Repeated(ql[0] + 1, |next|), y,
                    level[queue[0] := ql[0]][x] + 1)
  {
    hide Distance, Covered, Discovered;
    var h, n := queue[0], ql[0];
    if x == h {
      NextCovers(level[h := n], queue[1..], ql[1..], n, next, y);
    } else {
      StillCovered(level, queue, ql, y, level[x] + 1);
      CoverGrows(level, queue[1..], ql[1..], h, n, next, y, level[x] + 1);
    }
  }

  lemma TakenDiscovers<T(!new)>(g: Graph<T>, root: T, level: map<T, nat>, queue: seq<T>, ql: seq<nat>, next: seq<T>,
                                i: nat)
    requires queue != [] && Searching(g, root, level, queue, ql) && queue[0] !in level
    requires forall z :: z in next <==> Edge(g, queue[0], z)
    requires i < |queue[1..] + next|
    ensures Discovered(g, level[queue[0] := ql[0]], (queue[1..] + next)[i],
                       (ql[1..] + Repeated(ql[0] + 1, |next|))[i])
  {
    hide Distance, Covered, Discovered;
    if i < |queue| - 1 {
      DiscoveredStays(g, level, queue[0], ql[0], queue[i + 1], ql[i + 1]);
    } else {
      assert (queue[1..] + next)[i] in next;
      NewDiscovers(g, level[queue[0] := ql[0]], queue[0], (queue[1..] + next)[i]);
    }
  }

  lemma LevelsShift<T(!new)>(level: map<T, nat>, h: T, ql: seq<nat>, k: nat)
    requires ql != [] && TwoLevels(level, ql)
    ensures TwoLevels(level[h := ql[0]], ql[1..] + Repeated(ql[0] + 1, k))
  {
    var ql' := ql[1..] + Repeated(ql[0] + 1, k);
    forall i, j | 0 <= i <= j < |ql'|
      ensures ql'[i] <= ql'[j] <= ql'[i] + 1
    {
      assert i < |ql| - 1 ==> ql'[i] == ql[i + 1] && ql[0] <= ql[i + 1] <= ql[0] + 1;
      assert j < |ql| - 1 ==> ql'[j] == ql[j + 1] && ql[0] <= ql[j + 1] <= ql[0] + 1;
    }
  }

  /** A new head is seen, and its successors queue up behind. */
  lemma Takes<T(!new)>(g: Graph<T>, root: T, level: map<T, nat>, queue: seq<T>, ql: seq<nat>, next: seq<T>)
    requires queue != [] && Searching(g, root, level, queue, ql) && queue[0] !in level
    requires forall y :: y in next <==> Edge(g, queue[0], y)
    ensures Searching(g, root, level[queue[0] := ql[0]], queue[1..] + next, ql[1..] + Repeated(ql[0] + 1, |next|))
  {
    HeadDistance(g, root, level, queue, ql);
    LevelsShift(level, queue[0], ql, |next|);
    AllTakenCovers(g, root, level, queue, ql, next);
    AllTakenDiscovers(g, root, level, queue, ql, next);
    hide Distance, AllCovered, AllDiscovered, TwoLevels;
  }

  lemma AllTakenCovers<T(!new)>(g: Graph<T>, root: T, level: map<T, nat>, queue: seq<T>, ql: seq<nat>, next: seq<T>)
    requires queue != [] && Searching(g, root, level, queue, ql) && queue[0] !in level
    requires forall y :: y in next <==> Edge(g, queue[0], y)
    ensures AllCovered(g, level[queue[0] := ql[0]], queue[1..] + next, ql[1..] + Repeated(ql[0] + 1, |next|))
  {
    hide Covered, Distance, TwoLevels, AllDiscovered;
    var level', queue' := level[queue[0] := ql[0]], queue[1..] + next;
    forall x, y | x in level' && Edge(g, x, y)
      ensures Covered(level', queue', ql[1..] + Repeated(ql[0] + 1, |next|), y, level'[x] + 1)
    {
      TakenCovers(g, root, level, queue, ql, next, x, y);
    }
  }

  lemma AllTakenDiscovers<T(!new)>(g: Graph<T>, root: T, level: map<T, nat>, queue: seq<T>, ql: seq<nat>, next: seq<T>)
    requires queue != [] && Searching(g, root, level, queue, ql) && queue[0] !in level
    requires forall y :: y in next <==> Edge(g, queue[0], y)
    ensures |queue[1..] + next| == |ql[1..] + Repeated(ql[0] + 1, |next|)|
    ensures AllDiscovered(g, level[queue[0] := ql[0]], queue[1..] + next, ql[1..] + Repeated(ql[0] + 1, |next|))
  {
    hide Discovered;
    var level', queue' := level[queue[0] := ql[0]], queue[1..] + next;
    forall i | 0 <= i < |queue'|
      ensures Discovered(g, level', queue'[i], (ql[1..] + Repeated(ql[0] + 1, |next|))[i])
    {
      TakenDiscovers(g, root, level, queue, ql, next, i);
    }
  }

  lemma NewDiscovers<T(!new)>(g: Graph<T>, level: map<T, nat>, h: T, y: T)
    requires h in level && Edge(g, h, y)
    ensures Discovered(g, level, y, level[h] + 1)
  {
  }

  lemma DiscoveredStays<T(!new)>(g: Graph<T>, level: map<T, nat>, h: T, n: nat, y: T, m: nat)
    requires h !in level && Discovered(g, level, y, m)
    ensures Discovered(g, level[h := n], y, m)
  {
    var x :| x in level && Edge(g, x, y) && m == level[x] + 1;
    assert x in level[h := n];
  }

  lemma NextCovers<T(!new)>(level: map<T, nat>, queue: seq<T>, ql: seq<nat>, n: nat, next: seq<T>, y: T)
    requires |queue| == |ql| && y in next
    ensures Covered(level, queue + next, ql + Repeated(n + 1, |next|), y, n + 1)
  {
    var i :| 0 <= i < |next| && next[i] == y;
    assert (queue + next)[|queue| + i] == y && (ql + Repeated(n + 1, |next|))[|queue| + i] == n + 1;
  }

  lemma CoverGrows<T(!new)>(level: map<T, nat>, queue: seq<T>, ql: seq<nat>, h: T, n: nat, next: seq<T>, y: T, m: nat)
    requires |queue| == |ql| && h !in level && (Covered(level, queue, ql, y, m) || (h == y && n <= m))
    ensures Covered(level[h := n], queue + next, ql + Repeated(n + 1, |next|), y, m)
  {
    if Queued(queue, ql, y, m) {
      var i :| 0 <= i < |queue| && queue[i] == y && ql[i] <= m;
      assert (queue + next)[i] == y && (ql + Repeated(n + 1, |next|))[i] <= m;
    }
  }

  /** An empty queue means that everything within reach is seen. */
  lemma FinishedSearch<T(!new)>(g: Graph<T>, root: T, level: map<T, nat>, x: T)
    requires Searching(g, root, level, [], [])
    ensures x in level <==> Reaches(g, root, x)
  {
    if Reaches(g, root, x) {
      var p :| WalkFrom(g, p, root, x);
      WalkKeepsUp(g, root, level, [], [], p, |p| - 1);
    }
    if x in level {
      assert Distance(g, root, x, level[x]);
    }
  }
}
