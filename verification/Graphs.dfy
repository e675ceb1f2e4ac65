// Finite directed graphs as successor maps: walks, cycles, and when there are none.
module Graphs {

  type Graph<!T(==)> = map<T, set<T>>

  ghost predicate Edge<T>(g: Graph<T>, a: T, b: T) {
    a in g && b in g[a]
  }

  ghost predicate Walk<T>(g: Graph<T>, p: seq<T>) {
    forall i :: 0 <= i < |p| - 1 ==> Edge(g, p[i], p[i + 1])
  }

  ghost predicate IsCycle<T>(g: Graph<T>, p: seq<T>) {
    |p| >= 2 && p[0] == p[|p| - 1] && Walk(g, p)
  }

  ghost predicate Cyclic<T(!new)>(g: Graph<T>) {
    exists p :: IsCycle(g, p)
  }

  lemma WalkSlice<T>(g: Graph<T>, p: seq<T>, i: nat, j: nat)
    requires Walk(g, p) && i <= j <= |p|
    ensures Walk(g, p[i..j])
  {
    forall k | 0 <= k < |p[i..j]| - 1
      ensures Edge(g, p[i..j][k], p[i..j][k + 1])
    {
      assert Edge(g, p[i + k], p[i + k + 1]);
    }
  }

  /** Two walks meeting at a node are one walk. */
  lemma WalkJoins<T>(g: Graph<T>, p: seq<T>, q: seq<T>)
    requires Walk(g, p) && Walk(g, q) && p != [] && q != [] && p[|p| - 1] == q[0]
    ensures Walk(g, p + q[1..])
  {
    var r := p + q[1..];
    forall i | 0 <= i < |r| - 1
      ensures Edge(g, r[i], r[i + 1])
    {
      if i < |p| - 1 {
        assert Edge(g, p[i], p[i + 1]);
      } else {
        var k := i - |p| + 1;
        assert r[i] == q[k] && r[i + 1] == q[k + 1];
        assert Edge(g, q[k], q[k + 1]);
      }
    }
  }

  lemma WalkGrows<T>(g: Graph<T>, p: seq<T>, b: T)
    requires Walk(g, p) && p != [] && Edge(g, p[|p| - 1], b)
    ensures Walk(g, p + [b])
  {
    assert Walk(g, [p[|p| - 1], b]);
    WalkJoins(g, p, [p[|p| - 1], b]);
    assert [p[|p| - 1], b][1..] == [b];
  }

  // ----- Acyclicity by order ------------------------------------------------------

  /** Listed so that every node comes after all its successors. */
  ghost predicate Settled<T(!new)>(g: Graph<T>, order: seq<T>) {
    forall i, b :: 0 <= i < |order| && Edge(g, order[i], b) ==> b in order[..i]
  }

  lemma {:induction false} SettledDescends<T(!new)>(g: Graph<T>, order: seq<T>, p: seq<T>, k: nat) returns (n: nat)
    requires Settled(g, order) && Walk(g, p) && k < |p| && p[0] in order
    ensures n + k < |order| && order[n] == p[k]
  {
    if k == 0 {
      n :| 0 <= n < |order| && order[n] == p[0];
    } else {
      var m := SettledDescends(g, order, p, k - 1);
      assert Edge(g, p[k - 1], p[k - 1 + 1]);
      assert p[k] in order[..m];
      n :| 0 <= n < m && order[n] == p[k];
    }
  }

  lemma {:induction false} Unrolled<T>(g: Graph<T>, p: seq<T>, n: nat) returns (q: seq<T>)
    requires IsCycle(g, p)
    ensures Walk(g, q) && |q| > n && q[0] == p[0] && q[|q| - 1] == p[0]
  {
    if n == 0 {
      q := p;
    } else {
      var r := Unrolled(g, p, n - 1);
      WalkJoins(g, r, p);
      q := r + p[1..];
    }
  }

  /** A node on a cycle is never settled: unroll the cycle until the order runs out. */
  lemma SettledIsAcyclic<T(!new)>(g: Graph<T>, order: seq<T>)
    requires Settled(g, order)
    requires forall a :: a in g ==> a in order
    ensures !Cyclic(g)
  {
    if Cyclic(g) {
      var p :| IsCycle(g, p);
      assert Edge(g, p[0], p[0 + 1]);
      var q := Unrolled(g, p, |order|);
      var n := SettledDescends(g, order, q, |order|);
    }
  }

  // ----- Cycles by pigeonhole -------------------------------------------------------

  ghost predicate StepsWithin<T(!new)>(g: Graph<T>, stuck: set<T>, a: T) {
    exists b :: b in stuck && Edge(g, a, b)
  }

  ghost predicate Stuck<T(!new)>(g: Graph<T>, stuck: set<T>) {
    stuck != {} && forall a :: a in stuck ==> StepsWithin(g, stuck, a)
  }

  lemma {:induction false} LongWalk<T(!new)>(g: Graph<T>, stuck: set<T>, n: nat) returns (p: seq<T>)
    requires Stuck(g, stuck) && n > 0
    ensures Walk(g, p) && |p| == n && forall i :: 0 <= i < |p| ==> p[i] in stuck
  {
    if n == 1 {
      var a :| a in stuck;
      p := [a];
    } else {
      var q := LongWalk(g, stuck, n - 1);
      var last := q[|q| - 1];
      assert StepsWithin(g, stuck, last);
      var b :| b in stuck && Edge(g, last, b);
      WalkGrows(g, q, b);
      p := q + [b];
    }
  }

  /** Pigeonhole: more positions than members, so some member repeats. */
  lemma {:induction false} Repeats<T>(p: seq<T>, s: set<T>) returns (i: nat, j: nat)
    requires |p| > |s| && forall k :: 0 <= k < |p| ==> p[k] in s
    ensures i < j < |p| && p[i] == p[j]
    decreases |p|
  {
    var last := p[|p| - 1];
    if k :| 0 <= k < |p| - 1 && p[k] == last {
      i, j := k, |p| - 1;
    } else {
      i, j := Repeats(p[..|p| - 1], s - {last});
    }
  }

  /** If every node of a non-empty finite set steps within it, there is a cycle. */
  lemma StuckIsCyclic<T(!new)>(g: Graph<T>, stuck: set<T>)
    requires Stuck(g, stuck)
    ensures Cyclic(g)
  {
    var p := LongWalk(g, stuck, |stuck| + 1);
    var i, j := Repeats(p, stuck);
    WalkSlice(g, p, i, j + 1);
    assert IsCycle(g, p[i..j + 1]);
  }
}
