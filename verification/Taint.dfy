// Taint, stated without any index or worklist: a record is tainted exactly when some
// chain of Use/Require refs leads from it to a retracted record.
module Taint {
  import opened Records
  import opened LedgerState

  /** Some record of the history called `from` rests directly on `on`. */
  ghost predicate Rests(h: seq<Record>, from: Id, on: Id) {
    exists i :: 0 <= i < |h| && h[i].id == from && RestsOn(h[i], on)
  }

  predicate Retracts(r: Record, id: Id) {
    r.kind == Retraction && r.data.RetractionData? && r.data.targetId == id
  }

  ghost predicate IsRetracted(h: seq<Record>, id: Id) {
    exists i :: 0 <= i < |h| && Retracts(h[i], id)
  }

  /** A non-empty chain of dependence ending in a retracted record. */
  ghost predicate TaintChain(h: seq<Record>, p: seq<Id>) {
    && |p| >= 2
    && (forall i :: 0 <= i < |p| - 1 ==> Rests(h, p[i], p[i + 1]))
    && IsRetracted(h, p[|p| - 1])
  }

  ghost predicate RestsOnRetracted(h: seq<Record>, id: Id) {
    exists p :: TaintChain(h, p) && p[0] == id
  }

  // ----- What every step keeps ------------------------------------------------

  ghost predicate IndexExact(h: seq<Record>, s: State) {
    && (forall t, y :: y in Members(s.dependents, t) <==> Rests(h, y, t))
    && (forall t :: t in s.retracted <==> IsRetracted(h, t))
  }

  ghost predicate Closed(s: State) {
    forall t, y :: Withdrawn(s, t) && y in Members(s.dependents, t) ==> y in s.tainted
  }

  ghost predicate Founded(h: seq<Record>, s: State) {
    forall x :: x in s.tainted ==> RestsOnRetracted(h, x)
  }

  lemma {:induction false} IndexIsExact(h: seq<Record>)
    ensures IndexExact(h, Fold(h))
  {
    if h != [] {
      var g, r := h[..|h| - 1], h[|h| - 1];
      assert h == g + [r];
      IndexIsExact(g);
      forall t, y
        ensures y in Members(Fold(h).dependents, t) <==> Rests(h, y, t)
      {
        DependentsStep(Fold(g), r, t, y);
        RestsGrows(g, r, y, t);
      }
      forall t
        ensures t in Fold(h).retracted <==> IsRetracted(h, t)
      {
        RetractedGrows(g, r, t);
      }
    }
  }

  lemma RestsGrows(g: seq<Record>, r: Record, from: Id, on: Id)
    ensures Rests(g + [r], from, on) <==> Rests(g, from, on) || (r.id == from && on in EpistemicTargets(r))
    ensures |g| >= 0 && (g + [r])[..|g|] == g
  {
    var h := g + [r];
    if Rests(g, from, on) {
      var i :| 0 <= i < |g| && g[i].id == from && RestsOn(g[i], on);
      assert h[i] == g[i];
    }
    if r.id == from && on in EpistemicTargets(r) {
      assert h[|g|] == r;
    }
  }

  lemma RetractedGrows(g: seq<Record>, r: Record, t: Id)
    ensures IsRetracted(g + [r], t) <==> IsRetracted(g, t) || RetractionTarget(r) == Some(t)
  {
    var h := g + [r];
    if IsRetracted(g, t) {
      var i :| 0 <= i < |g| && Retracts(g[i], t);
      assert h[i] == g[i];
    }
    if RetractionTarget(r) == Some(t) {
      assert h[|g|] == r;
    }
  }

  lemma ChainGrows(g: seq<Record>, r: Record, x: Id)
    requires RestsOnRetracted(g, x)
    ensures RestsOnRetracted(g + [r], x)
  {
    var p :| TaintChain(g, p) && p[0] == x;
    forall i | 0 <= i < |p| - 1
      ensures Rests(g + [r], p[i], p[i + 1])
    {
      RestsGrows(g, r, p[i], p[i + 1]);
    }
    RetractedGrows(g, r, p[|p| - 1]);
    assert TaintChain(g + [r], p);
  }

  lemma ChainExtends(h: seq<Record>, x: Id, t: Id)
    requires Rests(h, x, t) && (IsRetracted(h, t) || RestsOnRetracted(h, t))
    ensures RestsOnRetracted(h, x)
  {
    if RestsOnRetracted(h, t) {
      var p :| TaintChain(h, p) && p[0] == t;
      var q := [x] + p;
      forall i | 0 <= i < |q| - 1
        ensures Rests(h, q[i], q[i + 1])
      {
        if i > 0 {
          assert q[i] == p[i - 1] && q[i + 1] == p[i];
          assert Rests(h, p[i - 1], p[i - 1 + 1]);
        }
      }
      assert TaintChain(h, q) && q[0] == x;
    } else {
      assert TaintChain(h, [x, t]) && [x, t][0] == x;
    }
  }

  /** Walking the dependents index forward from a founded record stays founded. */
  lemma SpreadIsFounded(h: seq<Record>, dep: map<Id, set<Id>>, blocked: set<Id>, from: set<Id>, x: Id)
    requires forall t, y :: y in Members(dep, t) <==> Rests(h, y, t)
    requires forall z :: z in from ==> RestsOnRetracted(h, z)
    requires x in Spread(dep, blocked, from)
    ensures RestsOnRetracted(h, x)
  {
    SpreadMember(dep, blocked, from, x);
    var p :| SpreadWalk(dep, blocked, p) && p[0] in from && p[|p| - 1] == x;
    WalkIsFounded(h, dep, blocked, p, |p| - 1);
  }

  lemma {:induction false} WalkIsFounded(h: seq<Record>, dep: map<Id, set<Id>>, blocked: set<Id>, p: seq<Id>, k: nat)
    requires forall t, y :: y in Members(dep, t) <==> Rests(h, y, t)
    requires SpreadWalk(dep, blocked, p) && k < |p|
    requires RestsOnRetracted(h, p[0])
    ensures RestsOnRetracted(h, p[k])
  {
    if k > 0 {
      WalkIsFounded(h, dep, blocked, p, k - 1);
      assert p[k - 1 + 1] in Members(dep, p[k - 1]);
      ChainExtends(h, p[k], p[k - 1]);
    }
  }

  /** A spread added to a tainted set is closed wherever it is new. */
  lemma SpreadCloses(dep: map<Id, set<Id>>, blocked: set<Id>, from: set<Id>, t: Id, y: Id)
    requires t in Spread(dep, blocked, from) && y in Members(dep, t)
    ensures y in blocked + Spread(dep, blocked, from)
  {
    if y !in blocked {
      SpreadStep(dep, blocked, from, t, y);
    }
  }

  lemma SpreadHoldsSources(dep: map<Id, set<Id>>, blocked: set<Id>, from: set<Id>)
    ensures from <= blocked + Spread(dep, blocked, from)
  {
    forall x | x in from && x !in blocked
      ensures x in Spread(dep, blocked, from)
    {
      assert SpreadWalk(dep, blocked, [x]) && [x][0] in from && [x][|[x]| - 1] == x;
    }
  }

  lemma EntryStaysClosed(s: State, r: Record)
    requires Closed(s)
    ensures Closed(Enter(s, r))
  {
    var e := Enter(s, r);
    SpreadHoldsSources(e.dependents, s.tainted, {r.id});
    forall t, y | Withdrawn(e, t) && y in Members(e.dependents, t)
      ensures y in e.tainted
    {
      if t !in s.tainted && t !in s.retracted {
        SpreadCloses(e.dependents, s.tainted, {r.id}, t, y);
      } else if y !in Members(s.dependents, t) {
        assert y == r.id && t in EpistemicTargets(r) && Withdrawn(s, t);
      }
    }
  }

  lemma RetractionStaysClosed(e: State, r: Record)
    requires Closed(e)
    ensures Closed(ApplyKind(e, r))
  {
    var s := ApplyKind(e, r);
    if RetractionTarget(r).Some? {
      var from := Members(e.dependents, RetractionTarget(r).value);
      SpreadHoldsSources(e.dependents, e.tainted, from);
      forall t, y | Withdrawn(s, t) && y in Members(s.dependents, t)
        ensures y in s.tainted
      {
        if t !in e.tainted && t !in e.retracted && t != RetractionTarget(r).value {
          SpreadCloses(e.dependents, e.tainted, from, t, y);
        }
      }
    } else {
      assert s.tainted == e.tainted && s.retracted == e.retracted && s.dependents == e.dependents;
    }
  }

  /** A record resting on something withdrawn rests on something retracted. */
  lemma InheritanceIsFounded(g: seq<Record>, s: State, r: Record, t: Id)
    requires IndexExact(g, s) && Founded(g, s)
    requires t in EpistemicTargets(r) && Withdrawn(s, t)
    ensures RestsOnRetracted(g + [r], r.id)
  {
    RestsGrows(g, r, r.id, t);
    if t in s.retracted {
      RetractedGrows(g, r, t);
    } else {
      ChainGrows(g, r, t);
    }
    ChainExtends(g + [r], r.id, t);
  }

  lemma EntryStaysFounded(g: seq<Record>, s: State, r: Record)
    requires IndexExact(g, s) && Founded(g, s)
    requires forall t, y :: y in Members(Enter(s, r).dependents, t) <==> Rests(g + [r], y, t)
    ensures Founded(g + [r], Enter(s, r))
  {
    var h, e := g + [r], Enter(s, r);
    forall x | x in e.tainted
      ensures RestsOnRetracted(h, x)
    {
      if x in s.tainted {
        ChainGrows(g, r, x);
      } else {
        var t :| t in EpistemicTargets(r) && Withdrawn(s, t);
        InheritanceIsFounded(g, s, r, t);
        SpreadIsFounded(h, e.dependents, s.tainted, {r.id}, x);
      }
    }
  }

  lemma RetractionStaysFounded(g: seq<Record>, e: State, r: Record)
    requires Founded(g + [r], e)
    requires forall t, y :: y in Members(e.dependents, t) <==> Rests(g + [r], y, t)
    ensures Founded(g + [r], ApplyKind(e, r))
  {
    var h, s := g + [r], ApplyKind(e, r);
    if RetractionTarget(r).Some? {
      var target := RetractionTarget(r).value;
      RetractedGrows(g, r, target);
      var from := Members(e.dependents, target);
      forall z | z in from
        ensures RestsOnRetracted(h, z)
      {
        ChainExtends(h, z, target);
      }
      forall x | x in s.tainted
        ensures RestsOnRetracted(h, x)
      {
        if x !in e.tainted {
          SpreadIsFounded(h, e.dependents, e.tainted, from, x);
        }
      }
    } else {
      assert s.tainted == e.tainted;
    }
  }

  /** One more record keeps the index exact and the taint closed and founded. */
  lemma TaintStep(g: seq<Record>, s: State, r: Record)
    requires IndexExact(g, s) && Closed(s) && Founded(g, s)
    ensures Closed(Apply(s, r)) && Founded(g + [r], Apply(s, r))
  {
    hide Closed, Founded, ApplyKind;
    var e := Enter(s, r);
    forall t, y
      ensures y in Members(e.dependents, t) <==> Rests(g + [r], y, t)
    {
      RestsGrows(g, r, y, t);
      assert y in Members(e.dependents, t) <==>
          y in Members(s.dependents, t) || (y == r.id && t in EpistemicTargets(r));
    }
    EntryStaysClosed(s, r);
    RetractionStaysClosed(e, r);
    EntryStaysFounded(g, s, r);
    RetractionStaysFounded(g, e, r);
  }

  lemma {:induction false} TaintIsKept(h: seq<Record>)
    ensures Closed(Fold(h)) && Founded(h, Fold(h))
  {
    hide Apply;
    if h != [] {
      var g, r := h[..|h| - 1], h[|h| - 1];
      TaintIsKept(g);
      IndexIsExact(g);
      assert h == g + [r];
      TaintStep(g, Fold(g), r);
    }
  }

  lemma {:induction false} ChainIsTainted(h: seq<Record>, s: State, p: seq<Id>, k: nat)
    requires IndexExact(h, s) && Closed(s)
    requires TaintChain(h, p) && k < |p| - 1
    ensures p[k] in s.tainted
    decreases |p| - k
  {
    assert Rests(h, p[k], p[k + 1]);
    if k < |p| - 2 {
      ChainIsTainted(h, s, p, k + 1);
    }
    assert Withdrawn(s, p[k + 1]);
  }

  // ----- Main results ---------------------------------------------------------

  /** After any history whatever, the tainted set kept by the worklist and by eager
      inheritance is exactly the set of records resting on something retracted. */
  lemma TaintIsExact(h: seq<Record>, id: Id)
    ensures id in Fold(h).tainted <==> RestsOnRetracted(h, id)
  {
    TaintIsKept(h);
    if RestsOnRetracted(h, id) {
      var p :| TaintChain(h, p) && p[0] == id;
      IndexIsExact(h);
      ChainIsTainted(h, Fold(h), p, 0);
    }
  }

  /** Only which records were accepted matters to taint, not in what order: whether the
      retraction or the dependent came first makes no difference. */
  lemma TaintIgnoresOrder(h: seq<Record>, k: seq<Record>)
    requires forall r :: r in h <==> r in k
    ensures Fold(h).tainted == Fold(k).tainted
  {
    forall id
      ensures id in Fold(h).tainted <==> id in Fold(k).tainted
    {
      TaintIsExact(h, id);
      TaintIsExact(k, id);
      if RestsOnRetracted(h, id) {
        ChainCarries(h, k, id);
      }
      if RestsOnRetracted(k, id) {
        ChainCarries(k, h, id);
      }
    }
  }

  lemma ChainCarries(h: seq<Record>, k: seq<Record>, id: Id)
    requires forall r :: r in h ==> r in k
    requires RestsOnRetracted(h, id)
    ensures RestsOnRetracted(k, id)
  {
    hide Rests, IsRetracted;
    var p :| TaintChain(h, p) && p[0] == id;
    forall i | 0 <= i < |p| - 1
      ensures Rests(k, p[i], p[i + 1])
    {
      RestsCarries(h, k, p[i], p[i + 1]);
    }
    RetractionCarries(h, k, p[|p| - 1]);
    assert TaintChain(k, p);
  }

  lemma RestsCarries(h: seq<Record>, k: seq<Record>, from: Id, on: Id)
    requires (forall r :: r in h ==> r in k) && Rests(h, from, on)
    ensures Rests(k, from, on)
  {
    hide RestsOn;
    var n :| 0 <= n < |h| && h[n].id == from && RestsOn(h[n], on);
    assert h[n] in k;
    var m :| 0 <= m < |k| && k[m] == h[n];
  }

  lemma RetractionCarries(h: seq<Record>, k: seq<Record>, t: Id)
    requires (forall r :: r in h ==> r in k) && IsRetracted(h, t)
    ensures IsRetracted(k, t)
  {
    hide Retracts;
    var n :| 0 <= n < |h| && Retracts(h[n], t);
    assert h[n] in k;
    var m :| 0 <= m < |k| && k[m] == h[n];
  }
}
