// Standing: the explicit-stack walk over the candidate graph, the recursive definition it
// replaces, and the closed form both compute.
module Standing {
  import opened Records
  import opened LedgerState
  import opened Graphs
  import opened Lineages

  /** The derived section of a replay report. */
  datatype Section = Section(compromised: set<Id>, unsound: set<Id>, restorations: map<Id, set<Id>>)

  // ----- Closed form ------------------------------------------------------------------------

  /** A sound selection whose Replace chain leads to this one. */
  ghost predicate Restores(l: Lineage, heir: Id, s: Id) {
    heir in l.sels && !Unsound(l, heir) && StrictlyReaches(Chains(l.sels), heir, s)
  }

  /** An anchor stands, or something sound that replaces it selected the parent again. */
  ghost predicate AnchorSound(l: Lineage, anchor: Id, parent: Id) {
    !Unsound(l, anchor) || exists heir :: Restores(l, heir, anchor) && parent in l.sels[heir].selected
  }

  /** What a candidate's standing asks of the candidate itself. */
  ghost predicate SelfSound(l: Lineage, c: Id)
    requires c in l.cands
  {
    var info := l.cands[c];
    && c !in l.retracted
    && (info.basis.Continuation? ==>
          && info.causes != [] && info.parent.Some? && info.parent.value in l.cands
          && AnchorSound(l, info.causes[0], info.parent.value))
  }

  /** Everything in the lineage cone stands. */
  ghost predicate LineSound(l: Lineage, c: Id) {
    c in l.cands && forall x :: x in l.cands && Reaches(Lines(l.cands), c, x) ==> SelfSound(l, x)
  }

  ghost function StandingOf(l: Lineage): Section {
    Section(
      set c | c in l.cands && !LineSound(l, c),
      set s | s in l.sels && Unsound(l, s),
      map s | s in l.sels && Unsound(l, s) && (exists heir :: Restores(l, heir, s)) ::
        set heir | heir in l.sels && Restores(l, heir, s))
  }

  // ----- The recursive definition ---------------------------------------------------------------

  /** The recursion that a candidate's standing is usually written as. */
  ghost predicate StandingSound(l: Lineage, rank: Id -> nat, c: Id)
    requires Descending(Lines(l.cands), rank) && c in l.cands
    decreases rank(c)
  {
    var info := l.cands[c];
    c !in l.retracted
    && match info.basis
       case Root => true
       case Continuation =>
         && info.causes != [] && info.parent.Some?
         && AnchorSound(l, info.causes[0], info.parent.value)
         && info.parent.value in l.cands
         && (StepsDown(l, rank, c, info.parent.value); StandingSound(l, rank, info.parent.value))
       case Derivation =>
         forall t | t in info.causes && t in l.cands ::
           (StepsDown(l, rank, c, t); StandingSound(l, rank, t))
  }

  lemma StepsDown(l: Lineage, rank: Id -> nat, c: Id, d: Id)
    requires Descending(Lines(l.cands), rank) && c in l.cands
    ensures d in Deps(l.cands, c) && d in l.cands ==> Edge(Lines(l.cands), c, d) && rank(d) < rank(c)
  {
    if d in Deps(l.cands, c) && d in l.cands {
      assert Edge(Lines(l.cands), c, d);
    }
  }

  lemma OneStep(l: Lineage, rank: Id -> nat, c: Id)
    requires Descending(Lines(l.cands), rank) && c in l.cands
    ensures StandingSound(l, rank, c) <==>
              SelfSound(l, c) && forall d :: d in Deps(l.cands, c) && d in l.cands ==> StandingSound(l, rank, d)
  {
    var info := l.cands[c];
    if info.basis.Continuation? && info.parent.Some? {
      assert info.parent.value in Deps(l.cands, c);
    }
  }

  /** The recursion is the closed form: sound exactly when no candidate in the cone is
      retracted and every continuation in it has a sound or restored anchor. */
  lemma {:induction false} RecursionIsClosedForm(l: Lineage, rank: Id -> nat, c: Id)
    requires Descending(Lines(l.cands), rank) && c in l.cands
    ensures StandingSound(l, rank, c) <==> LineSound(l, c)
    decreases rank(c)
  {
    hide StandingSound, SelfSound;
    var g := Lines(l.cands);
    OneStep(l, rank, c);
    ReachesSelf(g, c);
    forall d | d in Deps(l.cands, c) && d in l.cands
      ensures StandingSound(l, rank, d) <==> LineSound(l, d)
      ensures LineSound(l, c) ==> LineSound(l, d)
    {
      StepsDown(l, rank, c, d);
      RecursionIsClosedForm(l, rank, d);
      forall x | Reaches(g, d, x)
        ensures Reaches(g, c, x)
      {
        StepThenReach(g, c, d, x);
      }
    }
    if StandingSound(l, rank, c) {
      forall x | x in l.cands && Reaches(g, c, x)
        ensures SelfSound(l, x)
      {
        if x != c {
          var d := FirstStep(g, c, x);
          assert d in Deps(l.cands, c) && LineSound(l, d);
        }
      }
    }
  }

  /** One step of the closed form. */
  lemma LineStep(l: Lineage, rank: Id -> nat, c: Id)
    requires Descending(Lines(l.cands), rank) && c in l.cands
    ensures LineSound(l, c) <==> SelfSound(l, c) && forall d :: d in Deps(l.cands, c) && d in l.cands ==> LineSound(l, d)
  {
    hide StandingSound, LineSound, SelfSound;
    OneStep(l, rank, c);
    RecursionIsClosedForm(l, rank, c);
    forall d | d in Deps(l.cands, c) && d in l.cands
      ensures StandingSound(l, rank, d) <==> LineSound(l, d)
    {
      RecursionIsClosedForm(l, rank, d);
    }
  }

  // ----- Replacers: every Replace chain, walked once -----------------------------------------------

  function NextHop(l: Lineage, s: Id): Option<Id> {
    if s in l.sels then l.sels[s].replaceTarget else None
  }

  ghost predicate NoEmptyEntry(m: map<Id, set<Id>>) {
    forall a :: a in m ==> m[a] != {}
  }

  /** Who restores whom, for the selections walked so far. */
  ghost predicate ReplacersExact(l: Lineage, walked: set<Id>, replacers: map<Id, set<Id>>) {
    && NoEmptyEntry(replacers)
    && forall a, heir :: heir in Members(replacers, a) <==> heir in walked && Restores(l, heir, a)
  }

  /** A chain takes each selection at most once, so the defensive bound is never passed. */
  lemma ChainFits(l: Lineage, rank: Id -> nat, p: seq<Id>)
    requires Descending(Chains(l.sels), rank) && Walk(Chains(l.sels), p) && p != []
    ensures |p| - 1 <= |l.sels|
  {
    var front := p[..|p| - 1];
    forall k | 0 <= k < |front|
      ensures front[k] in l.sels.Keys
    {
      assert Edge(Chains(l.sels), p[k], p[k + 1]);
    }
    if |front| > |l.sels.Keys| {
      var i, j := Repeats(front, l.sels.Keys);
      WalkDescends(Chains(l.sels), rank, p, i, j);
    }
  }

  /** There is one chain: a walk from its start is a prefix of it. */
  lemma {:induction false} ChainIsUnique(l: Lineage, p: seq<Id>, q: seq<Id>)
    requires Walk(Chains(l.sels), p) && Walk(Chains(l.sels), q) && p != [] && q != [] && p[0] == q[0]
    requires NextHop(l, p[|p| - 1]).None?
    ensures |q| <= |p| && q == p[..|q|]
    decreases |q|
  {
    if |q| > 1 {
      var n := |q| - 1;
      WalkSlice(Chains(l.sels), q, 0, n);
      ChainIsUnique(l, p, q[0..n]);
      assert q[n - 1] == q[0..n][n - 1] == p[n - 1];
      assert Edge(Chains(l.sels), q[n - 1], q[n - 1 + 1]);
      assert n < |p|;
      assert Edge(Chains(l.sels), p[n - 1], p[n - 1 + 1]);
      assert q == q[0..n] + [q[n]];
    }
  }

  /** The selection was added to exactly what its chain has passed so far. */
  ghost predicate Passed(before: map<Id, set<Id>>, now: map<Id, set<Id>>, p: seq<Id>, s2: Id)
    requires p != []
  {
    forall a, x :: x in Members(now, a) <==> x in Members(before, a) || (x == s2 && a in p[1..])
  }

  lemma OneMoreHop(before: map<Id, set<Id>>, now: map<Id, set<Id>>, p: seq<Id>, s2: Id, ancestor: Id)
    requires p != [] && Passed(before, now, p, s2) && NoEmptyEntry(now)
    ensures var after := now[ancestor := Members(now, ancestor) + {s2}];
            Passed(before, after, p + [ancestor], s2) && NoEmptyEntry(after)
  {
    var after := now[ancestor := Members(now, ancestor) + {s2}];
    assert (p + [ancestor])[1..] == p[1..] + [ancestor];
    forall a, x
      ensures x in Members(after, a) <==> x in Members(before, a) || (x == s2 && a in (p + [ancestor])[1..])
    {
      assert x in Members(after, a) <==> x in Members(now, a) || (a == ancestor && x == s2);
      assert x in Members(now, a) <==> x in Members(before, a) || (x == s2 && a in p[1..]);
    }
  }

  method WalkChain(l: Lineage, s2: Id, before: map<Id, set<Id>>, ghost rank: Id -> nat)
    returns (replacers: map<Id, set<Id>>)
    requires Descending(Chains(l.sels), rank) && s2 in l.sels && NoEmptyEntry(before)
    ensures NoEmptyEntry(replacers)
    ensures forall a, x :: x in Members(replacers, a) <==>
              x in Members(before, a) || (x == s2 && StrictlyReaches(Chains(l.sels), s2, a))
  {
    hide Descending, NoEmptyEntry;
    replacers := before;
    var hop := l.sels[s2].replaceTarget;
    var guard := 0;
    ghost var p := [s2];
    while hop.Some?
      invariant Walk(Chains(l.sels), p) && |p| == guard + 1 && p[0] == s2
      invariant hop == NextHop(l, p[guard])
      invariant NoEmptyEntry(replacers) && Passed(before, replacers, p, s2)
      invariant guard <= |l.sels|
      decreases |l.sels| - guard
    {
      var ancestor := hop.value;
      assert Edge(Chains(l.sels), p[guard], ancestor);
      WalkGrows(Chains(l.sels), p, ancestor);
      ChainFits(l, rank, p + [ancestor]);
      OneMoreHop(before, replacers, p, s2, ancestor);
      replacers := replacers[ancestor := Members(replacers, ancestor) + {s2}];
      hop := NextHop(l, ancestor);
      guard := guard + 1;
      p := p + [ancestor];
      if guard > |l.sels| {
        break;
      }
    }
    forall a
      ensures a in p[1..] <==> StrictlyReaches(Chains(l.sels), s2, a)
    {
      ChainReaches(l, p, a);
    }
  }

  /** What a finished chain passed is what its start leads to. */
  lemma ChainReaches(l: Lineage, p: seq<Id>, a: Id)
    requires Walk(Chains(l.sels), p) && p != [] && NextHop(l, p[|p| - 1]).None?
    ensures a in p[1..] <==> StrictlyReaches(Chains(l.sels), p[0], a)
  {
    if a in p[1..] {
      var i :| 1 <= i < |p| && p[i] == a;
      WalkSlice(Chains(l.sels), p, 0, i + 1);
      assert WalkFrom(Chains(l.sels), p[0..i + 1], p[0], a);
    }
    if StrictlyReaches(Chains(l.sels), p[0], a) {
      var q :| WalkFrom(Chains(l.sels), q, p[0], a) && |q| >= 2;
      ChainIsUnique(l, p, q);
      assert a == p[1..][|q| - 2];
    }
  }

  method FindReplacers(l: Lineage, ghost rank: Id -> nat) returns (replacers: map<Id, set<Id>>)
    requires Descending(Chains(l.sels), rank)
    ensures ReplacersExact(l, l.sels.Keys, replacers)
  {
    hide Descending, StrictlyReaches;
    replacers := map[];
    var todo := l.sels.Keys;
    while todo != {}
      invariant todo <= l.sels.Keys && ReplacersExact(l, l.sels.Keys - todo, replacers)
      decreases todo
    {
      var s2 :| s2 in todo;
      ghost var before, walked := replacers, l.sels.Keys - todo;
      if !Unsound(l, s2) {
        replacers := WalkChain(l, s2, replacers, rank);
      }
      todo := todo - {s2};
      OneMoreWalked(l, walked, before, s2, replacers);
      assert l.sels.Keys - todo == walked + {s2};
    }
    assert l.sels.Keys - todo == l.sels.Keys;
  }

  lemma OneMoreWalked(l: Lineage, walked: set<Id>, before: map<Id, set<Id>>, s2: Id, after: map<Id, set<Id>>)
    requires ReplacersExact(l, walked, before) && s2 in l.sels && NoEmptyEntry(after)
    requires forall a, x :: x in Members(after, a) <==>
               x in Members(before, a) || (x == s2 && !Unsound(l, s2) && StrictlyReaches(Chains(l.sels), s2, a))
    ensures ReplacersExact(l, walked + {s2}, after)
  {
    hide StrictlyReaches, Chains;
  }

  // ----- The candidate walk, with an explicit stack --------------------------------------------------

  type Frame = (Id, bool)

  ghost predicate Pending(stack: seq<Frame>, x: Id) {
    exists i :: 0 <= i < |stack| && stack[i].0 == x
  }

  ghost predicate Resolved(l: Lineage, sound: map<Id, bool>) {
    forall x :: x in sound ==> x in l.cands && (sound[x] <==> LineSound(l, x))
  }

  /** A candidate waiting for its dependencies has each resolved or above it on the
      stack, and only candidates of lower rank above it. */
  ghost predicate Waits(l: Lineage, rank: Id -> nat, sound: map<Id, bool>, stack: seq<Frame>, i: nat)
    requires i < |stack| && stack[i].0 in l.cands
  {
    && (forall d :: d in Deps(l.cands, stack[i].0) && d in l.cands ==> d in sound || Pending(stack[i + 1..], d))
    && forall x :: Pending(stack[i + 1..], x) ==> rank(x) < rank(stack[i].0)
  }

  ghost predicate Walking(l: Lineage, rank: Id -> nat, sound: map<Id, bool>, stack: seq<Frame>, expanded: set<Id>) {
    && Resolved(l, sound)
    && (forall i :: 0 <= i < |stack| ==> stack[i].0 in l.cands)
    && (forall i :: 0 <= i < |stack| && stack[i].1 ==> Waits(l, rank, sound, stack, i))
    && expanded <= l.cands.Keys
    && (forall x :: x in expanded ==> x in sound || (x, true) in stack)
  }

  function Unresolved(l: Lineage, sound: map<Id, bool>, deps: seq<Id>): (out: seq<Id>)
    ensures forall d :: d in out <==> d in deps && d !in sound && d in l.cands
  {
    if deps == [] then []
    else
      assert deps == [deps[0]] + deps[1..];
      (if deps[0] !in sound && deps[0] in l.cands then [deps[0]] else []) + Unresolved(l, sound, deps[1..])
  }

  function Frames(ids: seq<Id>): (out: seq<Frame>)
    ensures |out| == |ids| && forall i :: 0 <= i < |ids| ==> out[i] == (ids[i], false)
  {
    seq(|ids|, i requires 0 <= i < |ids| => (ids[i], false))
  }

  function DepSound(sound: map<Id, bool>, d: Id): bool {
    d in sound && sound[d]
  }

  predicate AnchorStands(l: Lineage, replacers: map<Id, set<Id>>, anchor: Id, parent: Id) {
    !Unsound(l, anchor)
    || exists heir :: heir in Members(replacers, anchor) && heir in l.sels && parent in l.sels[heir].selected
  }

  /** A candidate's standing from that of its dependencies. */
  predicate Evaluate(l: Lineage, replacers: map<Id, set<Id>>, sound: map<Id, bool>, id: Id)
    requires id in l.cands
  {
    var info := l.cands[id];
    match info.basis
    case Root => true
    case Continuation =>
      && info.causes != [] && info.parent.Some?
      && AnchorStands(l, replacers, info.causes[0], info.parent.value)
      && DepSound(sound, info.parent.value)
    case Derivation => forall d :: d in Deps(l.cands, id) ==> DepSound(sound, d)
  }

  lemma EvaluatesRightly(l: Lineage, rank: Id -> nat, replacers: map<Id, set<Id>>, sound: map<Id, bool>, id: Id)
    requires Descending(Lines(l.cands), rank) && ReplacersExact(l, l.sels.Keys, replacers) && Resolved(l, sound)
    requires id in l.cands && id !in l.retracted
    requires forall d :: d in Deps(l.cands, id) && d in l.cands ==> d in sound
    ensures Evaluate(l, replacers, sound, id) <==> LineSound(l, id)
  {
    LineStep(l, rank, id);
    hide LineSound, Restores, Descending;
    var info := l.cands[id];
    if info.basis.Continuation? && info.causes != [] && info.parent.Some? {
      var anchor, parent := info.causes[0], info.parent.value;
      assert parent in Deps(l.cands, id);
      assert AnchorStands(l, replacers, anchor, parent) <==> AnchorSound(l, anchor, parent) by {
        if AnchorSound(l, anchor, parent) && Unsound(l, anchor) {
          var heir :| Restores(l, heir, anchor) && heir in l.sels && parent in l.sels[heir].selected;
          assert heir in Members(replacers, anchor);
        }
      }
    }
  }

  /** Taking a resolved candidate off the stack. */
  lemma PopResolved(l: Lineage, rank: Id -> nat, sound: map<Id, bool>, after: map<Id, bool>, stack: seq<Frame>,
                    expanded: set<Id>)
    requires stack != [] && Walking(l, rank, sound, stack, expanded)
    requires sound.Keys <= after.Keys && Resolved(l, after) && stack[|stack| - 1].0 in after
    ensures Walking(l, rank, after, stack[..|stack| - 1], expanded)
  {
    hide Resolved, Deps;
    var n := |stack| - 1;
    var rest := stack[..n];
    forall i | 0 <= i < n && rest[i].1
      ensures Waits(l, rank, after, rest, i)
    {
      assert Waits(l, rank, sound, stack, i);
      var above, left := stack[i + 1..], rest[i + 1..];
      assert above == left + [stack[n]];
      forall x
        ensures Pending(above, x) <==> Pending(left, x) || x == stack[n].0
      {
        PendingSplits(left, [stack[n]], x);
      }
    }
  }

  lemma PendingSplits(a: seq<Frame>, b: seq<Frame>, x: Id)
    ensures Pending(a + b, x) <==> Pending(a, x) || Pending(b, x)
    ensures |b| == 1 ==> (Pending(b, x) <==> x == b[0].0)
  {
    if Pending(a, x) {
      var i :| 0 <= i < |a| && a[i].0 == x;
      assert (a + b)[i].0 == x;
    }
    if Pending(b, x) {
      var i :| 0 <= i < |b| && b[i].0 == x;
      assert (a + b)[|a| + i].0 == x;
    }
  }

  /** A frame about to be expanded is not waiting below: no candidate is expanded twice. */
  lemma NotExpandedYet(l: Lineage, rank: Id -> nat, sound: map<Id, bool>, stack: seq<Frame>, expanded: set<Id>)
    requires stack != [] && Walking(l, rank, sound, stack, expanded)
    requires !stack[|stack| - 1].1 && stack[|stack| - 1].0 !in sound
    ensures stack[|stack| - 1].0 !in expanded
  {
    hide Resolved, Deps;
    var n := |stack| - 1;
    forall i | 0 <= i < |stack| && stack[i].1
      ensures stack[i].0 != stack[n].0
    {
      assert i != n;
      TopIsPending(stack, i);
      assert Waits(l, rank, sound, stack, i);
      assert rank(stack[n].0) < rank(stack[i].0);
    }
    assert forall x :: (x, true) in stack ==> exists i :: 0 <= i < |stack| && stack[i] == (x, true);
  }

  lemma TopIsPending(stack: seq<Frame>, i: nat)
    requires i < |stack| - 1
    ensures Pending(stack[i + 1..], stack[|stack| - 1].0)
  {
    assert stack[i + 1..][|stack| - i - 2] == stack[|stack| - 1];
  }

  function Expansion(stack: seq<Frame>, unresolved: seq<Id>): (grown: seq<Frame>)
    requires stack != []
    ensures |grown| == |stack| + |unresolved|
  {
    stack[..|stack| - 1] + [(stack[|stack| - 1].0, true)] + Frames(unresolved)
  }

  /** Putting a candidate back with its unresolved dependencies above it. */
  lemma Expands(l: Lineage, rank: Id -> nat, sound: map<Id, bool>, stack: seq<Frame>, expanded: set<Id>)
    requires Descending(Lines(l.cands), rank)
    requires stack != [] && Walking(l, rank, sound, stack, expanded)
    requires !stack[|stack| - 1].1
    ensures var id := stack[|stack| - 1].0;
            Walking(l, rank, sound, Expansion(stack, Unresolved(l, sound, Deps(l.cands, id))), expanded + {id})
  {
    hide Resolved, Deps, Descending, Waits, Unresolved;
    var n := |stack| - 1;
    var id := stack[n].0;
    var grown := Expansion(stack, Unresolved(l, sound, Deps(l.cands, id)));
    forall i | 0 <= i < |grown| && grown[i].1
      ensures Waits(l, rank, sound, grown, i)
    {
      ExpandedWaits(l, rank, sound, stack, i);
    }
    assert grown[n] == (id, true);
    forall x | x in expanded && x !in sound
      ensures (x, true) in grown
    {
      StillOnStack(stack, grown, x);
    }
  }

  lemma StillOnStack(stack: seq<Frame>, grown: seq<Frame>, x: Id)
    requires stack != [] && !stack[|stack| - 1].1 && (x, true) in stack
    requires stack[..|stack| - 1] <= grown
    ensures (x, true) in grown
  {
    var i :| 0 <= i < |stack| && stack[i] == (x, true);
    assert grown[i] == stack[..|stack| - 1][i];
  }

  lemma FramesPend(ids: seq<Id>, x: Id)
    ensures Pending(Frames(ids), x) <==> x in ids
  {
    if x in ids {
      var k :| 0 <= k < |ids| && ids[k] == x;
      assert Frames(ids)[k].0 == x;
    }
  }

  /** What the expansion puts on top: the unresolved dependencies, all of lower rank. */
  lemma TopPends(l: Lineage, rank: Id -> nat, sound: map<Id, bool>, id: Id, x: Id)
    requires Descending(Lines(l.cands), rank) && id in l.cands
    ensures var unresolved := Unresolved(l, sound, Deps(l.cands, id));
            && (Pending(Frames(unresolved), x) <==> x in unresolved)
            && (x in unresolved ==> rank(x) < rank(id))
  {
    hide Deps, Descending, Pending, Frames;
    StepsDown(l, rank, id, x);
    FramesPend(Unresolved(l, sound, Deps(l.cands, id)), x);
  }

  /** What pends above a frame below the top: as before, and the new frames. */
  lemma AbovePends(stack: seq<Frame>, unresolved: seq<Id>, i: nat, x: Id)
    requires i < |stack| - 1
    ensures var grown := Expansion(stack, unresolved);
            && grown[i] == stack[i]
            && (Pending(grown[i + 1..], x) <==> Pending(stack[i + 1..], x) || Pending(Frames(unresolved), x))
            && (x == stack[|stack| - 1].0 ==> Pending(stack[i + 1..], x))
  {
    hide Pending;
    var n, new_ := |stack| - 1, Frames(unresolved);
    var top := (stack[n].0, true);
    assert Expansion(stack, unresolved)[i + 1..] == stack[i + 1..n] + [top] + new_;
    assert stack[i + 1..] == stack[i + 1..n] + [stack[n]];
    PendingSplits(stack[i + 1..n] + [top], new_, x);
    PendingSplits(stack[i + 1..n], [top], x);
    PendingSplits(stack[i + 1..n], [stack[n]], x);
  }

  /** The candidate put back waits for its unresolved dependencies, just above it. */
  lemma TopWaits(l: Lineage, rank: Id -> nat, sound: map<Id, bool>, stack: seq<Frame>)
    requires Descending(Lines(l.cands), rank) && stack != [] && stack[|stack| - 1].0 in l.cands
    ensures var n := |stack| - 1;
            var grown := Expansion(stack, Unresolved(l, sound, Deps(l.cands, stack[n].0)));
            grown[n] == (stack[n].0, true) && Waits(l, rank, sound, grown, n)
  {
    var n := |stack| - 1;
    var unresolved := Unresolved(l, sound, Deps(l.cands, stack[n].0));
    assert Expansion(stack, unresolved)[n + 1..] == Frames(unresolved);
    hide Deps, Descending, Pending, Frames;
    forall x
      ensures Pending(Frames(unresolved), x) <==> x in unresolved
      ensures x in unresolved ==> rank(x) < rank(stack[n].0)
    {
      TopPends(l, rank, sound, stack[n].0, x);
    }
  }

  /** A frame that waited still waits: what is new above it ranks below what was there. */
  lemma BelowWaits(l: Lineage, rank: Id -> nat, sound: map<Id, bool>, stack: seq<Frame>, i: nat)
    requires Descending(Lines(l.cands), rank) && i < |stack| - 1
    requires stack[i].0 in l.cands && stack[|stack| - 1].0 in l.cands && Waits(l, rank, sound, stack, i)
    ensures var grown := Expansion(stack, Unresolved(l, sound, Deps(l.cands, stack[|stack| - 1].0)));
            grown[i] == stack[i] && Waits(l, rank, sound, grown, i)
  {
    hide Deps, Descending, Pending, Frames, Expansion, Unresolved;
    var id := stack[|stack| - 1].0;
    var unresolved := Unresolved(l, sound, Deps(l.cands, id));
    AbovePends(stack, unresolved, i, id);
    forall x
      ensures Pending(Expansion(stack, unresolved)[i + 1..], x) <==>
                Pending(stack[i + 1..], x) || Pending(Frames(unresolved), x)
      ensures Pending(Frames(unresolved), x) ==> rank(x) < rank(id)
    {
      AbovePends(stack, unresolved, i, x);
      TopPends(l, rank, sound, id, x);
    }
    forall d | d in Deps(l.cands, stack[i].0) && d in l.cands
      ensures d in sound || Pending(Expansion(stack, unresolved)[i + 1..], d)
    {
      AbovePends(stack, unresolved, i, d);
    }
  }

  lemma ExpandedWaits(l: Lineage, rank: Id -> nat, sound: map<Id, bool>, stack: seq<Frame>, i: nat)
    requires Descending(Lines(l.cands), rank) && stack != []
    requires forall k :: 0 <= k < |stack| ==> stack[k].0 in l.cands
    requires forall k :: 0 <= k < |stack| && stack[k].1 ==> Waits(l, rank, sound, stack, k)
    requires i < |stack| && (i < |stack| - 1 ==> stack[i].1)
    ensures var grown := Expansion(stack, Unresolved(l, sound, Deps(l.cands, stack[|stack| - 1].0)));
            grown[i].0 == stack[i].0 && Waits(l, rank, sound, grown, i)
  {
    hide Deps, Descending, Pending, Frames, Expansion, Unresolved, Waits;
    if i == |stack| - 1 {
      TopWaits(l, rank, sound, stack);
    } else {
      BelowWaits(l, rank, sound, stack, i);
    }
  }

  /** Resolve one candidate and everything under it. */
  method ResolveFrom(l: Lineage, replacers: map<Id, set<Id>>, start: Id, known: map<Id, bool>, ghost rank: Id -> nat)
    returns (sound: map<Id, bool>)
    requires Descending(Lines(l.cands), rank) && ReplacersExact(l, l.sels.Keys, replacers)
    requires start in l.cands && Resolved(l, known)
    ensures Resolved(l, sound) && known.Keys + {start} <= sound.Keys
  {
    hide Descending, ReplacersExact, Resolved, Waits, LineSound, Deps;
    sound := known;
    var stack: seq<Frame> := [(start, false)];
    ghost var expanded: set<Id> := {};
    assert stack[0].0 == start;
    while stack != []
      invariant Walking(l, rank, sound, stack, expanded)
      invariant known.Keys <= sound.Keys && (start in sound || Pending(stack, start))
      decreases |l.cands.Keys - expanded|, |stack|
    {
      ghost var before, was := stack, sound;
      var (id, depsDone) := stack[|stack| - 1];
      stack := stack[..|stack| - 1];
      assert before == stack + [(id, depsDone)];
      PendingSplits(stack, [(id, depsDone)], start);
      if id in sound || id !in l.cands {
        PopResolved(l, rank, sound, sound, before, expanded);
        continue;
      }
      if id in l.retracted {
        LineStep(l, rank, id);
        sound := sound[id := false];
        ResolvedGrows(l, was, id, false);
        PopResolved(l, rank, was, sound, before, expanded);
        continue;
      }
      var unresolved := Unresolved(l, sound, Deps(l.cands, id));
      if !depsDone && unresolved != [] {
        NotExpandedYet(l, rank, sound, before, expanded);
        Expands(l, rank, sound, before, expanded);
        assert l.cands.Keys - (expanded + {id}) < l.cands.Keys - expanded;
        StrictlySmaller(l.cands.Keys - (expanded + {id}), l.cands.Keys - expanded);
        expanded := expanded + {id};
        PendingSplits(stack + [(id, true)], Frames(unresolved), start);
        PendingSplits(stack, [(id, true)], start);
        stack := stack + [(id, true)] + Frames(unresolved);
        continue;
      }
      if depsDone {
        TopHasItsDeps(l, rank, sound, before, expanded);
      }
      EvaluatesRightly(l, rank, replacers, sound, id);
      sound := sound[id := Evaluate(l, replacers, sound, id)];
      ResolvedGrows(l, was, id, sound[id]);
      PopResolved(l, rank, was, sound, before, expanded);
    }
  }

  lemma StrictlySmaller(a: set<Id>, b: set<Id>)
    requires a < b
    ensures |a| < |b|
  {
    var x :| x in b && x !in a;
    assert a <= b - {x};
    SubsetSize(a, b - {x});
  }

  lemma {:induction false} SubsetSize(a: set<Id>, b: set<Id>)
    requires a <= b
    ensures |a| <= |b|
  {
    if a != {} {
      var x :| x in a;
      SubsetSize(a - {x}, b - {x});
    }
  }

  lemma ResolvedGrows(l: Lineage, sound: map<Id, bool>, id: Id, v: bool)
    requires Resolved(l, sound) && id in l.cands && (v <==> LineSound(l, id))
    ensures Resolved(l, sound[id := v])
  {
    hide LineSound;
  }

  lemma TopHasItsDeps(l: Lineage, rank: Id -> nat, sound: map<Id, bool>, stack: seq<Frame>, expanded: set<Id>)
    requires stack != [] && Walking(l, rank, sound, stack, expanded) && stack[|stack| - 1].1
    ensures forall d :: d in Deps(l.cands, stack[|stack| - 1].0) && d in l.cands ==> d in sound
  {
    hide Resolved;
    assert Waits(l, rank, sound, stack, |stack| - 1);
    assert stack[|stack|..] == [];
  }

  // ----- The section -------------------------------------------------------------------------------

  /** `derive_standing`. Nothing depends on the order in which the maps are walked. */
  method DeriveStanding(records: seq<Record>, s: State, ghost rank: Id -> nat) returns (section: Section)
    requires Descending(Lines(LineageOf(records, s).cands), rank) && Descending(Chains(LineageOf(records, s).sels), rank)
    ensures section == StandingOf(LineageOf(records, s))
  {
    hide Descending, LineSound, Restores, LineageOf, Resolved;
    var l := ReadLineage(records, s);
    var replacers := FindReplacers(l, rank);
    var unsound := set x | x in l.sels && Unsound(l, x);
    var restorations := map x | x in unsound && x in replacers && replacers[x] != {} :: replacers[x];
    RestorationsExact(l, replacers, restorations);
    var sound: map<Id, bool> := map[];
    NothingResolved(l);
    var todo := l.cands.Keys;
    while todo != {}
      invariant todo <= l.cands.Keys && Resolved(l, sound) && l.cands.Keys - todo <= sound.Keys
      decreases todo
    {
      var start :| start in todo;
      if start !in sound {
        sound := ResolveFrom(l, replacers, start, sound, rank);
      }
      todo := todo - {start};
    }
    AllResolved(l, sound);
    var compromised := set c | c in l.cands && !DepSound(sound, c);
    section := Section(compromised, unsound, restorations);
  }

  lemma NothingResolved(l: Lineage)
    ensures Resolved(l, map[])
  {
  }

  lemma AllResolved(l: Lineage, sound: map<Id, bool>)
    requires Resolved(l, sound) && l.cands.Keys <= sound.Keys
    ensures (set c | c in l.cands && !DepSound(sound, c)) == set c | c in l.cands && !LineSound(l, c)
  {
    hide LineSound;
  }

  lemma RestorationsExact(l: Lineage, replacers: map<Id, set<Id>>, restorations: map<Id, set<Id>>)
    requires ReplacersExact(l, l.sels.Keys, replacers)
    requires restorations == map x | x in l.sels && Unsound(l, x) && x in replacers && replacers[x] != {} :: replacers[x]
    ensures restorations == StandingOf(l).restorations
  {
    hide LineSound, StrictlyReaches;
    var want := StandingOf(l).restorations;
    forall x | x in l.sels && Unsound(l, x)
      ensures x in restorations <==> x in want
      ensures x in restorations ==> restorations[x] == want[x]
    {
      if heir :| Restores(l, heir, x) {
        assert heir in Members(replacers, x);
      }
      if x in replacers {
        forall heir
          ensures heir in replacers[x] <==> heir in l.sels && Restores(l, heir, x)
        {
          assert heir in Members(replacers, x) <==> heir in l.sels.Keys && Restores(l, heir, x);
        }
      }
    }
  }
}
