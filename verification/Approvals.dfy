// Exact approvals over whole runs: each is spent at most once, and never comes back.
module Approvals {
  import opened Records
  import opened LedgerState
  import opened Reachability
  import opened Taint
  import opened Slots

  /** The record at `j` is the action or selection an approval was for, names it as
      authority, and the approval was the latest for that subject. */
  ghost predicate SpentAt(h: seq<Record>, x: Id, j: nat) {
    && j < |h|
    && SubjectOf(h[j]).Some? && HasRef(h[j], Require, x)
    && Latest(h[..j], ExactSubjectOf, SubjectOf(h[j]).value, x)
  }

  ghost predicate Spent(h: seq<Record>, x: Id) {
    exists j: nat :: SpentAt(h, x, j)
  }

  /** The next record spends an approval. */
  ghost predicate Spends(g: seq<Record>, r: Record, x: Id) {
    SubjectOf(r).Some? && HasRef(r, Require, x) && Latest(g, ExactSubjectOf, SubjectOf(r).value, x)
  }

  lemma SpentGrows(g: seq<Record>, r: Record, x: Id)
    ensures Spent(g + [r], x) <==> Spent(g, x) || Spends(g, r, x)
  {
    hide Latest, SubjectOf, HasRef, ExactSubjectOf;
    var h := g + [r];
    assert h[|g|] == r && h[..|g|] == g;
    forall j: nat | j < |g|
      ensures SpentAt(h, x, j) <==> SpentAt(g, x, j)
    {
      assert h[..j] == g[..j];
    }
    if Spends(g, r, x) {
      assert SpentAt(h, x, |g|);
    }
  }

  ghost predicate ApprovalsExactly(h: seq<Record>, valid: map<Subject, Id>, index: map<Id, Subject>) {
    && (forall k, x :: (k in valid && valid[k] == x) <==>
          Latest(h, ExactSubjectOf, k, x) && !IsRetracted(h, x) && !Spent(h, x))
    && (forall x, k :: (x in index && index[x] == k) <==> Keyed(h, ExactSubjectOf, x, k) && !Spent(h, x))
  }

  /** Spending an approval takes it out of its slot and out of the index. */
  lemma SpendStep(g: seq<Record>, r: Record, valid: map<Subject, Id>, index: map<Id, Subject>)
    requires ApprovalsExactly(g, valid, index) && SubjectOf(r).Some?
    requires Consumes(valid, r).Some?
    ensures ApprovalsExactly(g + [r], valid - {SubjectOf(r).value}, index - {Consumes(valid, r).value})
  {
    hide Latest, Keyed, IsRetracted, Spent, SubjectOf, HasRef, ExactSubjectOf;
    KindsApart(r);
    var s, spent := SubjectOf(r).value, Consumes(valid, r).value;
    OneLatest(g, ExactSubjectOf, s);
    assert s in valid && valid[s] == spent && HasRef(r, Require, spent);
    assert Latest(g, ExactSubjectOf, s, spent);
    forall k, x
      ensures Latest(g + [r], ExactSubjectOf, k, x) <==> Latest(g, ExactSubjectOf, k, x)
      ensures Keyed(g + [r], ExactSubjectOf, x, k) <==> Keyed(g, ExactSubjectOf, x, k)
      ensures IsRetracted(g + [r], x) <==> IsRetracted(g, x)
      ensures Spent(g + [r], x) <==> Spent(g, x) || x == spent
    {
      LatestGrows(g, r, ExactSubjectOf, k, x);
      KeyedGrows(g, r, ExactSubjectOf, x, k);
      RetractedGrows(g, r, x);
      SpentGrows(g, r, x);
    }
    forall k, x
      ensures (k in valid - {s} && (valid - {s})[k] == x) <==>
                Latest(g + [r], ExactSubjectOf, k, x) && !IsRetracted(g + [r], x) && !Spent(g + [r], x)
    {
      assert (k in valid && valid[k] == x) <==> Latest(g, ExactSubjectOf, k, x) && !IsRetracted(g, x) && !Spent(g, x);
      if Latest(g, ExactSubjectOf, k, spent) {
        KeysAgree(g, valid, index, k, s, spent);
      }
    }
    forall x, k
      ensures (x in index - {spent} && (index - {spent})[x] == k) <==>
                Keyed(g + [r], ExactSubjectOf, x, k) && !Spent(g + [r], x)
    {
      assert (x in index && index[x] == k) <==> Keyed(g, ExactSubjectOf, x, k) && !Spent(g, x);
    }
  }

  lemma OneLatest<K>(h: seq<Record>, keyOf: Record -> Option<K>, k: K)
    ensures forall x, y :: Latest(h, keyOf, k, x) && Latest(h, keyOf, k, y) ==> x == y
  {
    forall x, y | Latest(h, keyOf, k, x) && Latest(h, keyOf, k, y)
      ensures x == y
    {
      var i: nat :| LatestAt(h, keyOf, k, i) && h[i].id == x;
      var j: nat :| LatestAt(h, keyOf, k, j) && h[j].id == y;
      LatestBars(h, keyOf, k, i, j);
      LatestBars(h, keyOf, k, j, i);
    }
  }

  /** An unspent approval is the latest for one subject only: the one indexed for it. */
  lemma KeysAgree(h: seq<Record>, valid: map<Subject, Id>, index: map<Id, Subject>, k: Subject, s: Subject, x: Id)
    requires ApprovalsExactly(h, valid, index) && s in valid && valid[s] == x
    requires Latest(h, ExactSubjectOf, k, x)
    ensures k == s
  {
    hide Latest, Keyed, IsRetracted, Spent;
    LatestIsThere(h, ExactSubjectOf, k, x);
    LatestIsThere(h, ExactSubjectOf, s, x);
  }

  /** A record that spends nothing: what it names, if anything, was spent before. */
  lemma QuietStep(g: seq<Record>, r: Record, valid: map<Subject, Id>, index: map<Id, Subject>)
    requires NextFits(g, r) && ApprovalsExactly(g, valid, index)
    requires RetractionTarget(r).None? && Consumes(valid, r).None?
    requires forall t :: HasRef(r, Require, t) ==> !IsRetracted(g, t)
    ensures ApprovalsExactly(g + [r], Install(valid, ExactSubjectOf(r), r.id), IndexBy(index, r.id, ExactSubjectOf(r)))
  {
    hide Latest, Keyed, IsRetracted, Spent, SubjectOf, HasRef, ExactSubjectOf, RetractionTarget, HasId;
    KindsApart(r);
    forall k, x
      ensures Latest(g + [r], ExactSubjectOf, k, x) <==>
                if ExactSubjectOf(r) == Some(k) then x == r.id else Latest(g, ExactSubjectOf, k, x)
      ensures Keyed(g + [r], ExactSubjectOf, x, k) <==>
                Keyed(g, ExactSubjectOf, x, k) || (r.id == x && ExactSubjectOf(r) == Some(k))
      ensures Keyed(g, ExactSubjectOf, x, k) ==> HasId(g, x)
      ensures IsRetracted(g + [r], x) <==> IsRetracted(g, x)
      ensures Spent(g + [r], x) <==> Spent(g, x)
    {
      LatestGrows(g, r, ExactSubjectOf, k, x);
      KeyedGrows(g, r, ExactSubjectOf, x, k);
      RetractedGrows(g, r, x);
      SpentGrows(g, r, x);
    }
    SpentWasThere(g, r.id);
  }

  lemma SpentWasThere(h: seq<Record>, x: Id)
    ensures Spent(h, x) ==> HasId(h, x)
  {
    if Spent(h, x) {
      var j: nat :| SpentAt(h, x, j);
      LatestIsThere(h[..j], ExactSubjectOf, SubjectOf(h[j]).value, x);
      var i :| 0 <= i < j && h[..j][i].id == x && ExactSubjectOf(h[..j][i]) == Some(SubjectOf(h[j]).value);
      assert h[i].id == x;
    }
  }

  /** A retraction vacates the slot of an unspent approval; a spent one has none. */
  lemma WithdrawStep(g: seq<Record>, r: Record, valid: map<Subject, Id>, index: map<Id, Subject>)
    requires RetractionTarget(r).Some? && ApprovalsExactly(g, valid, index)
    ensures var t := RetractionTarget(r).value;
            ApprovalsExactly(g + [r], Vacate(valid, Lookup(index, t), t), index)
  {
    hide Latest, Keyed, IsRetracted, Spent, SubjectOf, HasRef, ExactSubjectOf, RetractionTarget;
    KindsApart(r);
    var t := RetractionTarget(r).value;
    var after := Vacate(valid, Lookup(index, t), t);
    forall k, x
      ensures (k in after && after[k] == x) <==>
                Latest(g + [r], ExactSubjectOf, k, x) && !IsRetracted(g + [r], x) && !Spent(g + [r], x)
      ensures Keyed(g + [r], ExactSubjectOf, x, k) <==> Keyed(g, ExactSubjectOf, x, k)
      ensures Spent(g + [r], x) <==> Spent(g, x)
    {
      LatestGrows(g, r, ExactSubjectOf, k, x);
      KeyedGrows(g, r, ExactSubjectOf, x, k);
      RetractedGrows(g, r, x);
      SpentGrows(g, r, x);
      assert (k in valid && valid[k] == x) <==> Latest(g, ExactSubjectOf, k, x) && !IsRetracted(g, x) && !Spent(g, x);
      if Latest(g, ExactSubjectOf, k, x) {
        LatestIsThere(g, ExactSubjectOf, k, x);
      }
    }
  }

  /** In every reachable state an exact approval is in force exactly when it is the latest
      for its subject, was not retracted, and was not spent. */
  lemma {:induction false} ApprovalsAreDeclarative(h: seq<Record>)
    requires Reachable(h)
    ensures ApprovalsExactly(h, Fold(h).validApprovals, Fold(h).exactApprovalIndex)
  {
    hide GoodStep, Apply, NextFits, IsRetracted, ExactSubjectOf, SubjectOf, Vacate, Install, IndexBy, RetractionTarget,
         Consumes, ApprovalsExactly;
    if h != [] {
      var g, r := h[..|h| - 1], h[|h| - 1];
      assert h == g + [r];
      ApprovalsAreDeclarative(g);
      GoodNextFits(g, r);
      KindsApart(r);
      Projects(Fold(g), r);
      RequiredAreUnretracted(g, r);
      var valid, index := Fold(g).validApprovals, Fold(g).exactApprovalIndex;
      NoConsumer(valid, r);
      if RetractionTarget(r).Some? {
        WithdrawStep(g, r, valid, index);
        assert IndexBy(index, r.id, ExactSubjectOf(r)) == index by {
          NoKeyNoIndex(index, r.id, ExactSubjectOf(r));
        }
      } else if Consumes(valid, r).Some? {
        SpendStep(g, r, valid, index);
      } else {
        QuietStep(g, r, valid, index);
      }
    } else {
      NoApprovalsYet(h);
    }
  }

  lemma NoKeyNoIndex<K>(index: map<Id, K>, id: Id, k: Option<K>)
    ensures k.None? ==> IndexBy(index, id, k) == index
  {
  }

  lemma NoConsumer(valid: map<Subject, Id>, r: Record)
    ensures SubjectOf(r).None? ==> Consumes(valid, r).None?
    ensures Consumes(valid, r).Some? ==> SubjectOf(r).Some?
  {
  }

  lemma NoApprovalsYet(h: seq<Record>)
    requires h == []
    ensures ApprovalsExactly(h, map[], map[])
  {
  }

  lemma RequiredAreUnretracted(g: seq<Record>, r: Record)
    requires GoodStep(Fold(g), r)
    ensures forall t :: HasRef(r, Require, t) ==> !IsRetracted(g, t)
  {
    IndexIsExact(g);
    GoodTarget(Fold(g), r);
    hide GoodStep, Fold, IsRetracted;
  }

  // ----- Single use -----------------------------------------------------------------------------

  /** The record at `j` used the approval up. */
  ghost predicate ConsumedAt(h: seq<Record>, x: Id, j: nat) {
    j < |h| && Consumes(Fold(h[..j]).validApprovals, h[j]) == Some(x)
  }

  lemma ConsumedIsSpent(h: seq<Record>, x: Id, j: nat)
    requires Reachable(h) && ConsumedAt(h, x, j)
    ensures SpentAt(h, x, j) && !Spent(h[..j], x)
  {
    hide GoodStep, Fold, Latest, Spent;
    ReachablePrefix(h, j);
    ApprovalsAreDeclarative(h[..j]);
  }

  lemma SpentStays(h: seq<Record>, x: Id, j: nat, k: nat)
    requires SpentAt(h, x, j) && j < k <= |h|
    ensures Spent(h[..k], x)
  {
    assert h[..k][..j] == h[..j];
    assert SpentAt(h[..k], x, j);
  }

  /** No exact approval is used by two accepted records of a run. */
  lemma ApprovalsAreSingleUse(h: seq<Record>, x: Id, j: nat, k: nat)
    requires Reachable(h) && ConsumedAt(h, x, j) && ConsumedAt(h, x, k)
    ensures j == k
  {
    hide GoodStep, Fold, Spent;
    ConsumedIsSpent(h, x, j);
    ConsumedIsSpent(h, x, k);
    if j < k {
      SpentStays(h, x, j, k);
    } else if k < j {
      SpentStays(h, x, k, j);
    }
  }

  /** Once used an approval is never in force again, at any later point of the run. */
  lemma UsedNeverReturns(h: seq<Record>, x: Id, j: nat, k: nat, s: Subject)
    requires Reachable(h) && ConsumedAt(h, x, j) && j < k <= |h|
    ensures s in Fold(h[..k]).validApprovals ==> Fold(h[..k]).validApprovals[s] != x
  {
    hide GoodStep, Fold, Spent, Latest;
    ConsumedIsSpent(h, x, j);
    SpentStays(h, x, j, k);
    ReachablePrefix(h, k);
    ApprovalsAreDeclarative(h[..k]);
  }
}
