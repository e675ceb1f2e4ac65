// Authority slots: each holds the latest grant for its key unless that grant was
// retracted or, for exact approvals, spent.
module Slots {
  import opened Records
  import opened LedgerState
  import opened Reachability
  import opened Taint

  ghost predicate HasId(h: seq<Record>, x: Id) {
    exists i :: 0 <= i < |h| && h[i].id == x
  }

  lemma HasIdGrows(g: seq<Record>, r: Record, x: Id)
    ensures HasId(g + [r], x) <==> HasId(g, x) || r.id == x
  {
    if HasId(g, x) {
      var i :| 0 <= i < |g| && g[i].id == x;
      assert (g + [r])[i].id == x;
    }
    assert (g + [r])[|g|] == r;
  }

  /** The accepted set holds the ids of the history. */
  lemma {:induction false} AcceptedIds(h: seq<Record>, x: Id)
    ensures x in Fold(h).accepted <==> HasId(h, x)
  {
    hide Apply;
    if h != [] {
      var g, r := h[..|h| - 1], h[|h| - 1];
      assert h == g + [r];
      AcceptedIds(g, x);
      HasIdGrows(g, r, x);
      Projects(Fold(g), r);
    }
  }

  /** What the induction steps below know of the next record. */
  ghost predicate NextFits(g: seq<Record>, r: Record) {
    && !HasId(g, r.id) && !IsRetracted(g, r.id)
    && (RetractionTarget(r).Some? ==> HasId(g, RetractionTarget(r).value))
  }

  lemma {:induction false} RetractedAreAccepted(h: seq<Record>, x: Id)
    requires Reachable(h) && IsRetracted(h, x)
    ensures HasId(h, x)
  {
    hide GoodStep, Fold;
    if h != [] {
      var g, r := h[..|h| - 1], h[|h| - 1];
      assert h == g + [r];
      RetractedGrows(g, r, x);
      HasIdGrows(g, r, x);
      if IsRetracted(g, x) {
        RetractedAreAccepted(g, x);
      } else {
        GoodTarget(Fold(g), r);
        AcceptedIds(g, x);
      }
    }
  }

  lemma GoodTarget(s: State, r: Record)
    requires GoodStep(s, r)
    ensures r.id !in s.accepted && (RetractionTarget(r).Some? ==> RetractionTarget(r).value in s.accepted)
    ensures FitsKind(r.kind, r.data)
    ensures forall t :: HasRef(r, Require, t) ==> Usable(s, t)
  {
  }

  lemma GoodNextFits(g: seq<Record>, r: Record)
    requires Reachable(g) && GoodStep(Fold(g), r)
    ensures NextFits(g, r)
  {
    hide GoodStep, Fold;
    GoodTarget(Fold(g), r);
    AcceptedIds(g, r.id);
    if IsRetracted(g, r.id) {
      RetractedAreAccepted(g, r.id);
    }
    if RetractionTarget(r).Some? {
      AcceptedIds(g, RetractionTarget(r).value);
    }
  }

  // ----- The latest record for a key ------------------------------------------------------------

  ghost predicate LatestAt<K>(h: seq<Record>, keyOf: Record -> Option<K>, k: K, i: nat) {
    && i < |h| && keyOf(h[i]) == Some(k)
    && forall j :: i < j < |h| ==> keyOf(h[j]) != Some(k)
  }

  /** The latest record of the history with this key is the one with this id. */
  ghost predicate Latest<K>(h: seq<Record>, keyOf: Record -> Option<K>, k: K, x: Id) {
    exists i: nat :: LatestAt(h, keyOf, k, i) && h[i].id == x
  }

  lemma LatestGrows<K>(g: seq<Record>, r: Record, keyOf: Record -> Option<K>, k: K, x: Id)
    ensures Latest(g + [r], keyOf, k, x) <==> if keyOf(r) == Some(k) then x == r.id else Latest(g, keyOf, k, x)
  {
    var h := g + [r];
    if keyOf(r) == Some(k) {
      assert h[|g|] == r;
      assert LatestAt(h, keyOf, k, |g|);
      forall i: nat
        ensures LatestAt(h, keyOf, k, i) ==> i == |g|
      {
        LatestBars(h, keyOf, k, i, |g|);
      }
    } else {
      forall i: nat
        ensures LatestAt(h, keyOf, k, i) <==> LatestAt(g, keyOf, k, i)
      {
        OldLatest(g, r, keyOf, k, i);
      }
      hide LatestAt;
      assert forall i: nat :: i < |g| ==> h[i] == g[i];
      assert forall i: nat :: LatestAt(g, keyOf, k, i) ==> i < |g| by {
        forall i: nat
          ensures LatestAt(g, keyOf, k, i) ==> i < |g|
        {
          LatestInside(g, keyOf, k, i);
        }
      }
    }
  }

  lemma LatestBars<K>(h: seq<Record>, keyOf: Record -> Option<K>, k: K, i: nat, j: nat)
    requires j < |h|
    ensures LatestAt(h, keyOf, k, i) && i < j ==> keyOf(h[j]) != Some(k)
  {
  }

  lemma LatestInside<K>(h: seq<Record>, keyOf: Record -> Option<K>, k: K, i: nat)
    ensures LatestAt(h, keyOf, k, i) ==> i < |h|
  {
  }

  lemma OldLatest<K>(g: seq<Record>, r: Record, keyOf: Record -> Option<K>, k: K, i: nat)
    requires keyOf(r) != Some(k)
    ensures LatestAt(g + [r], keyOf, k, i) <==> LatestAt(g, keyOf, k, i)
  {
    var h := g + [r];
    assert h[|g|] == r;
    assert forall j :: 0 <= j < |g| ==> h[j] == g[j];
  }

  lemma LatestIsThere<K>(h: seq<Record>, keyOf: Record -> Option<K>, k: K, x: Id)
    requires Latest(h, keyOf, k, x)
    ensures Keyed(h, keyOf, x, k)
  {
  }

  /** Some record of the history has this id and this key. */
  ghost predicate Keyed<K>(h: seq<Record>, keyOf: Record -> Option<K>, x: Id, k: K) {
    exists i :: 0 <= i < |h| && h[i].id == x && keyOf(h[i]) == Some(k)
  }

  lemma KeyedGrows<K>(g: seq<Record>, r: Record, keyOf: Record -> Option<K>, x: Id, k: K)
    ensures Keyed(g + [r], keyOf, x, k) <==> Keyed(g, keyOf, x, k) || (r.id == x && keyOf(r) == Some(k))
    ensures Keyed(g, keyOf, x, k) ==> HasId(g, x)
  {
    if Keyed(g, keyOf, x, k) {
      var i :| 0 <= i < |g| && g[i].id == x && keyOf(g[i]) == Some(k);
      assert (g + [r])[i] == g[i];
    }
    assert (g + [r])[|g|] == r;
  }

  ghost predicate IndexExactly<K(!new)>(h: seq<Record>, keyOf: Record -> Option<K>, index: map<Id, K>) {
    forall x, k :: (x in index && index[x] == k) <==> Keyed(h, keyOf, x, k)
  }

  /** A slot holds an id exactly when it is the latest for the key and stands unretracted. */
  ghost predicate SlotsExactly<K(!new)>(h: seq<Record>, keyOf: Record -> Option<K>, slots: map<K, Id>) {
    forall k, x :: (k in slots && slots[k] == x) <==> Latest(h, keyOf, k, x) && !IsRetracted(h, x)
  }

  lemma IndexStep<K(!new)>(g: seq<Record>, r: Record, keyOf: Record -> Option<K>, index: map<Id, K>)
    requires NextFits(g, r) && IndexExactly(g, keyOf, index)
    ensures IndexExactly(g + [r], keyOf, IndexBy(index, r.id, keyOf(r)))
  {
    hide Keyed;
    forall x, k
      ensures Keyed(g + [r], keyOf, x, k) <==> Keyed(g, keyOf, x, k) || (r.id == x && keyOf(r) == Some(k))
      ensures Keyed(g, keyOf, x, k) ==> HasId(g, x)
    {
      KeyedGrows(g, r, keyOf, x, k);
    }
  }

  lemma InstallStep<K(!new)>(g: seq<Record>, r: Record, keyOf: Record -> Option<K>, slots: map<K, Id>)
    requires NextFits(g, r) && RetractionTarget(r).None? && SlotsExactly(g, keyOf, slots)
    ensures SlotsExactly(g + [r], keyOf, Install(slots, keyOf(r), r.id))
  {
    hide Latest;
    forall k, x
      ensures Latest(g + [r], keyOf, k, x) <==> if keyOf(r) == Some(k) then x == r.id else Latest(g, keyOf, k, x)
      ensures IsRetracted(g + [r], x) <==> IsRetracted(g, x)
    {
      LatestGrows(g, r, keyOf, k, x);
      RetractedGrows(g, r, x);
    }
  }

  lemma VacateStep<K(!new)>(g: seq<Record>, r: Record, keyOf: Record -> Option<K>, slots: map<K, Id>, index: map<Id, K>)
    requires RetractionTarget(r).Some? && keyOf(r).None?
    requires SlotsExactly(g, keyOf, slots) && IndexExactly(g, keyOf, index)
    ensures var t := RetractionTarget(r).value;
            SlotsExactly(g + [r], keyOf, Vacate(slots, Lookup(index, t), t))
  {
    hide Latest, Keyed, IsRetracted, RetractionTarget;
    var t := RetractionTarget(r).value;
    var after := Vacate(slots, Lookup(index, t), t);
    forall k, x
      ensures (k in after && after[k] == x) <==> Latest(g + [r], keyOf, k, x) && !IsRetracted(g + [r], x)
    {
      LatestGrows(g, r, keyOf, k, x);
      RetractedGrows(g, r, x);
      assert (k in slots && slots[k] == x) <==> Latest(g, keyOf, k, x) && !IsRetracted(g, x);
      if Latest(g, keyOf, k, x) {
        LatestIsThere(g, keyOf, k, x);
        assert x in index && index[x] == k;
      }
    }
  }

  lemma NothingYet(h: seq<Record>)
    requires h == []
    ensures forall x :: !IsRetracted(h, x) && !HasId(h, x)
  {
  }

  // ----- Capabilities and class approvals -----------------------------------------------------------

  lemma KindsApart(r: Record)
    ensures RetractionTarget(r).Some? ==>
              CapabilityKeyOf(r).None? && ClassKeyOf(r).None? && ExactSubjectOf(r).None? && SubjectOf(r).None?
    ensures SubjectOf(r).Some? ==> ExactSubjectOf(r).None? && RetractionTarget(r).None?
  {
  }

  /** In every reachable state the capability in force for a key is the latest accepted
      capability with that key, provided it was not retracted. */
  lemma {:induction false} CapabilitiesAreDeclarative(h: seq<Record>)
    requires Reachable(h)
    ensures SlotsExactly(h, CapabilityKeyOf, Fold(h).activeCapabilities)
    ensures IndexExactly(h, CapabilityKeyOf, Fold(h).capabilityIndex)
  {
    hide GoodStep, Apply, NextFits, IsRetracted, CapabilityKeyOf, Vacate, Install, IndexBy, RetractionTarget;
    if h != [] {
      var g, r := h[..|h| - 1], h[|h| - 1];
      assert h == g + [r];
      CapabilitiesAreDeclarative(g);
      GoodNextFits(g, r);
      KindsApart(r);
      Projects(Fold(g), r);
      IndexStep(g, r, CapabilityKeyOf, Fold(g).capabilityIndex);
      if RetractionTarget(r).Some? {
        VacateStep(g, r, CapabilityKeyOf, Fold(g).activeCapabilities, Fold(g).capabilityIndex);
      } else {
        InstallStep(g, r, CapabilityKeyOf, Fold(g).activeCapabilities);
      }
    } else {
      NothingYet(h);
    }
  }

  /** And likewise for approvals of a class of actions. */
  lemma {:induction false} ClassApprovalsAreDeclarative(h: seq<Record>)
    requires Reachable(h)
    ensures SlotsExactly(h, ClassKeyOf, Fold(h).classApprovals)
    ensures IndexExactly(h, ClassKeyOf, Fold(h).classApprovalIndex)
  {
    hide GoodStep, Apply, NextFits, IsRetracted, ClassKeyOf, Vacate, Install, IndexBy, RetractionTarget;
    if h != [] {
      var g, r := h[..|h| - 1], h[|h| - 1];
      assert h == g + [r];
      ClassApprovalsAreDeclarative(g);
      GoodNextFits(g, r);
      KindsApart(r);
      Projects(Fold(g), r);
      IndexStep(g, r, ClassKeyOf, Fold(g).classApprovalIndex);
      if RetractionTarget(r).Some? {
        VacateStep(g, r, ClassKeyOf, Fold(g).classApprovals, Fold(g).classApprovalIndex);
      } else {
        InstallStep(g, r, ClassKeyOf, Fold(g).classApprovals);
      }
    } else {
      NothingYet(h);
    }
  }
}
