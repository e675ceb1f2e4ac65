// Requirement keys: which are taken, and the one way the record of it goes wrong.
module RequirementKeys {
  import opened Records
  import opened LedgerState
  import opened Reachability
  import opened Taint
  import opened Slots
  import opened Refs

  type Claim = (Id, string)

  /** An accepted, unretracted requirement holds this key of this request. */
  ghost predicate Live(h: seq<Record>, claim: Claim) {
    exists x :: Holds(h, x, claim)
  }

  ghost predicate Holds(h: seq<Record>, x: Id, claim: Claim) {
    Keyed(h, ClaimOf, x, claim) && !IsRetracted(h, x)
  }

  predicate Taken(keys: map<Id, set<string>>, claim: Claim) {
    claim.1 in Members(keys, claim.0)
  }

  /** The keys recorded as taken are exactly those of live requirements. */
  ghost predicate KeysExactly(h: seq<Record>, keys: map<Id, set<string>>) {
    && (forall claim :: Taken(keys, claim) <==> Live(h, claim))
    && forall x :: x in keys ==> keys[x] != {}
  }

  /** No key is held twice. */
  ghost predicate HeldOnce(h: seq<Record>) {
    forall x, y, claim :: Holds(h, x, claim) && Holds(h, y, claim) ==> x == y
  }

  /** A retraction that repeats its target, after the key it once held was taken again. */
  predicate Steals(s: State, r: Record) {
    RetractionTarget(r).Some?
    && var t := RetractionTarget(r).value;
       t in s.retracted && t in s.requirementIndex && Taken(s.requirementKeys, s.requirementIndex[t])
  }

  lemma ClaimsApart(r: Record)
    ensures ClaimOf(r).Some? <==> r.kind == Requirement && r.data.RequirementData? && FirstTarget(r.refs, Cause).Some?
    ensures RetractionTarget(r).Some? ==> ClaimOf(r).None?
  {
  }

  lemma {:induction false} ClaimsAreIndexed(h: seq<Record>)
    requires Reachable(h)
    ensures IndexExactly(h, ClaimOf, Fold(h).requirementIndex)
  {
    hide GoodStep, Apply, NextFits, IsRetracted, ClaimOf, IndexBy, RetractionTarget;
    if h != [] {
      var g, r := h[..|h| - 1], h[|h| - 1];
      assert h == g + [r];
      ClaimsAreIndexed(g);
      GoodNextFits(g, r);
      Projects(Fold(g), r);
      IndexStep(g, r, ClaimOf, Fold(g).requirementIndex);
    }
  }

  /** Holding, with one more record. */
  lemma HoldsGrows(g: seq<Record>, r: Record, x: Id, claim: Claim)
    requires NextFits(g, r)
    ensures Holds(g + [r], x, claim) <==>
              || (Holds(g, x, claim) && RetractionTarget(r) != Some(x))
              || (r.id == x && ClaimOf(r) == Some(claim))
  {
    hide Keyed, IsRetracted, ClaimOf, HasId;
    KeyedGrows(g, r, ClaimOf, x, claim);
    RetractedGrows(g, r, x);
    RetractedGrows(g, r, r.id);
    ClaimsApart(r);
  }

  // ----- Each kind of step -----------------------------------------------------------------------

  lemma TakenAfterClaim(keys: map<Id, set<string>>, claim: Claim, other: Claim)
    ensures Taken(Claimed(keys, claim), other) <==> Taken(keys, other) || other == claim
  {
  }

  lemma TakenAfterRelease(keys: map<Id, set<string>>, claim: Claim, other: Claim)
    ensures Taken(Released(keys, claim), other) <==> Taken(keys, other) && other != claim
  {
  }

  /** A requirement takes a free key. */
  lemma ClaimStep(g: seq<Record>, r: Record, keys: map<Id, set<string>>)
    requires NextFits(g, r) && KeysExactly(g, keys) && HeldOnce(g)
    requires ClaimOf(r).Some? && !Taken(keys, ClaimOf(r).value)
    ensures KeysExactly(g + [r], Claimed(keys, ClaimOf(r).value)) && HeldOnce(g + [r])
  {
    hide Holds, ClaimOf, NextFits, Taken, RetractionTarget;
    var mine := ClaimOf(r).value;
    ClaimsApart(r);
    NotRetraction(r);
    forall x, claim
      ensures Holds(g + [r], x, claim) <==> Holds(g, x, claim) || (r.id == x && claim == mine)
    {
      HoldsGrows(g, r, x, claim);
    }
    forall claim: Claim
      ensures Taken(Claimed(keys, mine), claim) <==> Live(g + [r], claim)
    {
      TakenAfterClaim(keys, mine, claim);
      assert claim == mine ==> Holds(g + [r], r.id, claim);
      if x :| Holds(g, x, claim) {
        assert Holds(g + [r], x, claim);
      }
    }
    assert !Live(g, mine);
  }

  lemma NotRetraction(r: Record)
    ensures ClaimOf(r).Some? ==> RetractionTarget(r).None?
  {
  }

  /** A record that neither claims nor retracts changes nothing. */
  lemma IdleStep(g: seq<Record>, r: Record, keys: map<Id, set<string>>)
    requires NextFits(g, r) && ClaimOf(r).None? && RetractionTarget(r).None? && HeldOnce(g)
    ensures KeysExactly(g, keys) ==> KeysExactly(g + [r], keys)
    ensures HeldOnce(g + [r])
  {
    SameHolders(g, r);
    hide Holds, ClaimOf, NextFits, Taken, RetractionTarget;
  }

  lemma SameHolders(g: seq<Record>, r: Record)
    requires NextFits(g, r) && ClaimOf(r).None? && RetractionTarget(r).None?
    ensures forall x, claim :: Holds(g + [r], x, claim) <==> Holds(g, x, claim)
  {
    hide Holds, ClaimOf, NextFits, RetractionTarget;
    forall x, claim
      ensures Holds(g + [r], x, claim) <==> Holds(g, x, claim)
    {
      HoldsGrows(g, r, x, claim);
    }
  }

  /** A retraction keeps the keys exact unless it steals one, and never otherwise. */
  lemma RetractStep(g: seq<Record>, r: Record, keys: map<Id, set<string>>, index: map<Id, Claim>)
    requires NextFits(g, r) && RetractionTarget(r).Some? && IndexExactly(g, ClaimOf, index)
    requires KeysExactly(g, keys) && HeldOnce(g)
    ensures HeldOnce(g + [r])
    ensures var t := RetractionTarget(r).value;
            KeysExactly(g + [r], if t in index then Released(keys, index[t]) else keys) <==>
              !(IsRetracted(g, t) && t in index && Taken(keys, index[t]))
  {
    hide Holds, ClaimOf, NextFits, Taken, RetractionTarget, IndexExactly;
    var t := RetractionTarget(r).value;
    ClaimsApart(r);
    forall x, claim
      ensures Holds(g + [r], x, claim) <==> Holds(g, x, claim) && x != t
    {
      HoldsGrows(g, r, x, claim);
    }
    if t in index {
      var mine := index[t];
      RetractedHolds(g, index, t);
      forall claim: Claim
        ensures Taken(Released(keys, mine), claim) <==> Live(g, claim) && claim != mine
        ensures claim != mine ==> (Live(g + [r], claim) <==> Live(g, claim))
      {
        TakenAfterRelease(keys, mine, claim);
        if claim != mine && Live(g, claim) {
          var x :| Holds(g, x, claim);
          HolderIsKeyed(g, index, x, claim);
          assert Holds(g + [r], x, claim);
        }
      }
      assert Live(g + [r], mine) <==> IsRetracted(g, t) && Live(g, mine) by {
        if IsRetracted(g, t) && Live(g, mine) {
          var x :| Holds(g, x, mine);
          assert Holds(g + [r], x, mine);
        }
      }
      assert forall x :: x in Released(keys, mine) ==> Released(keys, mine)[x] != {};
    } else {
      forall x, claim
        ensures Holds(g, x, claim) ==> x != t
      {
        if Holds(g, x, claim) {
          HolderIsKeyed(g, index, x, claim);
        }
      }
    }
  }

  lemma HolderIsKeyed(g: seq<Record>, index: map<Id, Claim>, x: Id, claim: Claim)
    requires IndexExactly(g, ClaimOf, index) && Holds(g, x, claim)
    ensures x in index && index[x] == claim && !IsRetracted(g, x)
  {
    hide Keyed;
  }

  lemma RetractedHolds(g: seq<Record>, index: map<Id, Claim>, t: Id)
    requires IndexExactly(g, ClaimOf, index) && t in index
    ensures Holds(g, t, index[t]) <==> !IsRetracted(g, t)
  {
    hide Keyed;
  }

  // ----- What is recorded, whatever happened ------------------------------------------------------

  /** A requirement of this request, named by its first Cause, with this key. */
  ghost predicate ClaimsKey(r: Record, claim: Claim) {
    r.kind == Requirement && r.data.RequirementData? && r.data.key == claim.1 && FirstNames(r.refs, Cause, claim.0)
  }

  /** A retraction of something that claimed the key. */
  ghost predicate FreesKey(h: seq<Record>, r: Record, claim: Claim) {
    exists k :: 0 <= k < |h| && ClaimsKey(h[k], claim) && Retracts(r, h[k].id)
  }

  ghost predicate ClaimedSince(h: seq<Record>, claim: Claim, i: nat) {
    && i < |h| && ClaimsKey(h[i], claim)
    && forall j :: i < j < |h| ==> !FreesKey(h, h[j], claim)
  }

  /** Some requirement claimed the key, and since then none that ever did was retracted. */
  ghost predicate KeyTaken(h: seq<Record>, claim: Claim) {
    exists i: nat :: ClaimedSince(h, claim, i)
  }

  lemma ClaimMeans(r: Record, claim: Claim)
    ensures ClaimOf(r) == Some(claim) <==> ClaimsKey(r, claim)
  {
    TargetsMean(r.refs, Cause);
    hide FirstNames;
  }

  lemma FreesOne(g: seq<Record>, q: Record, r: Record, claim: Claim)
    requires !ClaimsKey(r, claim)
    ensures FreesKey(g + [r], q, claim) <==> FreesKey(g, q, claim)
  {
    hide ClaimsKey;
    if k :| 0 <= k < |g| && ClaimsKey(g[k], claim) && Retracts(q, g[k].id) {
      assert (g + [r])[k] == g[k];
    }
  }

  lemma TakenGrows(g: seq<Record>, r: Record, claim: Claim)
    ensures KeyTaken(g + [r], claim) <==> ClaimsKey(r, claim) || (KeyTaken(g, claim) && !FreesKey(g, r, claim))
  {
    hide ClaimsKey, FreesKey;
    var h := g + [r];
    assert h[|g|] == r;
    if ClaimsKey(r, claim) {
      assert ClaimedSince(h, claim, |g|);
    } else {
      forall q: Record
        ensures FreesKey(h, q, claim) <==> FreesKey(g, q, claim)
      {
        FreesOne(g, q, r, claim);
      }
      if i: nat :| ClaimedSince(h, claim, i) {
        assert forall j :: i < j < |g| ==> h[j] == g[j];
        assert ClaimedSince(g, claim, i);
      }
      if i: nat :| ClaimedSince(g, claim, i) {
        assert forall j :: i < j < |g| ==> h[j] == g[j];
        assert !FreesKey(g, r, claim) ==> ClaimedSince(h, claim, i);
      }
    }
  }

  /** A retraction frees exactly the key its target is indexed under. */
  lemma FreesIndexed(g: seq<Record>, r: Record, index: map<Id, Claim>, claim: Claim)
    requires IndexExactly(g, ClaimOf, index)
    ensures FreesKey(g, r, claim) <==>
              RetractionTarget(r).Some? && RetractionTarget(r).value in index
                  && index[RetractionTarget(r).value] == claim
  {
    hide ClaimOf, ClaimsKey;
    forall q: Record
      ensures ClaimOf(q) == Some(claim) <==> ClaimsKey(q, claim)
    {
      ClaimMeans(q, claim);
    }
    if RetractionTarget(r).Some? {
      var t := RetractionTarget(r).value;
      assert Keyed(g, ClaimOf, t, claim) <==> t in index && index[t] == claim;
    }
  }

  /** In every reachable state, stolen keys included: a key is recorded as taken exactly when
      some requirement claimed it and no claimant of it was retracted since. */
  lemma {:induction false} KeysFollowTheHistory(h: seq<Record>, claim: Claim)
    requires Reachable(h)
    ensures Taken(Fold(h).requirementKeys, claim) <==> KeyTaken(h, claim)
  {
    hide GoodStep, Apply, KeyTaken, ClaimsKey, FreesKey, ClaimOf, Taken, IndexExactly, RetractionTarget;
    if h == [] {
      NothingTaken(claim);
    } else {
      var g, r := h[..|h| - 1], h[|h| - 1];
      assert h == g + [r];
      KeysFollowTheHistory(g, claim);
      var s := Fold(g);
      Projects(s, r);
      ClaimsAreIndexed(g);
      FreesIndexed(g, r, s.requirementIndex, claim);
      ClaimMeans(r, claim);
      TakenGrows(g, r, claim);
      ClaimsApart(r);
      NotRetraction(r);
      var t := RetractionTarget(r);
      if t.Some? && t.value in s.requirementIndex {
        TakenAfterRelease(s.requirementKeys, s.requirementIndex[t.value], claim);
      } else if ClaimOf(r).Some? {
        TakenAfterClaim(s.requirementKeys, ClaimOf(r).value, claim);
      }
    }
  }

  lemma NothingTaken(claim: Claim)
    ensures !Taken(map[], claim) && !KeyTaken([], claim)
  {
  }

  // ----- Over runs -------------------------------------------------------------------------------

  /** If the recorded keys are right, the next accepted record leaves them right exactly
      when it does not steal one. */
  lemma KeysStep(g: seq<Record>, r: Record)
    requires Reachable(g) && GoodStep(Fold(g), r)
    requires KeysExactly(g, Fold(g).requirementKeys) && HeldOnce(g)
    ensures KeysExactly(g + [r], Fold(g + [r]).requirementKeys) <==> !Steals(Fold(g), r)
    ensures HeldOnce(g + [r])
  {
    hide GoodStep, Apply, Fold, NextFits, ClaimOf, RetractionTarget, Taken, KeysExactly, HeldOnce, Reachable;
    var s := Fold(g);
    FoldStep(g, r);
    Projects(s, r);
    GoodNextFits(g, r);
    ClaimsAreIndexed(g);
    IndexIsExact(g);
    ClaimsApart(r);
    GoodClaim(s, r);
    if RetractionTarget(r).Some? {
      RetractStep(g, r, s.requirementKeys, s.requirementIndex);
    } else if ClaimOf(r).Some? {
      ClaimStep(g, r, s.requirementKeys);
    } else {
      IdleStep(g, r, s.requirementKeys);
    }
  }

  lemma GoodClaim(s: State, r: Record)
    requires GoodStep(s, r)
    ensures ClaimOf(r).Some? ==> !Taken(s.requirementKeys, ClaimOf(r).value)
  {
  }

  ghost predicate KeysRight(h: seq<Record>) {
    KeysExactly(h, Fold(h).requirementKeys) && HeldOnce(h)
  }

  /** No record of the run stole a key where it was accepted. */
  ghost predicate NeverSteals(h: seq<Record>) {
    h == [] || (NeverSteals(h[..|h| - 1]) && !Steals(Fold(h[..|h| - 1]), h[|h| - 1]))
  }

  /** The recorded keys were right after every record of the run. */
  ghost predicate AlwaysRight(h: seq<Record>) {
    KeysRight(h) && (h != [] ==> AlwaysRight(h[..|h| - 1]))
  }

  /** Over a whole run the recorded keys are right throughout if and only if no retraction
      of the run repeats a target whose key is taken again. */
  lemma {:induction false} KeysRightIffNeverStolen(h: seq<Record>)
    requires Reachable(h)
    ensures AlwaysRight(h) <==> NeverSteals(h)
  {
    hide GoodStep, Fold, KeysExactly, HeldOnce, Steals;
    if h == [] {
      RightAtFirst();
    } else {
      var g, r := h[..|h| - 1], h[|h| - 1];
      assert h == g + [r];
      KeysRightIffNeverStolen(g);
      if KeysRight(g) {
        KeysStep(g, r);
      }
    }
  }

  lemma RightAtFirst()
    ensures KeysRight([])
  {
    assert Fold([]) == EMPTY_STATE;
    forall x, claim
      ensures !Keyed([], ClaimOf, x, claim)
    {
    }
  }
}
