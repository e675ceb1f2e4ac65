// On a verified log the index and the running state say exactly what the log says.
module Reflections {
  import opened Records
  import opened LedgerState
  import opened Rules
  import opened Checks
  import opened Ledger
  import opened Replay
  import opened Facts
  import opened Histories
  import opened Taint
  import opened Reachability
  import opened Slots
  import opened Conversations
  import opened Approvals
  import RequirementKeys
  import opened Pasts
  import opened Rulings

  /** The id names what the index finds. */
  lemma NamesAgree(log: seq<Record>, id: Id)
    ensures Find(PriorOf(log), id) == PastOf(log).Named(id)
    ensures PastOf(log).Named(id).Some? ==> PastOf(log).Named(id).value.id == id
  {
    hide AcceptedOf, PriorOf;
    PriorFindsFirst(log, id);
    if id in PriorOf(log).byId {
      var i :| 0 <= i < |log| && log[i] == PriorOf(log).byId[id] && log[i].id == id
               && forall j :: 0 <= j < i ==> log[j].id != id;
      assert NamedAt(log, id, i);
      OneNamed(log, id);
    }
  }

  lemma OneNamed(log: seq<Record>, id: Id)
    ensures forall i: nat, j: nat :: NamedAt(log, id, i) && NamedAt(log, id, j) ==> i == j
  {
  }

  lemma NamesReflect(log: seq<Record>)
    ensures SameNames(PastOf(log), PriorOf(log))
  {
    hide AcceptedOf, PriorOf, Past.Named;
    forall id: Id
      ensures Find(PriorOf(log), id) == PastOf(log).Named(id)
      ensures PastOf(log).Named(id).Some? ==> PastOf(log).Named(id).value.id == id
    {
      NamesAgree(log, id);
    }
  }

  lemma StandingReflects(log: seq<Record>)
    requires |log| % 2 == 0
    ensures SameStanding(PastOf(log), StateOf(log))
  {
    hide StateOf, AcceptedOf, Fold;
    var h := AcceptedOf(log);
    StateIsFold(log);
    IndexIsExact(h);
    forall id: Id
      ensures id in StateOf(log).accepted <==> PastOf(log).Accepted(id)
      ensures Withdrawn(StateOf(log), id) <==> PastOf(log).Withdrawn(id)
    {
      AcceptedIds(h, id);
      TaintIsExact(h, id);
    }
  }

  // ----- Work -------------------------------------------------------------------------------------

  lemma ActionsReflect(h: seq<Record>, a: Id)
    requires Reachable(h)
    ensures a in Fold(h).openActions <==> (exists x :: ActsFor(h, a, x)) && !ClosedAction(h, a)
  {
    hide Fold, ActsFor, ClosedAction;
    ActionsAreDeclarative(h);
    if a in Fold(h).actionToRequest {
      assert ActsFor(h, a, Fold(h).actionToRequest[a]);
    }
  }

  lemma BusyReflects(h: seq<Record>, x: Id)
    requires Reachable(h)
    ensures Count(Fold(h).openActionCount, x) > 0 <==> exists a :: ActsFor(h, a, x) && !ClosedAction(h, a)
  {
    hide Fold, ActsFor, ClosedAction;
    ActionsAreDeclarative(h);
    CountsAreDeclarative(h);
    var s := Fold(h);
    var under := OpenUnder(s.openActions, s.actionToRequest, x);
    assert Count(s.openActionCount, x) == |under|;
    if a :| ActsFor(h, a, x) && !ClosedAction(h, a) {
      assert a in under;
    }
    if |under| > 0 {
      var a :| a in under;
      assert ActsFor(h, a, x) && !ClosedAction(h, a);
    }
  }

  lemma PlansReflect(p: Past, x: Id)
    requires Reachable(p.accepted)
    ensures x in Fold(p.accepted).activePlans <==> p.Planned(x)
  {
    hide Fold;
    var h := p.accepted;
    if x in Fold(h).activePlans {
      PlansAreDeclarative(h, x, Fold(h).activePlans[x]);
    }
    if p.Planned(x) {
      var plan :| PlanInForce(h, x, plan);
      PlansAreDeclarative(h, x, plan);
    }
  }

  lemma WorkReflects(log: seq<Record>)
    requires |log| % 2 == 0 && Reachable(AcceptedOf(log))
    ensures SameWork(PastOf(log), StateOf(log))
  {
    hide StateOf, AcceptedOf, Fold, Reachable;
    var h := AcceptedOf(log);
    StateIsFold(log);
    RequestsAreDeclarative(h);
    forall x: Id
      ensures x in StateOf(log).activeRequests <==> PastOf(log).Active(x)
      ensures x in StateOf(log).openActions <==> PastOf(log).Open(x)
      ensures Count(StateOf(log).openActionCount, x) > 0 <==> PastOf(log).Busy(x)
      ensures Count(StateOf(log).responseTurns, x) == PastOf(log).Turns(x)
      ensures x in StateOf(log).activePlans <==> PastOf(log).Planned(x)
    {
      hide IsRequest, Ended, ActsFor, ClosedAction, Past.Planned;
      ActionsReflect(h, x);
      BusyReflects(h, x);
      TurnsAreDeclarative(h, x);
      assert PastOf(log).Turns(x) == Conversations.Turns(h, x);
      PlansReflect(PastOf(log), x);
    }
  }

  lemma KeysReflect(log: seq<Record>)
    requires |log| % 2 == 0 && Reachable(AcceptedOf(log))
    ensures SameKeys(PastOf(log), StateOf(log))
  {
    hide StateOf, AcceptedOf, Fold, Reachable, RequirementKeys.KeyTaken;
    StateIsFold(log);
    forall x: Id, key: string
      ensures key in Members(StateOf(log).requirementKeys, x) <==> PastOf(log).KeyTaken(x, key)
    {
      RequirementKeys.KeysFollowTheHistory(AcceptedOf(log), (x, key));
    }
  }

  // ----- Grants ---------------------------------------------------------------------------------------

  /** The last record a predicate picks is the latest one with the key it stands for. */
  lemma LastIsLatest<K>(h: seq<Record>, p: Record -> bool, keyOf: Record -> Option<K>, k: K, i: nat)
    requires forall r :: p(r) <==> keyOf(r) == Some(k)
    ensures LastSuch(h, p, i) <==> LatestAt(h, keyOf, k, i)
  {
  }

  lemma OneLast(h: seq<Record>, p: Record -> bool)
    ensures forall i: nat, j: nat :: LastSuch(h, p, i) && LastSuch(h, p, j) ==> i == j
  {
  }

  lemma InForceMeans<K>(log: seq<Record>, p: Record -> bool, keyOf: Record -> Option<K>, k: K, x: Id)
    requires forall r :: p(r) <==> keyOf(r) == Some(k)
    ensures var found := PastOf(log).InForce(p);
            && ((found.Some? && found.value.id == x) <==>
                  Latest(AcceptedOf(log), keyOf, k, x) && !IsRetracted(AcceptedOf(log), x))
            && (found.Some? ==> found.value in AcceptedOf(log) && p(found.value))
  {
    hide AcceptedOf, IsRetracted, LastSuch, LatestAt;
    var h := AcceptedOf(log);
    forall i: nat
      ensures LastSuch(h, p, i) <==> LatestAt(h, keyOf, k, i)
    {
      LastIsLatest(h, p, keyOf, k, i);
    }
    OneLast(h, p);
    forall i: nat | LastSuch(h, p, i)
      ensures i < |h| && p(h[i])
    {
      LastInside(h, p, i);
    }
  }

  lemma LastInside(h: seq<Record>, p: Record -> bool, i: nat)
    requires LastSuch(h, p, i)
    ensures i < |h| && p(h[i])
  {
  }

  /** An accepted record is the one its id names. */
  lemma AcceptedIsNamed(c: Crypto, rules: Rules, log: seq<Record>, r: Record)
    requires LawfulLog(c, rules, log) && r in AcceptedOf(log)
    ensures PastOf(log).Named(r.id) == Some(r) && r.id in StateOf(log).accepted
    ensures exists i: nat :: AcceptedAt(log, i) && log[i] == r
  {
    hide Lawful, RegimeOf, StateOf, AcceptedOf, PriorOf, Past.Named;
    RegimeHolds(c, rules);
    VerifiedIsPaired(RegimeOf(c, rules), log);
    HistoryMember(log, r);
    var i: nat :| AcceptedAt(log, i) && log[i] == r;
    AcceptedHere(log, i);
    IdsAreUnique(RegimeOf(c, rules), log);
    PriorAt(log, i);
    NamesAgree(log, r.id);
  }

  predicate Slotted<K>(slots: map<K, Id>, k: K, x: Id) {
    k in slots && slots[k] == x
  }

  /** A slot that holds the latest unretracted grant holds what the log says is in force. */
  lemma SlotReflects<K>(c: Crypto, rules: Rules, log: seq<Record>, slots: map<K, Id>, keyOf: Record -> Option<K>, k: K,
                        p: Record -> bool, found: Option<Record>)
    requires LawfulLog(c, rules, log) && forall r :: p(r) <==> keyOf(r) == Some(k)
    requires forall x :: Slotted(slots, k, x) <==> found.Some? && found.value.id == x
    requires found.Some? ==> found == PastOf(log).InForce(p)
    ensures Holds(PriorOf(log), StateOf(log), slots, k, found)
    ensures found.Some? ==> p(found.value)
  {
    hide Lawful, RegimeOf, StateOf, AcceptedOf, PriorOf, Past.Named, Past.InForce;
    if found.Some? {
      InForceMeans(log, p, keyOf, k, found.value.id);
      AcceptedIsNamed(c, rules, log, found.value);
      NamesAgree(log, found.value.id);
      assert Slotted(slots, k, found.value.id);
    }
    if k in slots {
      assert Slotted(slots, k, slots[k]);
    }
  }

  lemma CapabilitiesReflect(c: Crypto, rules: Rules, log: seq<Record>)
    requires LawfulLog(c, rules, log) && |log| % 2 == 0 && Reachable(AcceptedOf(log))
    ensures SameCapabilities(PastOf(log), PriorOf(log), StateOf(log))
  {
    hide Lawful, RegimeOf, StateOf, AcceptedOf, PriorOf, Fold, Reachable, Past.InForce, Holds, Latest, IsRetracted;
    var h, slots := AcceptedOf(log), StateOf(log).activeCapabilities;
    StateIsFold(log);
    CapabilitiesAreDeclarative(h);
    forall a: string, k: string, n: nat
      ensures Holds(PriorOf(log), StateOf(log), slots, (a, k, n), PastOf(log).CapabilityFor(a, k, n))
      ensures PastOf(log).CapabilityFor(a, k, n).Some? ==> PastOf(log).CapabilityFor(a, k, n).value.data.CapabilityData?
    {
      var p := r => Grants(r, a, k, n);
      var found := PastOf(log).InForce(p);
      assert found == PastOf(log).CapabilityFor(a, k, n);
      forall x: Id
        ensures Slotted(slots, (a, k, n), x) <==> found.Some? && found.value.id == x
      {
        InForceMeans(log, p, CapabilityKeyOf, (a, k, n), x);
      }
      SlotReflects(c, rules, log, slots, CapabilityKeyOf, (a, k, n), p, found);
    }
  }

  lemma ClassApprovalsReflect(c: Crypto, rules: Rules, log: seq<Record>)
    requires LawfulLog(c, rules, log) && |log| % 2 == 0 && Reachable(AcceptedOf(log))
    ensures SameClassApprovals(PastOf(log), PriorOf(log), StateOf(log))
  {
    hide Lawful, RegimeOf, StateOf, AcceptedOf, PriorOf, Fold, Reachable, Past.InForce, Holds, Latest, IsRetracted;
    var h, slots := AcceptedOf(log), StateOf(log).classApprovals;
    StateIsFold(log);
    Slots.ClassApprovalsAreDeclarative(h);
    forall k: string, n: nat, a: Option<string>
      ensures Holds(PriorOf(log), StateOf(log), slots, (k, n, a), PastOf(log).ClassApprovalFor(k, n, a))
      ensures PastOf(log).ClassApprovalFor(k, n, a).Some? ==>
                PastOf(log).ClassApprovalFor(k, n, a).value.data.ApprovalData?
    {
      var p := r => ApprovesClass(r, k, n, a);
      var found := PastOf(log).InForce(p);
      assert found == PastOf(log).ClassApprovalFor(k, n, a);
      forall x: Id
        ensures Slotted(slots, (k, n, a), x) <==> found.Some? && found.value.id == x
      {
        InForceMeans(log, p, ClassKeyOf, (k, n, a), x);
      }
      SlotReflects(c, rules, log, slots, ClassKeyOf, (k, n, a), p, found);
    }
  }

  /** An approval is used up by its subject, as the history of its slot says. */
  lemma UseMeans(h: seq<Record>, x: Id, j: nat)
    ensures UsesUp(h, x, j) <==> SpentAt(h, x, j)
  {
    if j < |h| {
      var r, g := h[j], h[..j];
      forall s: Subject
        ensures IsSubject(r, s) <==> SubjectOf(r) == Some(s)
      {
        SubjectMeans(r, s);
      }
      hide IsSubject, SubjectOf, ExactSubjectOf, Approves;
      forall s: Subject, i: nat
        ensures LastSuch(g, r => Approves(r, s), i) <==> LatestAt(g, ExactSubjectOf, s, i)
      {
        ApproverMeans(s);
        LastIsLatest(g, r => Approves(r, s), ExactSubjectOf, s, i);
      }
      hide LastSuch, LatestAt;
    }
  }

  lemma ApproverMeans(s: Subject)
    ensures forall r :: Approves(r, s) <==> ExactSubjectOf(r) == Some(s)
  {
  }

  lemma UsedUpMeans(log: seq<Record>, x: Id)
    ensures PastOf(log).UsedUp(x) <==> Spent(AcceptedOf(log), x)
  {
    hide UsesUp, SpentAt, AcceptedOf;
    forall j: nat
      ensures UsesUp(AcceptedOf(log), x, j) <==> SpentAt(AcceptedOf(log), x, j)
    {
      UseMeans(AcceptedOf(log), x, j);
    }
  }

  lemma ApprovalsReflect(c: Crypto, rules: Rules, log: seq<Record>)
    requires LawfulLog(c, rules, log) && |log| % 2 == 0 && Reachable(AcceptedOf(log))
    ensures SameApprovals(PastOf(log), PriorOf(log), StateOf(log))
  {
    hide Lawful, RegimeOf, StateOf, AcceptedOf, PriorOf, Fold, Reachable, Past.InForce, Past.UsedUp, Holds, Latest,
         IsRetracted, Spent;
    var h, slots := AcceptedOf(log), StateOf(log).validApprovals;
    StateIsFold(log);
    ApprovalsAreDeclarative(h);
    forall k: Subject
      ensures Holds(PriorOf(log), StateOf(log), slots, k, PastOf(log).ExactApprovalFor(k))
      ensures PastOf(log).ExactApprovalFor(k).Some? ==> PastOf(log).ExactApprovalFor(k).value.data.ApprovalData?
    {
      var p := r => Approves(r, k);
      var latest, found := PastOf(log).InForce(p), PastOf(log).ExactApprovalFor(k);
      assert found == if latest.Some? && PastOf(log).UsedUp(latest.value.id) then None else latest;
      ApproverMeans(k);
      forall x: Id
        ensures Slotted(slots, k, x) <==> found.Some? && found.value.id == x
      {
        InForceMeans(log, p, ExactSubjectOf, k, x);
        UsedUpMeans(log, x);
      }
      SlotReflects(c, rules, log, slots, ExactSubjectOf, k, p, found);
    }
  }

  // ----- What is accepted fits ---------------------------------------------------------------------

  lemma BatteryShapes(rules: Rules, prior: Prior, s: State, r: Record)
    requires BatteryHolds(rules, prior, s, r)
    ensures Shaped(r) && (r.kind == Action ==> r.data.ActionData?)
  {
    hide CheckRefs, CheckReplacement, CheckKind, ExpectedEvidence, CarriesCycle;
  }

  lemma AcceptedAreShaped(c: Crypto, rules: Rules, log: seq<Record>)
    requires LawfulLog(c, rules, log) && |log| % 2 == 0
    ensures AcceptedFit(PastOf(log))
  {
    hide Lawful, RegimeOf, StateOf, AcceptedOf, PriorOf, Past.Named, BatteryHolds, Shaped;
    var p := PastOf(log);
    forall r | r in p.accepted
      ensures p.Named(r.id) == Some(r) && Shaped(r)
    {
      AcceptedIsNamed(c, rules, log, r);
      var i: nat :| AcceptedAt(log, i) && log[i] == r;
      AcceptedPassedAt(c, rules, log, i);
      BatteryShapes(rules, PriorOf(log[..i]), StateOf(log[..i]), log[i]);
    }
    forall id | p.Open(id)
      ensures p.Named(id).Some? && p.Named(id).value.data.ActionData?
    {
      var x :| ActsFor(p.accepted, id, x);
      var i :| 0 <= i < |p.accepted| && p.accepted[i].id == id && WorksFor(p.accepted[i], x);
      assert p.accepted[i] in p.accepted;
    }
    forall id | p.Accepted(id)
      ensures p.Named(id).Some? && Shaped(p.Named(id).value)
    {
      var i :| 0 <= i < |p.accepted| && p.accepted[i].id == id;
      assert p.accepted[i] in p.accepted;
    }
  }

  /** On every verified log the index and the state reflect the log. */
  lemma LogReflects(c: Crypto, rules: Rules, log: seq<Record>)
    requires LawfulLog(c, rules, log)
    ensures |log| % 2 == 0 && Reflects(PastOf(log), PriorOf(log), StateOf(log))
  {
    hide Lawful, RegimeOf, StateOf, AcceptedOf, PriorOf, Reachable, SameNames, SameStanding, SameWork, SameKeys,
         SameCapabilities, SameApprovals, SameClassApprovals, AcceptedFit;
    VerifiedIsPaired(RegimeOf(c, rules), log);
    VerifiedIsReachable(c, rules, log);
    NamesReflect(log);
    StandingReflects(log);
    WorkReflects(log);
    KeysReflect(log);
    CapabilitiesReflect(c, rules, log);
    ApprovalsReflect(c, rules, log);
    ClassApprovalsReflect(c, rules, log);
    AcceptedAreShaped(c, rules, log);
  }
}
