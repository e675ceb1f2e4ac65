// The state as the program keeps it: one object whose fields every accepted record
// updates in place. Each method is tied to the index functions of LedgerState.
module LiveStates {
  import opened Records
  import opened LedgerState

  /** The members of a set in some order. */
  method Enumerate(s: set<Id>) returns (xs: seq<Id>)
    ensures forall x :: x in xs <==> x in s
    ensures |xs| == |s|
  {
    var rest := s;
    xs := [];
    while rest != {}
      invariant rest <= s
      invariant forall x :: x in xs <==> x in s - rest
      invariant |xs| + |rest| == |s|
      decreases |rest|
    {
      var x :| x in rest;
      rest := rest - {x};
      xs := xs + [x];
    }
  }

  class LiveState {
    var accepted: set<Id>
    var activeRequests: set<Id>
    var activeCapabilities: map<CapabilityKey, Id>
    var validApprovals: map<Subject, Id>
    var classApprovals: map<ClassKey, Id>
    var openActions: set<Id>
    var actionToRequest: map<Id, Id>
    var replaced: set<Id>
    var openActionCount: map<Id, nat>
    var activePlans: map<Id, Id>
    var responseTurns: map<Id, nat>
    var capabilityIndex: map<Id, CapabilityKey>
    var exactApprovalIndex: map<Id, Subject>
    var classApprovalIndex: map<Id, ClassKey>
    var retracted: set<Id>
    var tainted: set<Id>
    var dependents: map<Id, set<Id>>
    var requirementKeys: map<Id, set<string>>
    var requirementIndex: map<Id, (Id, string)>
    var appliedUpTo: nat

    /** The fields taken together, as a value. */
    function Now(): State
      reads this
    {
      State(accepted, activeRequests, activeCapabilities, validApprovals, classApprovals, openActions, actionToRequest,
            replaced, openActionCount, activePlans, responseTurns, capabilityIndex, exactApprovalIndex,
            classApprovalIndex, retracted, tainted, dependents, requirementKeys, requirementIndex, appliedUpTo)
    }

    constructor ()
      ensures Now() == EMPTY_STATE
    {
      accepted, activeRequests, openActions, replaced, retracted, tainted := {}, {}, {}, {}, {}, {};
      activeCapabilities, validApprovals, classApprovals := map[], map[], map[];
      actionToRequest, openActionCount, activePlans, responseTurns := map[], map[], map[], map[];
      capabilityIndex, exactApprovalIndex, classApprovalIndex := map[], map[], map[];
      dependents, requirementKeys, requirementIndex, appliedUpTo := map[], map[], map[], 0;
    }

    /** Fold one judged record. `ok` is false when an accepted record's payload does not
        decode for its kind; the fold then stops after the kind-independent part. */
    method ApplyRecord(r: Record, j: Judgment) returns (ok: bool)
      modifies this
      ensures Now() == ApplyJudged(old(Now()), r, j)
      ensures ok <==> j.Accept? ==> FitsKind(r.kind, r.data)
    {
      ok := true;
      if j.Accept? {
        ok := ApplyAccepted(r);
      }
    }

    method AdvanceTo(time: nat)
      modifies this`appliedUpTo
      ensures Now() == old(Now()).(appliedUpTo := time)
    {
      appliedUpTo := time;
    }

    method ApplyAccepted(r: Record) returns (ok: bool)
      modifies this
      ensures Now() == Apply(old(Now()), r)
      ensures ok <==> FitsKind(r.kind, r.data)
    {
      hide ApplyKind, TaintedOnEntry, DependentsAfter, FitsKind;
      accepted := accepted + {r.id};
      EnterDependence(r);
      assert Now() == Enter(old(Now()), r);
      ok := FitsKind(r.kind, r.data);
      if !ok {
        MisfitChangesNothing(Now(), r);
      } else {
        ApplyFitting(r);
      }
    }

    /** The kind-dependent part: each kind updates its own indexes and no others. */
    method ApplyFitting(r: Record)
      requires FitsKind(r.kind, r.data)
      modifies this
      ensures Now() == ApplyKind(old(Now()), r)
    {
      hide ApplyKind, FitsKind;
      match r.kind {
        case Request => ApplyRequest(r);
        case Plan => ApplyPlan(r);
        case Response => ApplyResponse(r);
        case Action => ApplyAction(r);
        case Result => ApplyResult(r);
        case Refusal => ApplyRefusal(r);
        case Capability => ApplyCapability(r);
        case Approval => ApplyApproval(r);
        case Selection => ApplySelection(r);
        case Retraction => ApplyRetraction(r);
        case Requirement => ApplyRequirement(r);
        case _ => ApplyQuiet(r);
      }
    }

    // ----- Kind by kind: the fields the kind updates are all that changes ----------------------

    method ApplyRequest(r: Record)
      requires r.kind == Request && FitsKind(r.kind, r.data)
      modifies this
      ensures Now() == ApplyKind(old(Now()), r)
    {
      ConversationTouches(Now(), r);
      hide ApplyKind, FitsKind, ReplacedAfter, ActiveRequestsAfter, ActivePlansAfter, ResponseTurnsAfter;
      Activate(r);
    }

    method ApplyPlan(r: Record)
      requires r.kind == Plan && FitsKind(r.kind, r.data)
      modifies this
      ensures Now() == ApplyKind(old(Now()), r)
    {
      ConversationTouches(Now(), r);
      hide Now, ApplyKind, FitsKind, ReplacedAfter, ActiveRequestsAfter, ActivePlansAfter, ResponseTurnsAfter;
      MarkReplaced(r);
      Follow(r);
    }

    method ApplyResponse(r: Record)
      requires r.kind == Response && FitsKind(r.kind, r.data)
      modifies this
      ensures Now() == ApplyKind(old(Now()), r)
    {
      ConversationTouches(Now(), r);
      hide ApplyKind, FitsKind, ReplacedAfter, ActiveRequestsAfter, ActivePlansAfter, ResponseTurnsAfter;
      TakeTurn(r);
    }

    method ApplyAction(r: Record)
      requires r.kind == Action && FitsKind(r.kind, r.data)
      modifies this
      ensures Now() == ApplyKind(old(Now()), r)
    {
      ActivityTouches(Now(), r);
      hide Now, ApplyKind, FitsKind, ValidApprovalsAfter, ExactApprovalIndexAfter, OpenActionsAfter,
           ActionToRequestAfter, OpenActionCountAfter, ActiveRequestsAfter, ActivePlansAfter;
      ConsumeApproval(r);
      OpenAction(r);
    }

    method ApplyResult(r: Record)
      requires r.kind == Kind.Result && FitsKind(r.kind, r.data)
      modifies this
      ensures Now() == ApplyKind(old(Now()), r)
    {
      ActivityTouches(Now(), r);
      hide ApplyKind, FitsKind, ValidApprovalsAfter, ExactApprovalIndexAfter, OpenActionsAfter, ActionToRequestAfter,
           OpenActionCountAfter, ActiveRequestsAfter, ActivePlansAfter;
      CloseAction(r);
    }

    method ApplyRefusal(r: Record)
      requires r.kind == Refusal && FitsKind(r.kind, r.data)
      modifies this
      ensures Now() == ApplyKind(old(Now()), r)
    {
      ActivityTouches(Now(), r);
      hide ApplyKind, FitsKind, ValidApprovalsAfter, ExactApprovalIndexAfter, OpenActionsAfter, ActionToRequestAfter,
           OpenActionCountAfter, ActiveRequestsAfter, ActivePlansAfter;
      Refuse(r);
    }

    method ApplyCapability(r: Record)
      requires r.kind == Capability && FitsKind(r.kind, r.data)
      modifies this
      ensures Now() == ApplyKind(old(Now()), r)
    {
      AuthorityTouches(Now(), r);
      hide Now, ApplyKind, FitsKind, ReplacedAfter, ValidApprovalsAfter, ExactApprovalIndexAfter,
           ActiveCapabilitiesAfter, ClassApprovalsAfter, IndexBy, CapabilityKeyOf, ClassKeyOf;
      MarkReplaced(r);
      Grant(r);
    }

    method ApplyApproval(r: Record)
      requires r.kind == Approval && FitsKind(r.kind, r.data)
      modifies this
      ensures Now() == ApplyKind(old(Now()), r)
    {
      AuthorityTouches(Now(), r);
      hide Now, ApplyKind, FitsKind, ReplacedAfter, ValidApprovalsAfter, ExactApprovalIndexAfter,
           ActiveCapabilitiesAfter, ClassApprovalsAfter, IndexBy, CapabilityKeyOf, ClassKeyOf;
      MarkReplaced(r);
      ApproveSubject(r);
      ApproveClass(r);
    }

    method ApplySelection(r: Record)
      requires r.kind == Selection && FitsKind(r.kind, r.data)
      modifies this
      ensures Now() == ApplyKind(old(Now()), r)
    {
      AuthorityTouches(Now(), r);
      hide Now, ApplyKind, FitsKind, ReplacedAfter, ValidApprovalsAfter, ExactApprovalIndexAfter,
           ActiveCapabilitiesAfter, ClassApprovalsAfter, IndexBy, CapabilityKeyOf, ClassKeyOf;
      MarkReplaced(r);
      ConsumeApproval(r);
    }

    /** Withdraw a record: taint what rests on it, end what it authorized, free its key. */
    method ApplyRetraction(r: Record)
      requires r.kind == Retraction && FitsKind(r.kind, r.data)
      modifies this
      ensures Now() == ApplyKind(old(Now()), r)
    {
      RetractionTouches(Now(), r);
      hide Now, ApplyKind, FitsKind, Spread, Vacate, Lookup, Released, Members;
      MarkRetracted(r.data.targetId);
      TaintDependents(r.data.targetId);
      VacateCapability(r.data.targetId);
      VacateExact(r.data.targetId);
      VacateClass(r.data.targetId);
      ReleaseKey(r.data.targetId);
    }

    method ApplyRequirement(r: Record)
      requires r.kind == Requirement && FitsKind(r.kind, r.data)
      modifies this
      ensures Now() == ApplyKind(old(Now()), r)
    {
      RequirementTouches(Now(), r);
      hide ApplyKind, FitsKind, RequirementKeysAfter, IndexBy, ClaimOf;
      HoldKey(r);
    }

    /** Kinds that touch no index, except that a Summary may supersede another. */
    method ApplyQuiet(r: Record)
      requires FitsKind(r.kind, r.data) && r.kind in {Summary, Usage, Kind.Verdict, Candidate, Evaluation}
      modifies this`replaced
      ensures Now() == ApplyKind(old(Now()), r)
    {
      QuietTouches(Now(), r);
      hide ApplyKind, ReplacedAfter, FitsKind;
      if r.kind == Summary {
        MarkReplaced(r);
      }
    }

    // ----- The updates themselves -------------------------------------------------------------

    method Activate(r: Record)
      requires r.kind == Request
      modifies this`activeRequests
      ensures activeRequests == ActiveRequestsAfter(old(activeRequests), r)
    {
      activeRequests := activeRequests + {r.id};
    }

    method Follow(r: Record)
      requires r.kind == Plan && FitsKind(r.kind, r.data)
      modifies this`activePlans
      ensures Now() == old(Now()).(activePlans := ActivePlansAfter(old(activePlans), r))
    {
      if r.data.planStatus.PlanRunning? {
        activePlans := activePlans[r.data.requestId := r.id];
      } else {
        activePlans := activePlans - {r.data.requestId};
      }
    }

    method TakeTurn(r: Record)
      requires r.kind == Response && FitsKind(r.kind, r.data)
      modifies this`responseTurns, this`activeRequests, this`activePlans
      ensures responseTurns == ResponseTurnsAfter(old(responseTurns), r)
      ensures activeRequests == ActiveRequestsAfter(old(activeRequests), r)
      ensures activePlans == ActivePlansAfter(old(activePlans), r)
    {
      var turns := Count(responseTurns, r.data.requestId);
      turns := if turns < U32_MAX then turns + 1 else U32_MAX;
      responseTurns := responseTurns[r.data.requestId := turns];
      if r.data.closesRequest {
        activeRequests := activeRequests - {r.data.requestId};
        activePlans := activePlans - {r.data.requestId};
      }
    }

    method OpenAction(r: Record)
      requires r.kind == Action && FitsKind(r.kind, r.data)
      modifies this`openActions, this`actionToRequest, this`openActionCount
      ensures Now() == old(Now()).(
        openActions := OpenActionsAfter(old(openActions), r),
        actionToRequest := ActionToRequestAfter(old(actionToRequest), r),
        openActionCount := OpenActionCountAfter(old(openActionCount), old(actionToRequest), r))
    {
      var request := r.data.requestId;
      openActions := openActions + {r.id};
      actionToRequest := actionToRequest[r.id := request];
      openActionCount := openActionCount[request := Count(openActionCount, request) + 1];
    }

    /** A Result, or the Refusal of an action, closes that action. */
    method CloseAction(r: Record)
      requires ClosesAction(r).Some?
      modifies this`openActions, this`openActionCount
      ensures openActions == OpenActionsAfter(old(openActions), r)
      ensures openActionCount == OpenActionCountAfter(old(openActionCount), actionToRequest, r)
    {
      var action := ClosesAction(r).value;
      openActions := openActions - {action};
      if action in actionToRequest {
        var request := actionToRequest[action];
        if request in openActionCount {
          if openActionCount[request] <= 1 {
            openActionCount := openActionCount - {request};
          } else {
            openActionCount := openActionCount[request := openActionCount[request] - 1];
          }
        }
      }
    }

    method Refuse(r: Record)
      requires r.kind == Refusal && FitsKind(r.kind, r.data)
      modifies this`openActions, this`openActionCount, this`activeRequests, this`activePlans
      ensures openActions == OpenActionsAfter(old(openActions), r)
      ensures openActionCount == OpenActionCountAfter(old(openActionCount), actionToRequest, r)
      ensures activeRequests == ActiveRequestsAfter(old(activeRequests), r)
      ensures activePlans == ActivePlansAfter(old(activePlans), r)
    {
      match r.data.targetKind {
        case OfAction =>
          CloseAction(r);
        case OfRequest =>
          activeRequests := activeRequests - {r.data.targetId};
          activePlans := activePlans - {r.data.targetId};
        case OfVerifiedEffect =>
      }
    }

    method Grant(r: Record)
      requires r.kind == Capability && FitsKind(r.kind, r.data)
      modifies this`capabilityIndex, this`activeCapabilities
      ensures Now() == old(Now()).(
        capabilityIndex := IndexBy(old(capabilityIndex), r.id, CapabilityKeyOf(r)),
        activeCapabilities := ActiveCapabilitiesAfter(old(activeCapabilities), old(capabilityIndex), r))
    {
      var key := (r.data.actor, r.data.actionClass, r.data.scope);
      capabilityIndex := capabilityIndex[r.id := key];
      activeCapabilities := activeCapabilities[key := r.id];
    }

    method ApproveSubject(r: Record)
      requires r.kind == Approval && FitsKind(r.kind, r.data)
      modifies this`validApprovals, this`exactApprovalIndex
      ensures Now() == old(Now()).(
        validApprovals := ValidApprovalsAfter(old(validApprovals), old(exactApprovalIndex), r),
        exactApprovalIndex := ExactApprovalIndexAfter(old(validApprovals), old(exactApprovalIndex), r))
    {
      if r.data.targetAction.Some? {
        var subject := r.data.targetAction.value;
        exactApprovalIndex := exactApprovalIndex[r.id := subject];
        validApprovals := validApprovals[subject := r.id];
      }
    }

    method ApproveClass(r: Record)
      requires r.kind == Approval && FitsKind(r.kind, r.data)
      modifies this`classApprovals, this`classApprovalIndex
      ensures Now() == old(Now()).(
        classApprovals := ClassApprovalsAfter(old(classApprovals), old(classApprovalIndex), r),
        classApprovalIndex := IndexBy(old(classApprovalIndex), r.id, ClassKeyOf(r)))
    {
      if r.data.approvedClass.Some? {
        var key := (r.data.approvedClass.value, r.data.scope, r.data.approvedActor);
        classApprovalIndex := classApprovalIndex[r.id := key];
        classApprovals := classApprovals[key := r.id];
      }
    }

    /** Hold the requirement's key under the request its first Cause names. */
    method HoldKey(r: Record)
      requires r.kind == Requirement && FitsKind(r.kind, r.data)
      modifies this`requirementKeys, this`requirementIndex
      ensures requirementKeys == RequirementKeysAfter(old(requirementKeys), old(requirementIndex), r)
      ensures requirementIndex == IndexBy(old(requirementIndex), r.id, ClaimOf(r))
    {
      hide FirstTarget, Members;
      var request := FirstTarget(r.refs, Cause);
      if request.Some? {
        var keys := Members(requirementKeys, request.value) + {r.data.key};
        requirementKeys := requirementKeys[request.value := keys];
        requirementIndex := requirementIndex[r.id := (request.value, r.data.key)];
      }
    }

    /** Index the record under everything it rests on, and inherit taint. */
    method EnterDependence(r: Record)
      modifies this`dependents, this`tainted
      ensures dependents == DependentsAfter(old(dependents), r)
      ensures tainted == TaintedOnEntry(retracted, old(tainted), old(dependents), r)
    {
      ghost var before, was := dependents, tainted;
      ghost var seen: set<Id> := {};
      var inherits := false;
      var i := 0;
      IndexedNothing(before, r.id);
      while i < |r.refs|
        invariant 0 <= i <= |r.refs|
        invariant forall t :: t in seen <==> exists k :: 0 <= k < i && Epistemic(r.refs[k].kind) && r.refs[k].target == t
        invariant inherits <==> exists t :: t in seen && (t in retracted || t in was)
        invariant dependents == Indexed(before, seen, r.id) && tainted == was
      {
        var ref := r.refs[i];
        if Epistemic(ref.kind) {
          IndexedOneMore(before, seen, r.id, ref.target);
          var holders := Members(dependents, ref.target) + {r.id};
          dependents := dependents[ref.target := holders];
          if ref.target in retracted || ref.target in tainted {
            inherits := true;
          }
          seen := seen + {ref.target};
        }
        i := i + 1;
      }
      assert seen == EpistemicTargets(r);
      if inherits {
        MarkTainted(r.id);
      }
    }

    /** Taint a record and cascade along the dependence index: a worklist. */
    method MarkTainted(id: Id)
      modifies this`tainted
      ensures tainted == old(tainted) + Spread(dependents, old(tainted), {id})
    {
      hide Spread, AllDependents, Members, Cascading;
      var dep := dependents;
      ghost var blocked := tainted;
      ghost var universe := {id} + AllDependents(dep);
      var stack := [id];
      CascadeStarts(dep, blocked, id);
      while stack != []
        invariant Cascading(dep, blocked, id, tainted, stack)
        decreases universe - tainted, |stack|
      {
        CascadeTurns(dep, blocked, id, tainted, stack);
        var current := stack[|stack| - 1];
        stack := stack[..|stack| - 1];
        if current !in tainted {
          tainted := tainted + {current};
          var more := Enumerate(Members(dep, current));
          CascadeGrows(dep, blocked, id, tainted - {current}, stack, current, more);
          stack := stack + more;
        }
      }
      CascadeEnds(dep, blocked, id, tainted);
    }

    /** Taint everything directly resting on a target, one dependent at a time. */
    method TaintDependents(target: Id)
      modifies this`tainted
      ensures Now() == old(Now()).(tainted := old(tainted) + Spread(dependents, old(tainted), Members(dependents, target)))
    {
      hide Spread;
      ghost var dep, was := dependents, tainted;
      ghost var done: set<Id> := {};
      var rest := Members(dependents, target);
      SpreadOfNothing(dep, was);
      while rest != {}
        invariant done + rest == Members(dep, target)
        invariant tainted == was + Spread(dep, was, done)
        decreases |rest|
      {
        var id :| id in rest;
        SpreadOneMore(dep, was, done, id);
        MarkTainted(id);
        rest, done := rest - {id}, done + {id};
      }
      assert done == Members(dep, target);
    }

    /** Use up the exact approval this record's subject resolves to, if it requires it. */
    method ConsumeApproval(r: Record)
      requires r.kind in {Action, Selection} && FitsKind(r.kind, r.data)
      modifies this`validApprovals, this`exactApprovalIndex
      ensures Now() == old(Now()).(
        validApprovals := ValidApprovalsAfter(old(validApprovals), old(exactApprovalIndex), r),
        exactApprovalIndex := ExactApprovalIndexAfter(old(validApprovals), old(exactApprovalIndex), r))
    {
      hide Vacate, Lookup, Targets;
      var subject := SubjectOf(r).value;
      if subject in validApprovals {
        var approval := validApprovals[subject];
        if HasRef(r, Require, approval) {
          validApprovals := validApprovals - {subject};
          exactApprovalIndex := exactApprovalIndex - {approval};
        }
      }
    }

    method MarkReplaced(r: Record)
      requires Supersedes(r.kind) && FitsKind(r.kind, r.data)
      modifies this`replaced
      ensures Now() == old(Now()).(replaced := ReplacedAfter(old(replaced), r))
    {
      var target := FirstTarget(r.refs, Replace);
      if target.Some? {
        replaced := replaced + {target.value};
      }
    }

    method MarkRetracted(target: Id)
      modifies this`retracted
      ensures Now() == old(Now()).(retracted := old(retracted) + {target})
    {
      retracted := retracted + {target};
    }

    /** A retracted capability stops granting, unless a replacement already took its slot. */
    method VacateCapability(target: Id)
      modifies this`activeCapabilities
      ensures Now() == old(Now()).(activeCapabilities := Vacate(old(activeCapabilities), Lookup(capabilityIndex, target), target))
    {
      if target in capabilityIndex {
        var key := capabilityIndex[target];
        if key in activeCapabilities && activeCapabilities[key] == target {
          activeCapabilities := activeCapabilities - {key};
        }
      }
    }

    method VacateExact(target: Id)
      modifies this`validApprovals
      ensures Now() == old(Now()).(validApprovals := Vacate(old(validApprovals), Lookup(exactApprovalIndex, target), target))
    {
      if target in exactApprovalIndex {
        var subject := exactApprovalIndex[target];
        if subject in validApprovals && validApprovals[subject] == target {
          validApprovals := validApprovals - {subject};
        }
      }
    }

    method VacateClass(target: Id)
      modifies this`classApprovals
      ensures Now() == old(Now()).(classApprovals := Vacate(old(classApprovals), Lookup(classApprovalIndex, target), target))
    {
      if target in classApprovalIndex {
        var key := classApprovalIndex[target];
        if key in classApprovals && classApprovals[key] == target {
          classApprovals := classApprovals - {key};
        }
      }
    }

    method ReleaseKey(target: Id)
      modifies this`requirementKeys
      ensures Now() == old(Now()).(
        requirementKeys := if target in requirementIndex then Released(old(requirementKeys), requirementIndex[target])
                           else old(requirementKeys))
    {
      if target in requirementIndex {
        var (request, key) := requirementIndex[target];
        if request in requirementKeys {
          var keys := requirementKeys[request] - {key};
          if keys == {} {
            requirementKeys := requirementKeys - {request};
          } else {
            requirementKeys := requirementKeys[request := keys];
          }
        }
      }
    }
  }

  lemma IndexedOneMore(dep: map<Id, set<Id>>, targets: set<Id>, id: Id, t: Id)
    ensures var d := Indexed(dep, targets, id);
            d[t := Members(d, t) + {id}] == Indexed(dep, targets + {t}, id)
  {
    var d, e := Indexed(dep, targets, id), Indexed(dep, targets + {t}, id);
    var u := d[t := Members(d, t) + {id}];
    assert u.Keys == e.Keys;
    forall x | x in u
      ensures u[x] == e[x]
    {
    }
  }

  lemma IndexedNothing(dep: map<Id, set<Id>>, id: Id)
    ensures Indexed(dep, {}, id) == dep
  {
    var d := Indexed(dep, {}, id);
    assert d.Keys == dep.Keys;
    forall x | x in d
      ensures d[x] == dep[x]
    {
    }
  }

  /** A set that holds the sources and is closed under dependents covers the spread. */
  lemma SpreadCovered(dep: map<Id, set<Id>>, blocked: set<Id>, from: set<Id>, closed: set<Id>)
    requires from - blocked <= closed
    requires forall x, y :: x in closed - blocked && y in Members(dep, x) ==> y in closed
    ensures Spread(dep, blocked, from) <= closed
  {
    forall x | x in Spread(dep, blocked, from)
      ensures x in closed
    {
      SpreadMember(dep, blocked, from, x);
      var p :| SpreadWalk(dep, blocked, p) && p[0] in from && p[|p| - 1] == x;
      WalkStaysInside(dep, blocked, p, closed, |p| - 1);
    }
  }

  lemma WalkStaysInside(dep: map<Id, set<Id>>, blocked: set<Id>, p: seq<Id>, closed: set<Id>, k: nat)
    requires SpreadWalk(dep, blocked, p) && k < |p|
    requires p[0] in closed
    requires forall x, y :: x in closed - blocked && y in Members(dep, x) ==> y in closed
    ensures p[k] in closed
  {
    if k > 0 {
      WalkStaysInside(dep, blocked, p, closed, k - 1);
      assert p[k - 1 + 1] in Members(dep, p[k - 1]);
    }
  }

  // ----- What each kind touches ---------------------------------------------------------------

  lemma QuietTouches(s: State, r: Record)
    requires r.kind in {Summary, Usage, Kind.Verdict, Candidate, Evaluation}
    ensures ApplyKind(s, r) == s.(replaced := ReplacedAfter(s.replaced, r))
    ensures r.kind != Summary ==> ReplacedAfter(s.replaced, r) == s.replaced
  {
    hide Spread, Vacate, Decremented, Released, Lookup, Members, Targets, Count;
  }

  lemma ConversationTouches(s: State, r: Record)
    requires r.kind in {Request, Plan, Response}
    ensures ApplyKind(s, r) == s.(
              replaced := ReplacedAfter(s.replaced, r),
              activeRequests := ActiveRequestsAfter(s.activeRequests, r),
              activePlans := ActivePlansAfter(s.activePlans, r),
              responseTurns := ResponseTurnsAfter(s.responseTurns, r))
    ensures r.kind != Plan ==> ReplacedAfter(s.replaced, r) == s.replaced
    ensures r.kind == Plan ==> ActiveRequestsAfter(s.activeRequests, r) == s.activeRequests
    ensures r.kind == Request ==> ActivePlansAfter(s.activePlans, r) == s.activePlans
    ensures r.kind != Response ==> ResponseTurnsAfter(s.responseTurns, r) == s.responseTurns
  {
    hide Spread, Vacate, Decremented, Released, Lookup, Members, Targets, Count;
  }

  lemma ActivityTouches(s: State, r: Record)
    requires r.kind in {Action, Kind.Result, Refusal} && FitsKind(r.kind, r.data)
    ensures ApplyKind(s, r) == s.(
              validApprovals := ValidApprovalsAfter(s.validApprovals, s.exactApprovalIndex, r),
              exactApprovalIndex := ExactApprovalIndexAfter(s.validApprovals, s.exactApprovalIndex, r),
              openActions := OpenActionsAfter(s.openActions, r),
              actionToRequest := ActionToRequestAfter(s.actionToRequest, r),
              openActionCount := OpenActionCountAfter(s.openActionCount, s.actionToRequest, r),
              activeRequests := ActiveRequestsAfter(s.activeRequests, r),
              activePlans := ActivePlansAfter(s.activePlans, r))
    ensures r.kind != Action ==>
              && ValidApprovalsAfter(s.validApprovals, s.exactApprovalIndex, r) == s.validApprovals
              && ExactApprovalIndexAfter(s.validApprovals, s.exactApprovalIndex, r) == s.exactApprovalIndex
              && ActionToRequestAfter(s.actionToRequest, r) == s.actionToRequest
    ensures r.kind != Refusal ==>
              && ActiveRequestsAfter(s.activeRequests, r) == s.activeRequests
              && ActivePlansAfter(s.activePlans, r) == s.activePlans
    ensures r.kind == Kind.Result ==> ClosesAction(r).Some?
  {
    hide Spread, Vacate, Decremented, Released, Lookup, Members, Targets, Count;
  }

  lemma AuthorityTouches(s: State, r: Record)
    requires r.kind in {Capability, Approval, Selection}
    ensures ApplyKind(s, r) == s.(
              replaced := ReplacedAfter(s.replaced, r),
              activeCapabilities := ActiveCapabilitiesAfter(s.activeCapabilities, s.capabilityIndex, r),
              capabilityIndex := IndexBy(s.capabilityIndex, r.id, CapabilityKeyOf(r)),
              validApprovals := ValidApprovalsAfter(s.validApprovals, s.exactApprovalIndex, r),
              exactApprovalIndex := ExactApprovalIndexAfter(s.validApprovals, s.exactApprovalIndex, r),
              classApprovals := ClassApprovalsAfter(s.classApprovals, s.classApprovalIndex, r),
              classApprovalIndex := IndexBy(s.classApprovalIndex, r.id, ClassKeyOf(r)))
    ensures r.kind != Capability ==>
              && ActiveCapabilitiesAfter(s.activeCapabilities, s.capabilityIndex, r) == s.activeCapabilities
              && IndexBy(s.capabilityIndex, r.id, CapabilityKeyOf(r)) == s.capabilityIndex
    ensures r.kind == Capability ==>
              && ValidApprovalsAfter(s.validApprovals, s.exactApprovalIndex, r) == s.validApprovals
              && ExactApprovalIndexAfter(s.validApprovals, s.exactApprovalIndex, r) == s.exactApprovalIndex
    ensures r.kind != Approval ==>
              && ClassApprovalsAfter(s.classApprovals, s.classApprovalIndex, r) == s.classApprovals
              && IndexBy(s.classApprovalIndex, r.id, ClassKeyOf(r)) == s.classApprovalIndex
  {
    hide Spread, Vacate, Decremented, Released, Lookup, Members, Targets, Count;
  }

  lemma RetractionTouches(s: State, r: Record)
    requires r.kind == Retraction && r.data.RetractionData?
    ensures var t := r.data.targetId;
            ApplyKind(s, r) == s.(
              retracted := s.retracted + {t},
              tainted := s.tainted + Spread(s.dependents, s.tainted, Members(s.dependents, t)),
              activeCapabilities := Vacate(s.activeCapabilities, Lookup(s.capabilityIndex, t), t),
              validApprovals := Vacate(s.validApprovals, Lookup(s.exactApprovalIndex, t), t),
              classApprovals := Vacate(s.classApprovals, Lookup(s.classApprovalIndex, t), t),
              requirementKeys := if t in s.requirementIndex
                                 then Released(s.requirementKeys, s.requirementIndex[t]) else s.requirementKeys)
  {
    hide Spread, Vacate, Decremented, Released, Lookup, Members, Targets, Count;
  }

  lemma RequirementTouches(s: State, r: Record)
    requires r.kind == Requirement
    ensures ApplyKind(s, r) == s.(
              requirementKeys := RequirementKeysAfter(s.requirementKeys, s.requirementIndex, r),
              requirementIndex := IndexBy(s.requirementIndex, r.id, ClaimOf(r)))
  {
    hide Spread, Vacate, Decremented, Released, Lookup, Members, Count, FirstTarget, Claimed;
  }

  /** Where the cascade stands: what is still stacked or newly tainted belongs to the
      spread, and whatever follows from a newly tainted record is tainted or stacked. */
  ghost predicate Cascading(dep: map<Id, set<Id>>, blocked: set<Id>, id: Id, tainted: set<Id>, stack: seq<Id>) {
    && blocked <= tainted
    && (forall x :: x in stack ==>
          x in {id} + AllDependents(dep) && (x in blocked || x in Spread(dep, blocked, {id})))
    && tainted - blocked <= Spread(dep, blocked, {id})
    && (id in tainted || id in stack)
    && (forall x, y :: x in tainted - blocked && y in Members(dep, x) ==> y in tainted || y in stack)
  }

  lemma CascadeStarts(dep: map<Id, set<Id>>, blocked: set<Id>, id: Id)
    ensures Cascading(dep, blocked, id, blocked, [id])
  {
    SpreadSource(dep, blocked, id);
    hide Spread, AllDependents, Members;
  }

  /** The top of the stack either is tainted and dropped, or is new and bounded. */
  lemma CascadeTurns(dep: map<Id, set<Id>>, blocked: set<Id>, id: Id, tainted: set<Id>, stack: seq<Id>)
    requires stack != [] && Cascading(dep, blocked, id, tainted, stack)
    ensures var current := stack[|stack| - 1];
            && current in {id} + AllDependents(dep)
            && (if current in tainted then Cascading(dep, blocked, id, tainted, stack[..|stack| - 1])
                else Cascading(dep, blocked, id, tainted, stack[..|stack| - 1] + [current]))
  {
    hide Spread, AllDependents, Members;
    assert stack == stack[..|stack| - 1] + [stack[|stack| - 1]];
  }

  lemma CascadeGrows(dep: map<Id, set<Id>>, blocked: set<Id>, id: Id, tainted: set<Id>, below: seq<Id>,
                     current: Id, more: seq<Id>)
    requires Cascading(dep, blocked, id, tainted, below + [current]) && current !in tainted
    requires forall y :: y in more <==> y in Members(dep, current)
    ensures Cascading(dep, blocked, id, tainted + {current}, below + more)
  {
    DependentsListed(dep, current);
    hide Spread, AllDependents, Members;
    assert current in below + [current];
    forall y | y in more && y !in blocked
      ensures y in Spread(dep, blocked, {id})
    {
      SpreadStep(dep, blocked, {id}, current, y);
    }
  }

  lemma CascadeEnds(dep: map<Id, set<Id>>, blocked: set<Id>, id: Id, tainted: set<Id>)
    requires Cascading(dep, blocked, id, tainted, [])
    ensures tainted == blocked + Spread(dep, blocked, {id})
  {
    hide Spread, AllDependents, Members;
    SpreadCovered(dep, blocked, {id}, tainted);
  }

  lemma DependentsListed(dep: map<Id, set<Id>>, x: Id)
    ensures Members(dep, x) <= AllDependents(dep)
  {
  }

  lemma SpreadSource(dep: map<Id, set<Id>>, blocked: set<Id>, id: Id)
    ensures id !in blocked ==> id in Spread(dep, blocked, {id})
  {
    if id !in blocked {
      assert SpreadWalk(dep, blocked, [id]) && [id][0] in {id} && [id][|[id]| - 1] == id;
    }
  }

  lemma SpreadOfNothing(dep: map<Id, set<Id>>, blocked: set<Id>)
    ensures Spread(dep, blocked, {}) == {}
  {
  }

  /** Spreading from one more source after the earlier ones is one spread from all. */
  lemma SpreadOneMore(dep: map<Id, set<Id>>, blocked: set<Id>, from: set<Id>, id: Id)
    ensures var reached := blocked + Spread(dep, blocked, from);
            reached + Spread(dep, reached, {id}) == blocked + Spread(dep, blocked, from + {id})
  {
    var reached := blocked + Spread(dep, blocked, from);
    var both := reached + Spread(dep, reached, {id});
    forall x | x in both
      ensures x in blocked + Spread(dep, blocked, from + {id})
    {
      if x in Spread(dep, blocked, from) {
        SpreadMember(dep, blocked, from, x);
        SpreadMember(dep, blocked, from + {id}, x);
      } else if x !in blocked {
        SpreadMember(dep, reached, {id}, x);
        var p :| SpreadWalk(dep, reached, p) && p[0] in {id} && p[|p| - 1] == x;
        assert SpreadWalk(dep, blocked, p);
        SpreadMember(dep, blocked, from + {id}, x);
      }
    }
    forall x | x in from + {id} && x !in blocked
      ensures x in both
    {
      if x in from {
        assert SpreadWalk(dep, blocked, [x]) && [x][0] in from && [x][|[x]| - 1] == x;
        SpreadMember(dep, blocked, from, x);
      } else {
        SpreadSource(dep, reached, id);
      }
    }
    forall x, y | x in both - blocked && y in Members(dep, x)
      ensures y in both
    {
      if y !in reached {
        if x in Spread(dep, blocked, from) {
          SpreadStep(dep, blocked, from, x, y);
        } else {
          SpreadStep(dep, reached, {id}, x, y);
        }
      }
    }
    SpreadCovered(dep, blocked, from + {id}, both);
  }
}
