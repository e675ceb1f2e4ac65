// The state folded from accepted records, as a value: one function per index, each
// saying what that index becomes when a record is accepted.
module LedgerState {
  import opened Records

  type CapabilityKey = (string, string, nat)
  type ClassKey = (string, nat, Option<string>)

  datatype State = State(
    accepted: set<Id>,
    activeRequests: set<Id>,
    activeCapabilities: map<CapabilityKey, Id>,
    validApprovals: map<Subject, Id>,
    classApprovals: map<ClassKey, Id>,
    openActions: set<Id>,
    actionToRequest: map<Id, Id>,
    replaced: set<Id>,
    openActionCount: map<Id, nat>,
    activePlans: map<Id, Id>,
    responseTurns: map<Id, nat>,
    capabilityIndex: map<Id, CapabilityKey>,
    exactApprovalIndex: map<Id, Subject>,
    classApprovalIndex: map<Id, ClassKey>,
    retracted: set<Id>,
    tainted: set<Id>,
    dependents: map<Id, set<Id>>,
    requirementKeys: map<Id, set<string>>,
    requirementIndex: map<Id, (Id, string)>,
    appliedUpTo: nat)

  const EMPTY_STATE: State :=
    State({}, {}, map[], map[], map[], {}, map[], {}, map[], map[], map[], map[], map[], map[],
          {}, {}, map[], map[], map[], 0)

  // ----- Small map vocabulary ------------------------------------------------

  function Lookup<K, V>(m: map<K, V>, k: K): Option<V> {
    if k in m then Some(m[k]) else None
  }

  function Count(m: map<Id, nat>, k: Id): nat {
    if k in m then m[k] else 0
  }

  function Members<V>(m: map<Id, set<V>>, k: Id): set<V> {
    if k in m then m[k] else {}
  }

  /** Drop the slot at `k` if it still holds `v` (a later record may have taken it). */
  function Vacate<K, V(==)>(m: map<K, V>, k: Option<K>, v: V): map<K, V> {
    if k.Some? && k.value in m && m[k.value] == v then m - {k.value} else m
  }

  // ----- Epistemic dependence and taint --------------------------------------

  predicate Withdrawn(s: State, id: Id) {
    id in s.retracted || id in s.tainted
  }

  predicate Usable(s: State, id: Id) {
    id in s.accepted && !Withdrawn(s, id)
  }

  /** The dependence index with one record entered under a set of targets. */
  function Indexed(dep: map<Id, set<Id>>, targets: set<Id>, id: Id): map<Id, set<Id>> {
    map t | t in dep.Keys + targets :: Members(dep, t) + (if t in targets then {id} else {})
  }

  function DependentsAfter(dep: map<Id, set<Id>>, r: Record): map<Id, set<Id>> {
    Indexed(dep, EpistemicTargets(r), r.id)
  }

  /** A walk along the dependents index through ids that are not already blocked. */
  ghost predicate SpreadWalk(dep: map<Id, set<Id>>, blocked: set<Id>, p: seq<Id>) {
    && |p| > 0
    && (forall i :: 0 <= i < |p| ==> p[i] !in blocked)
    && (forall i :: 0 <= i < |p| - 1 ==> p[i + 1] in Members(dep, p[i]))
  }

  ghost predicate Reached(dep: map<Id, set<Id>>, blocked: set<Id>, from: set<Id>, x: Id) {
    exists p :: SpreadWalk(dep, blocked, p) && p[0] in from && p[|p| - 1] == x
  }

  ghost function AllDependents(dep: map<Id, set<Id>>): set<Id> {
    set t, y | t in dep && y in dep[t] :: y
  }

  /** Everything newly tainted when taint enters at `from`. */
  ghost function Spread(dep: map<Id, set<Id>>, blocked: set<Id>, from: set<Id>): set<Id> {
    set x | x in from + AllDependents(dep) && Reached(dep, blocked, from, x)
  }

  lemma SpreadMember(dep: map<Id, set<Id>>, blocked: set<Id>, from: set<Id>, x: Id)
    ensures x in Spread(dep, blocked, from) <==> Reached(dep, blocked, from, x)
  {
    if Reached(dep, blocked, from, x) {
      var p :| SpreadWalk(dep, blocked, p) && p[0] in from && p[|p| - 1] == x;
      if |p| > 1 {
        assert p[|p| - 2 + 1] in Members(dep, p[|p| - 2]);
      }
    }
  }

  lemma SpreadStep(dep: map<Id, set<Id>>, blocked: set<Id>, from: set<Id>, x: Id, y: Id)
    requires x in Spread(dep, blocked, from) && y in Members(dep, x) && y !in blocked
    ensures y in Spread(dep, blocked, from)
  {
    SpreadMember(dep, blocked, from, x);
    var p :| SpreadWalk(dep, blocked, p) && p[0] in from && p[|p| - 1] == x;
    assert SpreadWalk(dep, blocked, p + [y]);
    assert (p + [y])[0] in from && (p + [y])[|p + [y]| - 1] == y;
    SpreadMember(dep, blocked, from, y);
  }

  /** The tainted set after `r` is indexed: it inherits taint from what it rests on. */
  ghost function TaintedOnEntry(retracted: set<Id>, tainted: set<Id>, dep: map<Id, set<Id>>, r: Record): set<Id> {
    if exists t :: t in EpistemicTargets(r) && (t in retracted || t in tainted)
    then tainted + Spread(DependentsAfter(dep, r), tainted, {r.id})
    else tainted
  }

  // ----- Requests, actions, plans, turns -------------------------------------

  /** The request a record ends: a closing Response, or a Refusal of the request. */
  function EndsRequest(r: Record): Option<Id> {
    if r.kind == Response && r.data.ResponseData? && r.data.closesRequest then Some(r.data.requestId)
    else if r.kind == Refusal && r.data.RefusalData? && r.data.targetKind.OfRequest? then Some(r.data.targetId)
    else None
  }

  /** The action a record closes: a Result, or a Refusal of the action. */
  function ClosesAction(r: Record): Option<Id> {
    if r.kind == Kind.Result && r.data.ResultData? then Some(r.data.actionId)
    else if r.kind == Refusal && r.data.RefusalData? && r.data.targetKind.OfAction? then Some(r.data.targetId)
    else None
  }

  predicate OpensAction(r: Record) {
    r.kind == Action && r.data.ActionData?
  }

  function ActiveRequestsAfter(active: set<Id>, r: Record): set<Id> {
    if r.kind == Request then active + {r.id}
    else if EndsRequest(r).Some? then active - {EndsRequest(r).value}
    else active
  }

  function OpenActionsAfter(open: set<Id>, r: Record): set<Id> {
    if OpensAction(r) then open + {r.id}
    else if ClosesAction(r).Some? then open - {ClosesAction(r).value}
    else open
  }

  function ActionToRequestAfter(owners: map<Id, Id>, r: Record): map<Id, Id> {
    if OpensAction(r) then owners[r.id := r.data.requestId] else owners
  }

  /** One fewer open action under a request, with no zero entries kept. */
  function Decremented(counts: map<Id, nat>, req: Id): map<Id, nat> {
    if req !in counts then counts
    else if counts[req] <= 1 then counts - {req}
    else counts[req := counts[req] - 1]
  }

  function OpenActionCountAfter(counts: map<Id, nat>, owners: map<Id, Id>, r: Record): map<Id, nat> {
    if OpensAction(r) then counts[r.data.requestId := Count(counts, r.data.requestId) + 1]
    else if ClosesAction(r).Some? && ClosesAction(r).value in owners then
      Decremented(counts, owners[ClosesAction(r).value])
    else counts
  }

  function ActivePlansAfter(plans: map<Id, Id>, r: Record): map<Id, Id> {
    if r.kind == Plan && r.data.PlanData? then
      if r.data.planStatus.PlanRunning? then plans[r.data.requestId := r.id] else plans - {r.data.requestId}
    else if EndsRequest(r).Some? then plans - {EndsRequest(r).value}
    else plans
  }

  function ResponseTurnsAfter(turns: map<Id, nat>, r: Record): map<Id, nat> {
    if r.kind == Response && r.data.ResponseData? then
      var n := Count(turns, r.data.requestId);
      turns[r.data.requestId := if n < U32_MAX then n + 1 else U32_MAX]
    else
      turns
  }

  // ----- Authority -----------------------------------------------------------

  function RetractionTarget(r: Record): Option<Id> {
    if r.kind == Retraction && r.data.RetractionData? then Some(r.data.targetId) else None
  }

  function CapabilityKeyOf(r: Record): Option<CapabilityKey> {
    if r.kind == Capability && r.data.CapabilityData?
    then Some((r.data.actor, r.data.actionClass, r.data.scope)) else None
  }

  function ExactSubjectOf(r: Record): Option<Subject> {
    if r.kind == Approval && r.data.ApprovalData? then r.data.targetAction else None
  }

  function ClassKeyOf(r: Record): Option<ClassKey> {
    if r.kind == Approval && r.data.ApprovalData? && r.data.approvedClass.Some?
    then Some((r.data.approvedClass.value, r.data.scope, r.data.approvedActor)) else None
  }

  /** The exact approval an accepted Action or Selection uses up. */
  function Consumes(valid: map<Subject, Id>, r: Record): Option<Id> {
    var subject := SubjectOf(r);
    if subject.Some? && subject.value in valid && HasRef(r, Require, valid[subject.value])
    then Some(valid[subject.value]) else None
  }

  function Install<K>(m: map<K, Id>, k: Option<K>, id: Id): map<K, Id> {
    if k.Some? then m[k.value := id] else m
  }

  function IndexBy<K>(m: map<Id, K>, id: Id, k: Option<K>): map<Id, K> {
    if k.Some? then m[id := k.value] else m
  }

  function ActiveCapabilitiesAfter(active: map<CapabilityKey, Id>, index: map<Id, CapabilityKey>, r: Record)
    : map<CapabilityKey, Id>
  {
    var t := RetractionTarget(r);
    if t.Some? then Vacate(active, Lookup(index, t.value), t.value)
    else Install(active, CapabilityKeyOf(r), r.id)
  }

  function ValidApprovalsAfter(valid: map<Subject, Id>, index: map<Id, Subject>, r: Record): map<Subject, Id> {
    var t := RetractionTarget(r);
    if t.Some? then Vacate(valid, Lookup(index, t.value), t.value)
    else if Consumes(valid, r).Some? then valid - {SubjectOf(r).value}
    else Install(valid, ExactSubjectOf(r), r.id)
  }

  function ExactApprovalIndexAfter(valid: map<Subject, Id>, index: map<Id, Subject>, r: Record): map<Id, Subject> {
    if Consumes(valid, r).Some? then index - {Consumes(valid, r).value}
    else IndexBy(index, r.id, ExactSubjectOf(r))
  }

  function ClassApprovalsAfter(classes: map<ClassKey, Id>, index: map<Id, ClassKey>, r: Record): map<ClassKey, Id> {
    var t := RetractionTarget(r);
    if t.Some? then Vacate(classes, Lookup(index, t.value), t.value)
    else Install(classes, ClassKeyOf(r), r.id)
  }

  // ----- Replacement and requirement keys ------------------------------------

  predicate Supersedes(k: Kind) {
    k == Capability || k == Approval || k == Summary || k == Plan || k == Selection
  }

  function ReplacedAfter(replaced: set<Id>, r: Record): set<Id> {
    if Supersedes(r.kind) && FitsKind(r.kind, r.data) && FirstTarget(r.refs, Replace).Some?
    then replaced + {FirstTarget(r.refs, Replace).value}
    else replaced
  }

  /** The (request, key) a Requirement claims: its first Cause names the request. */
  function ClaimOf(r: Record): Option<(Id, string)> {
    if r.kind == Requirement && r.data.RequirementData? && FirstTarget(r.refs, Cause).Some?
    then Some((FirstTarget(r.refs, Cause).value, r.data.key)) else None
  }

  function Claimed(keys: map<Id, set<string>>, claim: (Id, string)): map<Id, set<string>> {
    keys[claim.0 := Members(keys, claim.0) + {claim.1}]
  }

  /** Release one key, dropping a request whose key set becomes empty. */
  function Released(keys: map<Id, set<string>>, claim: (Id, string)): map<Id, set<string>> {
    if claim.0 !in keys then keys
    else if keys[claim.0] - {claim.1} == {} then keys - {claim.0}
    else keys[claim.0 := keys[claim.0] - {claim.1}]
  }

  function RequirementKeysAfter(keys: map<Id, set<string>>, index: map<Id, (Id, string)>, r: Record): map<Id, set<string>> {
    var t := RetractionTarget(r);
    if t.Some? && t.value in index then Released(keys, index[t.value])
    else if ClaimOf(r).Some? then Claimed(keys, ClaimOf(r).value)
    else keys
  }

  function RetractedAfter(retracted: set<Id>, r: Record): set<Id> {
    if RetractionTarget(r).Some? then retracted + {RetractionTarget(r).value} else retracted
  }

  // ----- The whole step ------------------------------------------------------

  /** The part of the step every kind shares: acceptance, dependence, inherited taint. */
  ghost function Enter(s: State, r: Record): State {
    s.(accepted := s.accepted + {r.id}, dependents := DependentsAfter(s.dependents, r),
      tainted := TaintedOnEntry(s.retracted, s.tainted, s.dependents, r))
  }

  /** The kind-dependent part of the step, taken from a state the record has entered. */
  ghost function ApplyKind(s: State, r: Record): State {
    State(
      s.accepted,
      ActiveRequestsAfter(s.activeRequests, r),
      ActiveCapabilitiesAfter(s.activeCapabilities, s.capabilityIndex, r),
      ValidApprovalsAfter(s.validApprovals, s.exactApprovalIndex, r),
      ClassApprovalsAfter(s.classApprovals, s.classApprovalIndex, r),
      OpenActionsAfter(s.openActions, r),
      ActionToRequestAfter(s.actionToRequest, r),
      ReplacedAfter(s.replaced, r),
      OpenActionCountAfter(s.openActionCount, s.actionToRequest, r),
      ActivePlansAfter(s.activePlans, r),
      ResponseTurnsAfter(s.responseTurns, r),
      IndexBy(s.capabilityIndex, r.id, CapabilityKeyOf(r)),
      ExactApprovalIndexAfter(s.validApprovals, s.exactApprovalIndex, r),
      IndexBy(s.classApprovalIndex, r.id, ClassKeyOf(r)),
      RetractedAfter(s.retracted, r),
      if RetractionTarget(r).Some?
      then s.tainted + Spread(s.dependents, s.tainted, Members(s.dependents, RetractionTarget(r).value))
      else s.tainted,
      s.dependents,
      RequirementKeysAfter(s.requirementKeys, s.requirementIndex, r),
      IndexBy(s.requirementIndex, r.id, ClaimOf(r)),
      s.appliedUpTo)
  }

  /** The state after an accepted record. */
  ghost function Apply(s: State, r: Record): State {
    ApplyKind(Enter(s, r), r)
  }

  /** The state after a judged record: rejections change nothing. */
  ghost function ApplyJudged(s: State, r: Record, j: Judgment): State {
    if j.Accept? then Apply(s, r) else s
  }

  /** The state after a whole history of accepted records. */
  ghost function Fold(h: seq<Record>): State {
    if h == [] then EMPTY_STATE else Apply(Fold(h[..|h| - 1]), h[|h| - 1])
  }

  lemma FoldStep(g: seq<Record>, r: Record)
    ensures Fold(g + [r]) == Apply(Fold(g), r)
  {
    assert (g + [r])[..|g|] == g;
  }

  /** Each index of the next state, read off the state before the record entered. */
  lemma Projects(s: State, r: Record)
    ensures var t := Apply(s, r);
            && t.accepted == s.accepted + {r.id}
            && t.activeRequests == ActiveRequestsAfter(s.activeRequests, r)
            && t.activeCapabilities == ActiveCapabilitiesAfter(s.activeCapabilities, s.capabilityIndex, r)
            && t.validApprovals == ValidApprovalsAfter(s.validApprovals, s.exactApprovalIndex, r)
            && t.classApprovals == ClassApprovalsAfter(s.classApprovals, s.classApprovalIndex, r)
            && t.openActions == OpenActionsAfter(s.openActions, r)
            && t.actionToRequest == ActionToRequestAfter(s.actionToRequest, r)
            && t.replaced == ReplacedAfter(s.replaced, r)
            && t.openActionCount == OpenActionCountAfter(s.openActionCount, s.actionToRequest, r)
            && t.activePlans == ActivePlansAfter(s.activePlans, r)
            && t.responseTurns == ResponseTurnsAfter(s.responseTurns, r)
            && t.capabilityIndex == IndexBy(s.capabilityIndex, r.id, CapabilityKeyOf(r))
            && t.exactApprovalIndex == ExactApprovalIndexAfter(s.validApprovals, s.exactApprovalIndex, r)
            && t.classApprovalIndex == IndexBy(s.classApprovalIndex, r.id, ClassKeyOf(r))
            && t.retracted == RetractedAfter(s.retracted, r)
            && t.dependents == DependentsAfter(s.dependents, r)
            && t.requirementKeys == RequirementKeysAfter(s.requirementKeys, s.requirementIndex, r)
            && t.requirementIndex == IndexBy(s.requirementIndex, r.id, ClaimOf(r))
            && t.appliedUpTo == s.appliedUpTo
  {
    hide Vacate, Install, IndexBy, Decremented, Released, Claimed, Indexed, EpistemicTargets, Spread, TaintedOnEntry,
         Lookup, Members, Count;
  }

  /** A payload that does not decode for its kind touches nothing kind-dependent. */
  lemma MisfitChangesNothing(s: State, r: Record)
    requires !FitsKind(r.kind, r.data)
    ensures ApplyKind(s, r) == s
  {
  }

  /** The clock rides along: it neither affects the fold nor is affected by it. */
  lemma ClockRidesAlong(s: State, r: Record, t: nat)
    ensures Apply(s.(appliedUpTo := t), r) == Apply(s, r).(appliedUpTo := t)
  {
  }

  lemma DependentsStep(s: State, r: Record, t: Id, y: Id)
    ensures y in Members(Apply(s, r).dependents, t)
       <==> y in Members(s.dependents, t) || (y == r.id && t in EpistemicTargets(r))
  {
    assert Apply(s, r).dependents == DependentsAfter(s.dependents, r);
  }
}
