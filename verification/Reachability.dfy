// Histories that can happen: what the rules guarantee about an accepted record in terms
// of the state alone, so that the indexes can be studied without the rules.
module Reachability {
  import opened Records
  import opened LedgerState
  import opened Rules
  import opened Checks
  import opened Ledger
  import opened Replay
  import opened Facts
  import opened Histories

  /** What every accepted record meets in the state it is accepted into. */
  ghost predicate GoodStep(s: State, r: Record) {
    && r.id !in s.accepted
    && FitsKind(r.kind, r.data) && r.kind != Verdict
    && (forall t :: HasRef(r, Require, t) ==> Usable(s, t))
    && (RetractionTarget(r).Some? ==> RetractionTarget(r).value in s.accepted)
    && (r.kind == Action ==> r.data.requestId in s.activeRequests)
    && (r.kind == Plan ==> r.data.requestId in s.activeRequests)
    && (r.kind == Response ==> GoodResponse(s, r.data))
    && (ClosesAction(r).Some? ==> ClosesAction(r).value in s.openActions)
    && (EndsRequest(r).Some? ==> EndsRequest(r).value in s.activeRequests)
    && (r.kind == Requirement ==>
          ClaimOf(r).Some? && ClaimOf(r).value.1 !in Members(s.requirementKeys, ClaimOf(r).value.0))
  }

  /** A response takes the next turn of a live request, and closes only settled ones. */
  predicate GoodResponse(s: State, d: Payload) {
    && d.ResponseData? && d.requestId in s.activeRequests
    && d.turnIndex == Count(s.responseTurns, d.requestId) != U32_MAX
    && (d.closesRequest ==> Count(s.openActionCount, d.requestId) == 0 && d.requestId !in s.activePlans)
  }

  /** A history whose every record was good where it was accepted. */
  ghost predicate Reachable(h: seq<Record>) {
    h == [] || (Reachable(h[..|h| - 1]) && GoodStep(Fold(h[..|h| - 1]), h[|h| - 1]))
  }

  lemma {:induction false} ReachablePrefix(h: seq<Record>, i: nat)
    requires Reachable(h) && i <= |h|
    ensures Reachable(h[..i])
    ensures i < |h| ==> GoodStep(Fold(h[..i]), h[i])
    decreases |h|
  {
    hide GoodStep, Fold;
    if i < |h| {
      var n := |h| - 1;
      ReachablePrefix(h[..n], i);
      assert h[..n][..i] == h[..i];
    } else {
      assert h[..i] == h;
    }
  }

  // ----- Kind by kind, what a passed check says of the state --------------------------------------

  lemma RequiresAreUsable(prior: Prior, s: State, space: nat, refs: seq<Ref>, t: Id)
    requires CheckRefs(prior, s, space, refs).None? && Ref(Require, t) in refs
    requires forall id :: id in prior.byId ==> prior.byId[id].id == id
    ensures Usable(s, t)
  {
    RefsResolve(prior, s, space, refs, Ref(Require, t));
  }

  lemma WorkIsGood(rules: Rules, prior: Prior, s: State, r: Record)
    ensures r.kind == Action && CheckAction(prior, s, r).None? ==> r.data.requestId in s.activeRequests
    ensures r.kind == Response && CheckResponse(prior, s, r).None? ==> GoodResponse(s, r.data)
    ensures CheckRetraction(rules, prior, s, r).None? && RetractionTarget(r).Some? ==>
              RetractionTarget(r).value in s.accepted
    ensures r.kind == Kind.Result && CheckResult(rules, prior, s, r).None? && ClosesAction(r).Some? ==>
              ClosesAction(r).value in s.openActions
    ensures r.kind == Refusal && CheckRefusal(prior, s, r).None? ==>
              && (ClosesAction(r).Some? ==> ClosesAction(r).value in s.openActions)
              && (EndsRequest(r).Some? ==> EndsRequest(r).value in s.activeRequests)
  {
    hide CheckScope, CheckAuthority, CheckExecution, ArtifactsWellFormed, SoleCause, SamePlace;
  }

  lemma PlanIsGood(prior: Prior, s: State, r: Record, cyclic: bool)
    requires r.kind == Plan && CheckPlan(prior, s, r, cyclic).None?
    ensures r.data.PlanData? && r.data.requestId in s.activeRequests
  {
    hide TaskResultValid, SamePlace;
  }

  lemma RequirementIsGood(prior: Prior, s: State, r: Record)
    requires r.kind == Requirement && CheckRequirement(prior, s, r).None?
    ensures ClaimOf(r).Some? && ClaimOf(r).value.1 !in Members(s.requirementKeys, ClaimOf(r).value.0)
  {
    hide SamePlace;
  }

  lemma ChecksAreGood(rules: Rules, prior: Prior, s: State, r: Record)
    requires BatteryHolds(rules, prior, s, r) && r.id !in s.accepted && r.kind != Verdict
    requires forall id :: id in prior.byId ==> prior.byId[id].id == id
    ensures GoodStep(s, r)
  {
    hide CheckRefs, CheckReplacement, ExpectedEvidence, CarriesCycle, CheckAction, CheckResponse, CheckRetraction,
         CheckResult, CheckRefusal, CheckPlan, CheckRequirement, CheckCandidate, CheckSelection, CheckEvaluation,
         CheckRequest, CheckUsage, CheckSummary, CheckApproval, Usable, Targets;
    forall t | HasRef(r, Require, t)
      ensures Usable(s, t)
    {
      RequiresAreUsable(prior, s, r.space, r.refs, t);
    }
    WorkIsGood(rules, prior, s, r);
    if r.kind == Plan {
      PlanIsGood(prior, s, r, CarriesCycle(r));
    }
    if r.kind == Requirement {
      RequirementIsGood(prior, s, r);
    }
  }

  lemma {:induction false} PriorIdsMatch(log: seq<Record>, id: Id)
    ensures id in PriorOf(log).byId ==> PriorOf(log).byId[id].id == id
  {
    if log != [] {
      PriorIdsMatch(log[..|log| - 1], id);
    }
  }

  lemma ClockIsNotAStep(s: State, r: Record, t: nat)
    ensures GoodStep(s.(appliedUpTo := t), r) <==> GoodStep(s, r)
  {
  }

  /** The accepted records of a verified log are such a history. */
  lemma {:induction false} VerifiedIsReachable(c: Crypto, rules: Rules, log: seq<Record>)
    requires LawfulLog(c, rules, log)
    ensures Reachable(AcceptedOf(log))
  {
    hide GoodStep, BatteryHolds, PriorOf, Judge, Fold, RegimeOf, StateOf, PairOk;
    if log != [] {
      var n := |log| - 2;
      var g, s, v := log[..n], log[n], log[n + 1];
      assert log == g + [s, v];
      NextPair(c, rules, g, s, v);
      VerifiedIsReachable(c, rules, g);
      if JudgmentOf(v).Accept? {
        forall id
          ensures id in PriorOf(g).byId ==> PriorOf(g).byId[id].id == id
        {
          PriorIdsMatch(g, id);
        }
        ChecksAreGood(rules, PriorOf(g), StateOf(g), s);
        StateIsFold(g);
        ClockIsNotAStep(Fold(AcceptedOf(g)), s, LastTime(g));
        assert (AcceptedOf(g) + [s])[..|AcceptedOf(g)|] == AcceptedOf(g);
      }
    }
  }
}
