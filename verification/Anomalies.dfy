// Two things the rules let happen, each on a log that replays from its first record,
// written by ordinary commits under ordinary rules, whatever the hash.
module Anomalies {
  import opened Records
  import opened LedgerState
  import opened Refs
  import opened Rules
  import opened Checks
  import opened Ledger
  import opened Replay
  import opened Build
  import opened Commits
  import opened Facts
  import opened Histories
  import opened RequirementKeys

  const USER := Author("user", User, None)
  const AGENT := Author("agent", Provider, None)

  /** Rules with one user and one agent, and nothing demanded beyond the battery itself. */
  const PLAIN_RULES := Rules(
    0, {RequestV1, CapabilityV1, ActionV1, RefusalV1, RequirementV1, RetractionV1}, {}, map[],
    map["user" := User, "agent" := Provider], {}, {}, map[], BoundReported, false, {}, 0, false, false)

  function Ask(): Proposal {
    Proposal(0, 0, USER, Request, RequestV1, RequestData("goal", 0, None), [])
  }

  function Grant(): Proposal {
    Proposal(0, 0, USER, Capability, CapabilityV1, CapabilityData("agent", "run", 0, Auto, None), [])
  }

  function Act(request: Id, capability: Id): Proposal {
    Proposal(0, 0, AGENT, Action, ActionV1, ActionData(request, "run", 0, Internal, ""), [Ref(Require, capability)])
  }

  function Refuse(request: Id): Proposal {
    Proposal(0, 0, USER, Refusal, RefusalV1, RefusalData(request, OfRequest), [Ref(Cause, request)])
  }

  function Demand(request: Id): Proposal {
    Proposal(0, 0, USER, Requirement, RequirementV1, RequirementData("key", "must hold", true, UserAuthored),
             [Ref(Cause, request)])
  }

  function Withdraw(target: Id): Proposal {
    Proposal(0, 0, USER, Retraction, RetractionV1, RetractionData(target, "wrong"), [Ref(Cause, target)])
  }

  // ----- One accepted commit ---------------------------------------------------------------

  /** A proposal whose envelope passes under these rules, with at most one ref. */
  predicate WellFormed(p: Proposal) {
    && p.space == 0 && p.author in {USER, AGENT} && p.author.role in AllowedAuthors(p.kind)
    && p.schema in PLAIN_RULES.admitted && KindOf(p.schema) == Some(p.kind) && DecodesAs(p.schema, p.data)
    && (p.refs == [] || (|p.refs| == 1 && p.refs[0].kind != Replace))
  }

  lemma FewRefs(refs: seq<Ref>)
    requires |refs| <= 1
    ensures Canonical(refs) == refs
    ensures forall t :: Targets(refs, t) == if refs == [] || refs[0].kind != t then [] else [refs[0].target]
  {
    if |refs| == 1 {
      assert refs[..0] == [] && refs[1..] == [];
      assert refs == [refs[0]];
    }
  }

  /** The subject, seen by what it is rather than by how it was made. */
  ghost predicate Shaped(r: Record, p: Proposal, time: nat) {
    && r.time == time && r.space == p.space && r.thread == p.thread && r.author == p.author
    && r.kind == p.kind && r.schema == p.schema && r.data == p.data && r.refs == p.refs
  }

  lemma SubjectIsShaped(c: Crypto, g: seq<Record>, p: Proposal)
    requires WellFormed(p)
    ensures Shaped(SubjectOn(c, g, p), p, |g| + 1)
  {
    hide Judge, PriorOf, Built, Materialize;
    SubjectShape(c, PriorOf(g), Built(g), |g| + 1, p);
    FewRefs(p.refs);
  }

  /** What is left to check of a well-formed proposal: that its ref resolves, and the rules
      of its kind. */
  lemma EnvelopePasses(c: Crypto, prior: Prior, s: State, time: nat, p: Proposal)
    requires WellFormed(p) && p.kind != Verdict
    requires var r := Materialize(c, prior, s, time, p);
             CheckRefs(prior, s, 0, p.refs).None? && CheckKind(PLAIN_RULES, prior, s, r, CarriesCycle(r)).None?
    ensures Judge(c, PLAIN_RULES, prior, s, Materialize(c, prior, s, time, p)).Accept?
  {
    hide CheckKind, CheckRefs, ExpectedEvidence, CarriesCycle, ComputeId, Materialize, DecodesAs, Canonical;
    var r := Materialize(c, prior, s, time, p);
    SubjectShape(c, prior, s, time, p);
    OnlyThresholdsReject(c, PLAIN_RULES, prior, s, time, p);
    FewRefs(p.refs);
  }

  /** What an accepted commit does: the log still replays, and its state is the old one
      with the subject applied. */
  lemma Accepted(c: Crypto, g: seq<Record>, p: Proposal) returns (log: seq<Record>)
    requires LawfulLog(c, PLAIN_RULES, g) && WellFormed(p) && p.kind != Verdict
    requires CheckRefs(PriorOf(g), StateOf(g), 0, p.refs).None?
    requires forall r :: Shaped(r, p, |g| + 1) ==>
               CheckKind(PLAIN_RULES, PriorOf(g), StateOf(g), r, CarriesCycle(r)).None?
    ensures LawfulLog(c, PLAIN_RULES, log) && g < log && |log| == |g| + 2
    ensures AcceptedAt(log, |g|) && Shaped(log[|g|], p, |g| + 1)
    ensures log[|g|].id !in StateOf(g).accepted
    ensures StateOf(log) == Apply(StateOf(g), log[|g|]).(appliedUpTo := |g| + 2)
  {
    hide Lawful, StateOf, Judge, PriorOf, RegimeOf, CheckKind, CheckRefs, Apply, Built, CommitPair, WellFormed, CarriesCycle;
    ReplayedLogBuilds(c, PLAIN_RULES, g);
    SubjectIsShaped(c, g, p);
    var pair := CommitPair(c, PLAIN_RULES, g, p);
    log := g + pair;
    PairIs(c, g, p);
    EnvelopePasses(c, PriorOf(g), StateOf(g), |g| + 1, p);
    CommitReplays(c, PLAIN_RULES, g, p);
    AdmissibleHere(p);
    assert pair == [pair[0], pair[1]];
    NextPair(c, PLAIN_RULES, g, pair[0], pair[1]);
    PairAppends(RegimeOf(c, PLAIN_RULES), g, pair[0], pair[1]);
    AppliesAccepted(StateOf(g), pair[0], pair[1]);
  }

  lemma AdmissibleHere(p: Proposal)
    requires WellFormed(p) && p.kind != Verdict
    ensures Admissible(PLAIN_RULES, p)
  {
  }

  lemma AppliesAccepted(s: State, r: Record, v: Record)
    requires JudgmentOf(v).Accept?
    ensures ApplyPair(s, r, v) == Apply(s, r).(appliedUpTo := v.time)
  {
    hide Apply;
  }

  lemma PairIs(c: Crypto, g: seq<Record>, p: Proposal)
    requires WellFormed(p)
    ensures var pair := CommitPair(c, PLAIN_RULES, g, p);
            && pair[0] == SubjectOn(c, g, p) == Materialize(c, PriorOf(g), Built(g), |g| + 1, p)
            && JudgmentOf(pair[1]) == Judge(c, PLAIN_RULES, PriorOf(g), Built(g), pair[0])
            && pair[1].time == |g| + 2
  {
    hide Judge, PriorOf, Built, Materialize, MaterializeVerdict;
    SubjectIsShaped(c, g, p);
    var s := SubjectOn(c, g, p);
    VerdictShape(c, s, s.time + 1, Judge(c, PLAIN_RULES, PriorOf(g), Built(g), s));
  }

  /** Earlier records are found by their ids. */
  lemma IsFound(c: Crypto, log: seq<Record>, i: nat)
    requires LawfulLog(c, PLAIN_RULES, log) && i < |log|
    ensures Find(PriorOf(log), log[i].id) == Some(log[i])
  {
    hide Lawful, RegimeOf, PriorOf;
    RegimeHolds(c, PLAIN_RULES);
    IdsAreUnique(RegimeOf(c, PLAIN_RULES), log);
    PriorAt(log, i);
  }

  lemma NothingYet(c: Crypto)
    requires Collisionless(c)
    ensures LawfulLog(c, PLAIN_RULES, []) && StateOf([]) == EMPTY_STATE
  {
  }

  ghost predicate AllAccepted(log: seq<Record>) {
    forall i: nat :: i < |log| && i % 2 == 0 ==> AcceptedAt(log, i)
  }

  lemma OneMoreAccepted(g: seq<Record>, log: seq<Record>)
    requires AllAccepted(g) && |g| % 2 == 0 && g < log && |log| == |g| + 2 && AcceptedAt(log, |g|)
    ensures AllAccepted(log)
  {
    forall i: nat | i < |g| && i % 2 == 0
      ensures AcceptedAt(log, i)
    {
      assert AcceptedAt(g, i);
    }
  }

  lemma RefResolves(prior: Prior, s: State, ref: Ref, target: Record)
    requires Find(prior, ref.target) == Some(target) && target.space == 0
    requires ref.kind == Require ==> Usable(s, target.id)
    ensures CheckRefs(prior, s, 0, [ref]).None?
  {
    assert [ref][1..] == [];
  }

  // ----- What each proposal meets and does ---------------------------------------------------

  lemma AskPasses(prior: Prior, s: State, r: Record, time: nat)
    requires Shaped(r, Ask(), time)
    ensures CheckKind(PLAIN_RULES, prior, s, r, CarriesCycle(r)).None?
  {
    hide CarriesCycle;
  }

  lemma AskDoes(s: State, r: Record, time: nat)
    requires Shaped(r, Ask(), time)
    ensures var t := Apply(s, r);
            && t.activeRequests == s.activeRequests + {r.id} && t.activeCapabilities == s.activeCapabilities
            && t.openActions == s.openActions && t.accepted == s.accepted + {r.id}
            && t.requirementKeys == s.requirementKeys && t.requirementIndex == s.requirementIndex
            && t.retracted == s.retracted
  {
    Projects(s, r);
    hide Apply;
  }

  lemma GrantPasses(prior: Prior, s: State, r: Record, time: nat)
    requires Shaped(r, Grant(), time)
    ensures CheckKind(PLAIN_RULES, prior, s, r, CarriesCycle(r)).None?
  {
    hide CarriesCycle;
  }

  lemma GrantDoes(s: State, r: Record, time: nat)
    requires Shaped(r, Grant(), time)
    ensures var t := Apply(s, r);
            && t.activeRequests == s.activeRequests && t.openActions == s.openActions
            && t.activeCapabilities == s.activeCapabilities[("agent", "run", 0) := r.id]
            && t.accepted == s.accepted + {r.id} && t.retracted == s.retracted
  {
    Projects(s, r);
    hide Apply;
  }

  lemma StaysUntainted(s: State, r: Record)
    requires s.retracted == {} && s.tainted == {} && RetractionTarget(r).None?
    ensures Apply(s, r).retracted == {} && Apply(s, r).tainted == {}
  {
    assert TaintedOnEntry(s.retracted, s.tainted, s.dependents, r) == {};
  }

  /** An action under a live request, on a capability that stands. */
  lemma ActPasses(prior: Prior, s: State, r: Record, time: nat, request: Record, capability: Record)
    requires Shaped(r, Act(request.id, capability.id), time)
    requires Find(prior, request.id) == Some(request) && Shaped(request, Ask(), request.time)
    requires Find(prior, capability.id) == Some(capability) && Shaped(capability, Grant(), capability.time)
    requires request.id in s.activeRequests && ("agent", "run", 0) in s.activeCapabilities
    requires s.activeCapabilities[("agent", "run", 0)] == capability.id && !Withdrawn(s, capability.id)
    ensures CheckKind(PLAIN_RULES, prior, s, r, CarriesCycle(r)).None?
  {
    hide CarriesCycle, Withdrawn, ResolveApproval, Find;
    assert HasRef(r, Require, capability.id);
  }

  lemma ActDoes(s: State, r: Record, time: nat, request: Id, capability: Id)
    requires Shaped(r, Act(request, capability), time)
    ensures var t := Apply(s, r);
            t.activeRequests == s.activeRequests && t.openActions == s.openActions + {r.id}
  {
    Projects(s, r);
    hide Apply;
  }

  lemma RefusePasses(prior: Prior, s: State, r: Record, time: nat, request: Record)
    requires Shaped(r, Refuse(request.id), time)
    requires Find(prior, request.id) == Some(request) && Shaped(request, Ask(), request.time)
    requires request.id in s.activeRequests
    ensures CheckKind(PLAIN_RULES, prior, s, r, CarriesCycle(r)).None?
  {
    FewRefs(r.refs);
    hide CarriesCycle, Find, Targets;
  }

  lemma RefuseDoes(s: State, r: Record, time: nat, request: Id)
    requires Shaped(r, Refuse(request), time)
    ensures var t := Apply(s, r);
            t.activeRequests == s.activeRequests - {request} && t.openActions == s.openActions
  {
    Projects(s, r);
    hide Apply;
  }

  /** A requirement takes a free key of an accepted request. */
  lemma DemandPasses(prior: Prior, s: State, r: Record, time: nat, request: Record)
    requires Shaped(r, Demand(request.id), time)
    requires Find(prior, request.id) == Some(request) && Shaped(request, Ask(), request.time)
    requires request.id in s.accepted && !Taken(s.requirementKeys, (request.id, "key"))
    ensures CheckKind(PLAIN_RULES, prior, s, r, CarriesCycle(r)).None?
  {
    FewRefs(r.refs);
    hide CarriesCycle, Find, Targets, Members;
  }

  lemma DemandDoes(s: State, r: Record, time: nat, request: Id)
    requires Shaped(r, Demand(request), time)
    ensures ClaimOf(r) == Some((request, "key"))
    ensures var t := Apply(s, r);
            && t.accepted == s.accepted + {r.id} && t.retracted == s.retracted
            && Taken(t.requirementKeys, (request, "key"))
            && t.requirementIndex == s.requirementIndex[r.id := (request, "key")]
  {
    FewRefs(r.refs);
    Projects(s, r);
    hide Apply, Claimed, Taken, Targets;
    TakenAfterClaim(s.requirementKeys, (request, "key"), (request, "key"));
  }

  /** Its author withdraws a requirement, whether or not it was withdrawn before. */
  lemma WithdrawPasses(prior: Prior, s: State, r: Record, time: nat, target: Record)
    requires Shaped(r, Withdraw(target.id), time)
    requires Find(prior, target.id) == Some(target) && target.kind == Requirement && target.author == USER
    requires target.id in s.accepted
    ensures CheckKind(PLAIN_RULES, prior, s, r, CarriesCycle(r)).None?
  {
    FewRefs(r.refs);
    hide CarriesCycle, Find, Targets;
  }

  lemma WithdrawDoes(s: State, r: Record, time: nat, target: Id, claim: (Id, string))
    requires Shaped(r, Withdraw(target), time) && Lookup(s.requirementIndex, target) == Some(claim)
    ensures var t := Apply(s, r);
            && t.accepted == s.accepted + {r.id} && t.retracted == s.retracted + {target}
            && !Taken(t.requirementKeys, claim) && t.requirementIndex == s.requirementIndex
  {
    Projects(s, r);
    hide Apply, Released, Taken, Targets;
    TakenAfterRelease(s.requirementKeys, claim, claim);
  }

  // ----- Logs, one commit at a time -------------------------------------------------------------

  /** A log that replays and in which every subject was accepted. */
  ghost predicate Good(c: Crypto, log: seq<Record>) {
    LawfulLog(c, PLAIN_RULES, log) && AllAccepted(log) && |log| % 2 == 0
  }

  /** The log of one request. */
  lemma StartsWithRequest(c: Crypto) returns (log: seq<Record>)
    requires Collisionless(c)
    ensures Good(c, log) && |log| == 2 && Shaped(log[0], Ask(), 1)
    ensures var s, id := StateOf(log), log[0].id;
            && s.activeRequests == s.accepted == {id} && s.retracted == {} && s.tainted == {}
            && s.requirementKeys == map[] && s.requirementIndex == map[]
  {
    hide StateOf, PriorOf, Apply, LawfulLog, CheckKind, CarriesCycle;
    NothingYet(c);
    forall r | Shaped(r, Ask(), 1)
      ensures CheckKind(PLAIN_RULES, PriorOf([]), StateOf([]), r, CarriesCycle(r)).None?
    {
      AskPasses(PriorOf([]), StateOf([]), r, 1);
    }
    log := Accepted(c, [], Ask());
    OneMoreAccepted([], log);
    AskDoes(StateOf([]), log[0], 1);
    StaysUntainted(StateOf([]), log[0]);
  }

  lemma CommitGrant(c: Crypto, g: seq<Record>) returns (log: seq<Record>)
    requires Good(c, g) && StateOf(g).retracted == {} && StateOf(g).tainted == {}
    ensures Good(c, log) && g < log && |log| == |g| + 2 && Shaped(log[|g|], Grant(), |g| + 1)
    ensures var s, t, id := StateOf(g), StateOf(log), log[|g|].id;
            && t.activeRequests == s.activeRequests && t.accepted == s.accepted + {id}
            && ("agent", "run", 0) in t.activeCapabilities && t.activeCapabilities[("agent", "run", 0)] == id
            && t.retracted == {} && t.tainted == {}
  {
    hide StateOf, PriorOf, Apply, LawfulLog, CheckKind, CarriesCycle;
    forall r | Shaped(r, Grant(), |g| + 1)
      ensures CheckKind(PLAIN_RULES, PriorOf(g), StateOf(g), r, CarriesCycle(r)).None?
    {
      GrantPasses(PriorOf(g), StateOf(g), r, |g| + 1);
    }
    log := Accepted(c, g, Grant());
    OneMoreAccepted(g, log);
    GrantDoes(StateOf(g), log[|g|], |g| + 1);
    StaysUntainted(StateOf(g), log[|g|]);
  }

  /** An action under the first request, on the capability at position `k`. */
  lemma CommitAct(c: Crypto, g: seq<Record>, k: nat) returns (log: seq<Record>)
    requires Good(c, g) && k < |g| && Shaped(g[0], Ask(), 1) && Shaped(g[k], Grant(), k + 1)
    requires var s := StateOf(g);
             && s.retracted == {} && s.tainted == {} && g[k].id in s.accepted && g[0].id in s.activeRequests
             && ("agent", "run", 0) in s.activeCapabilities && s.activeCapabilities[("agent", "run", 0)] == g[k].id
    ensures Good(c, log) && g < log && |log| == |g| + 2 && Shaped(log[|g|], Act(g[0].id, g[k].id), |g| + 1)
    ensures StateOf(log).activeRequests == StateOf(g).activeRequests && log[|g|].id in StateOf(log).openActions
  {
    hide StateOf, PriorOf, Apply, LawfulLog, CheckKind, CheckRefs, CarriesCycle, Find;
    var p := Act(g[0].id, g[k].id);
    IsFound(c, g, 0);
    IsFound(c, g, k);
    RefResolves(PriorOf(g), StateOf(g), p.refs[0], g[k]);
    forall r | Shaped(r, p, |g| + 1)
      ensures CheckKind(PLAIN_RULES, PriorOf(g), StateOf(g), r, CarriesCycle(r)).None?
    {
      ActPasses(PriorOf(g), StateOf(g), r, |g| + 1, g[0], g[k]);
    }
    log := Accepted(c, g, p);
    OneMoreAccepted(g, log);
    ActDoes(StateOf(g), log[|g|], |g| + 1, g[0].id, g[k].id);
  }

  lemma CommitRefuse(c: Crypto, g: seq<Record>) returns (log: seq<Record>)
    requires Good(c, g) && |g| > 0 && Shaped(g[0], Ask(), 1) && g[0].id in StateOf(g).activeRequests
    ensures Good(c, log) && g < log && |log| == |g| + 2 && Shaped(log[|g|], Refuse(g[0].id), |g| + 1)
    ensures StateOf(log).activeRequests == StateOf(g).activeRequests - {g[0].id}
    ensures StateOf(log).openActions == StateOf(g).openActions
  {
    hide StateOf, PriorOf, Apply, LawfulLog, CheckKind, CheckRefs, CarriesCycle, Find;
    var p := Refuse(g[0].id);
    IsFound(c, g, 0);
    RefResolves(PriorOf(g), StateOf(g), p.refs[0], g[0]);
    forall r | Shaped(r, p, |g| + 1)
      ensures CheckKind(PLAIN_RULES, PriorOf(g), StateOf(g), r, CarriesCycle(r)).None?
    {
      RefusePasses(PriorOf(g), StateOf(g), r, |g| + 1, g[0]);
    }
    log := Accepted(c, g, p);
    OneMoreAccepted(g, log);
    RefuseDoes(StateOf(g), log[|g|], |g| + 1, g[0].id);
  }

  /** A requirement under the first request, whose key is free. */
  lemma CommitDemand(c: Crypto, g: seq<Record>) returns (log: seq<Record>)
    requires Good(c, g) && |g| > 0 && Shaped(g[0], Ask(), 1) && g[0].id in StateOf(g).accepted
    requires !Taken(StateOf(g).requirementKeys, (g[0].id, "key"))
    ensures Good(c, log) && g < log && |log| == |g| + 2 && Shaped(log[|g|], Demand(g[0].id), |g| + 1)
    ensures ClaimOf(log[|g|]) == Some((g[0].id, "key")) && log[|g|].id !in StateOf(g).accepted
    ensures var s, t, id := StateOf(g), StateOf(log), log[|g|].id;
            && t.accepted == s.accepted + {id} && t.retracted == s.retracted
            && Taken(t.requirementKeys, (g[0].id, "key"))
            && t.requirementIndex == s.requirementIndex[id := (g[0].id, "key")]
  {
    hide StateOf, PriorOf, Apply, LawfulLog, CheckKind, CheckRefs, CarriesCycle, Find, Taken, ClaimOf;
    var p := Demand(g[0].id);
    IsFound(c, g, 0);
    RefResolves(PriorOf(g), StateOf(g), p.refs[0], g[0]);
    forall r | Shaped(r, p, |g| + 1)
      ensures CheckKind(PLAIN_RULES, PriorOf(g), StateOf(g), r, CarriesCycle(r)).None?
    {
      DemandPasses(PriorOf(g), StateOf(g), r, |g| + 1, g[0]);
    }
    log := Accepted(c, g, p);
    OneMoreAccepted(g, log);
    DemandDoes(StateOf(g), log[|g|], |g| + 1, g[0].id);
  }

  /** The requirement at position `k` withdrawn, for the first time or again. */
  lemma CommitWithdraw(c: Crypto, g: seq<Record>, k: nat) returns (log: seq<Record>)
    requires Good(c, g) && k < |g| && Shaped(g[k], Demand(g[0].id), k + 1) && g[k].id in StateOf(g).accepted
    requires Lookup(StateOf(g).requirementIndex, g[k].id) == Some((g[0].id, "key"))
    ensures Good(c, log) && g < log && |log| == |g| + 2 && Shaped(log[|g|], Withdraw(g[k].id), |g| + 1)
    ensures RetractionTarget(log[|g|]) == Some(g[k].id)
    ensures var s, t, id := StateOf(g), StateOf(log), log[|g|].id;
            && t.accepted == s.accepted + {id} && t.retracted == s.retracted + {g[k].id}
            && !Taken(t.requirementKeys, (g[0].id, "key")) && t.requirementIndex == s.requirementIndex
  {
    hide StateOf, PriorOf, Apply, LawfulLog, CheckKind, CheckRefs, CarriesCycle, Find, Taken;
    var p := Withdraw(g[k].id);
    IsFound(c, g, k);
    RefResolves(PriorOf(g), StateOf(g), p.refs[0], g[k]);
    forall r | Shaped(r, p, |g| + 1)
      ensures CheckKind(PLAIN_RULES, PriorOf(g), StateOf(g), r, CarriesCycle(r)).None?
    {
      WithdrawPasses(PriorOf(g), StateOf(g), r, |g| + 1, g[k]);
    }
    log := Accepted(c, g, p);
    OneMoreAccepted(g, log);
    WithdrawDoes(StateOf(g), log[|g|], |g| + 1, g[k].id, (g[0].id, "key"));
  }

  // ----- The two anomalies ------------------------------------------------------------------------

  /** On a log that replays, a refused request keeps an open action: the refusal that ends
      the log was accepted, the request is not active, and its action is still open. */
  lemma RefusalLeavesActionsOpen(c: Crypto) returns (log: seq<Record>)
    requires Collisionless(c)
    ensures LawfulLog(c, PLAIN_RULES, log) && AllAccepted(log) && |log| == 8
    ensures log[0].kind == Request && log[4].kind == Action && log[4].data.ActionData?
    ensures log[4].data.requestId == log[0].id
    ensures log[6].kind == Refusal && log[6].data == RefusalData(log[0].id, OfRequest)
    ensures log[0].id !in StateOf(log).activeRequests && log[4].id in StateOf(log).openActions
  {
    hide StateOf, LawfulLog, AllAccepted;
    var asked := StartsWithRequest(c);
    var granted := CommitGrant(c, asked);
    var acted := CommitAct(c, granted, 2);
    log := CommitRefuse(c, acted);
  }

  /** A requirement retracted, its key taken by a second one. */
  lemma KeyIsTakenAgain(c: Crypto) returns (log: seq<Record>)
    requires Collisionless(c)
    ensures Good(c, log) && |log| == 8 && Shaped(log[0], Ask(), 1)
    ensures Shaped(log[2], Demand(log[0].id), 3) && Shaped(log[6], Demand(log[0].id), 7)
    ensures RetractionTarget(log[4]) == Some(log[2].id)
    ensures ClaimOf(log[2]) == ClaimOf(log[6]) == Some((log[0].id, "key"))
    ensures var s := StateOf(log);
            && s.accepted >= {log[0].id, log[2].id, log[6].id} && s.retracted == {log[2].id} && log[2].id != log[6].id
            && Lookup(s.requirementIndex, log[2].id) == Some((log[0].id, "key"))
  {
    hide StateOf, LawfulLog, AllAccepted, Taken, ClaimOf, Shaped, RetractionTarget;
    var asked := StartsWithRequest(c);
    NothingTaken((asked[0].id, "key"));
    var first := CommitDemand(c, asked);
    var withdrawn := CommitWithdraw(c, first, 2);
    log := CommitDemand(c, withdrawn);
  }

  /** On a log that replays, a repeated retraction frees the key of a live requirement, and
      a third one takes it: two requirements of one request, both accepted and neither
      retracted, hold one key. */
  lemma RepeatedRetractionStealsAKey(c: Crypto) returns (log: seq<Record>)
    requires Collisionless(c)
    ensures LawfulLog(c, PLAIN_RULES, log) && AllAccepted(log) && |log| == 12
    ensures RetractionTarget(log[4]) == RetractionTarget(log[8]) == Some(log[2].id)
    ensures ClaimOf(log[2]) == ClaimOf(log[6]) == ClaimOf(log[10]) == Some((log[0].id, "key"))
    ensures !Taken(StateOf(log[..10]).requirementKeys, (log[0].id, "key"))
    ensures log[6].id != log[10].id
    ensures {log[6].id, log[10].id} <= StateOf(log).accepted - StateOf(log).retracted
  {
    hide StateOf, LawfulLog, AllAccepted, Taken, ClaimOf, Shaped, RetractionTarget;
    var second := KeyIsTakenAgain(c);
    var again := CommitWithdraw(c, second, 2);
    log := CommitDemand(c, again);
    assert log[..10] == again;
  }

  lemma NothingTaken(claim: (Id, string))
    ensures !Taken(map[], claim)
  {
  }
}
