// Whole-log replay: what it accepts, and that nothing else can be accepted.
module Replay {
  import opened Records
  import opened LedgerState
  import opened LiveStates
  import opened Rules
  import opened Checks
  import opened EvidenceRules
  import opened Ledger

  ghost function RegimeOf(c: Crypto, rules: Rules): Regime {
    Regime(c, rules.space, (p: Prior, s: State, r: Record) => Judge(c, rules, p, s, r))
  }

  // ----- A record is judged alike whether or not it is already indexed ----------------

  /** Every id the rules may look up through the state is an id of the log. */
  ghost predicate StateKnown(p: Prior, s: State) {
    && (forall id :: id in s.accepted ==> id in p.byId)
    && (forall k :: k in s.activeCapabilities ==> s.activeCapabilities[k] in p.byId)
    && (forall k :: k in s.validApprovals ==> s.validApprovals[k] in p.byId)
    && (forall k :: k in s.classApprovals ==> s.classApprovals[k] in p.byId)
    && (forall id :: id in s.accepted && p.byId[id].kind == Kind.Result ==> ResultActionKnown(p, p.byId[id]))
  }

  predicate ResultActionKnown(p: Prior, r: Record) {
    r.data.ResultData? ==> r.data.actionId in p.byId
  }

  /** Two indexes that agree on every id but one. */
  ghost predicate AgreeExcept(p: Prior, q: Prior, id: Id) {
    && id !in p.byId
    && forall x :: x != id ==> Find(q, x) == Find(p, x)
  }

  lemma FindAgrees(p: Prior, q: Prior, id: Id, x: Id)
    requires AgreeExcept(p, q, id) && x != id
    ensures Find(q, x) == Find(p, x) && (x in q.byId <==> x in p.byId)
  {
  }

  lemma {:induction false} RefsAgree(p: Prior, q: Prior, s: State, space: nat, refs: seq<Ref>, id: Id)
    requires AgreeExcept(p, q, id) && forall ref :: ref in refs ==> ref.target != id
    ensures CheckRefs(q, s, space, refs) == CheckRefs(p, s, space, refs)
    ensures RefEvidences(s, q.byId, refs) == RefEvidences(s, p.byId, refs)
  {
    if refs != [] {
      assert refs[0] in refs;
      FindAgrees(p, q, id, refs[0].target);
      forall ref | ref in refs[1..]
        ensures ref in refs
      {
      }
      RefsAgree(p, q, s, space, refs[1..], id);
    }
  }

  lemma {:induction false} ParentsAgree(p: Prior, q: Prior, s: State, r: Record, parents: seq<Id>, id: Id)
    requires AgreeExcept(p, q, id) && id !in parents
    ensures CheckParents(q, s, r, parents) == CheckParents(p, s, r, parents)
  {
    if parents != [] {
      assert parents[0] in parents;
      FindAgrees(p, q, id, parents[0]);
      ParentsAgree(p, q, s, r, parents[1..], id);
    }
  }

  lemma {:induction false} UsedAgree(p: Prior, q: Prior, s: State, considered: seq<Id>, used: seq<Id>, id: Id)
    requires AgreeExcept(p, q, id) && id !in used
    ensures CheckUsedEvaluations(q, s, considered, used) == CheckUsedEvaluations(p, s, considered, used)
  {
    if used != [] {
      assert used[0] in used;
      FindAgrees(p, q, id, used[0]);
      UsedAgree(p, q, s, considered, used[1..], id);
    }
  }

  lemma TargetsMentioned(r: Record, t: RefType, x: Id)
    ensures x in Targets(r.refs, t) ==> x in Mentions(r)
    ensures HasRef(r, t, x) ==> x in Mentions(r)
    ensures forall ref :: ref in r.refs ==> ref.target in Mentions(r)
  {
    forall ref | ref in r.refs
      ensures ref.target in Mentions(r)
    {
      var i :| 0 <= i < |r.refs| && r.refs[i] == ref;
    }
  }

  /** What the agreement lemmas below assume about a record and the two indexes. */
  ghost predicate Judgeable(p: Prior, q: Prior, s: State, r: Record) {
    AgreeExcept(p, q, r.id) && StateKnown(p, s) && r.id !in Mentions(r)
  }

  lemma ReplacementAgrees(p: Prior, q: Prior, s: State, r: Record)
    requires Judgeable(p, q, s, r)
    ensures CheckReplacement(q, s, r) == CheckReplacement(p, s, r)
    ensures r.data.SelectionData? ==> forall rules :: CheckReaffirmation(rules, q, r) == CheckReaffirmation(rules, p, r)
  {
    var targets := Targets(r.refs, Replace);
    if targets != [] {
      TargetsMentioned(r, Replace, targets[0]);
      FindAgrees(p, q, r.id, targets[0]);
    }
  }

  lemma RequestAgrees(p: Prior, q: Prior, s: State, r: Record)
    requires Judgeable(p, q, s, r)
    ensures CheckRequest(q, s, r) == CheckRequest(p, s, r)
  {
    TargetsMentioned(r, Cause, r.id);
    ParentsAgree(p, q, s, r, Targets(r.refs, Cause), r.id);
  }

  lemma ApprovalAgrees(p: Prior, q: Prior, s: State, r: Record)
    requires Judgeable(p, q, s, r) && r.data.ActionData?
    ensures ResolveApproval(q, s, r) == ResolveApproval(p, s, r)
  {
    var subject := ActionSubject(r.author.id, r.data);
    if subject in s.validApprovals {
      FindAgrees(p, q, r.id, s.validApprovals[subject]);
    }
    assert ExactApproval(q, s, r) == ExactApproval(p, s, r);
    ClassAgrees(p, q, s, r, (r.data.actionClass, r.data.scope, Some(r.author.id)));
    ClassAgrees(p, q, s, r, (r.data.actionClass, r.data.scope, None));
  }

  lemma ClassAgrees(p: Prior, q: Prior, s: State, r: Record, key: ClassKey)
    requires Judgeable(p, q, s, r)
    ensures ClassApproval(q, s, r, key) == ClassApproval(p, s, r, key)
  {
    if key in s.classApprovals {
      FindAgrees(p, q, r.id, s.classApprovals[key]);
    }
  }

  lemma ActionAgrees(p: Prior, q: Prior, s: State, r: Record)
    requires Judgeable(p, q, s, r)
    ensures CheckAction(q, s, r) == CheckAction(p, s, r)
  {
    if r.data.ActionData? {
      FindAgrees(p, q, r.id, r.data.requestId);
      var key := (r.author.id, r.data.actionClass, r.data.scope);
      if key in s.activeCapabilities {
        FindAgrees(p, q, r.id, s.activeCapabilities[key]);
      }
      ApprovalAgrees(p, q, s, r);
      hide ResolveApproval;
    }
  }

  lemma WorkAgrees(rules: Rules, p: Prior, q: Prior, s: State, r: Record)
    requires Judgeable(p, q, s, r)
    ensures r.data.ResultData? ==> CheckResult(rules, q, s, r) == CheckResult(rules, p, s, r)
    ensures CheckRefusal(q, s, r) == CheckRefusal(p, s, r)
    ensures CheckUsage(q, s, r) == CheckUsage(p, s, r)
    ensures CheckResponse(q, s, r) == CheckResponse(p, s, r)
  {
    match r.data {
      case ResultData(a, _, _, _) => FindAgrees(p, q, r.id, a);
      case RefusalData(t, _) => FindAgrees(p, q, r.id, t);
      case UsageData(_, used, consuming, _, _) =>
        FindAgrees(p, q, r.id, used);
        FindAgrees(p, q, r.id, consuming);
      case ResponseData(request, _, _, _) => FindAgrees(p, q, r.id, request);
      case _ =>
    }
  }

  lemma RetractionAgrees(rules: Rules, p: Prior, q: Prior, s: State, r: Record)
    requires Judgeable(p, q, s, r)
    ensures CheckRetraction(rules, q, s, r) == CheckRetraction(rules, p, s, r)
  {
    if r.data.RetractionData? {
      FindAgrees(p, q, r.id, r.data.targetId);
    }
  }

  lemma TaskAgrees(p: Prior, q: Prior, s: State, r: Record, t: PlanTask)
    requires Judgeable(p, q, s, r) && r.data.PlanData? && t in r.data.tasks
    ensures TaskResultValid(q, s, r, t) <==> TaskResultValid(p, s, r, t)
  {
    if t.resultRecordId.Some? {
      var i :| 0 <= i < |r.data.tasks| && r.data.tasks[i] == t;
      var id := t.resultRecordId.value;
      assert id in PayloadMentions(r.data);
      FindAgrees(p, q, r.id, id);
      if id in s.accepted {
        assert id in p.byId;
        var result := p.byId[id];
        if result.kind == Kind.Result && result.data.ResultData? {
          assert ResultActionKnown(p, result);
          FindAgrees(p, q, r.id, result.data.actionId);
        }
      }
    }
  }

  lemma PlanAgrees(p: Prior, q: Prior, s: State, r: Record, cyclic: bool)
    requires Judgeable(p, q, s, r)
    ensures CheckPlan(q, s, r, cyclic) == CheckPlan(p, s, r, cyclic)
  {
    if r.data.PlanData? {
      FindAgrees(p, q, r.id, r.data.requestId);
      forall i | 0 <= i < |r.data.tasks|
        ensures TaskResultValid(q, s, r, r.data.tasks[i]) <==> TaskResultValid(p, s, r, r.data.tasks[i])
      {
        TaskAgrees(p, q, s, r, r.data.tasks[i]);
      }
      hide TaskResultValid;
    }
  }

  lemma CandidateAgrees(rules: Rules, p: Prior, q: Prior, s: State, r: Record)
    requires Judgeable(p, q, s, r)
    ensures CheckCandidate(rules, q, s, r) == CheckCandidate(rules, p, s, r)
  {
    if r.data.CandidateData? {
      var causes := Targets(r.refs, Cause);
      forall i | 0 <= i < |causes|
        ensures Find(q, causes[i]) == Find(p, causes[i])
      {
        TargetsMentioned(r, Cause, causes[i]);
        FindAgrees(p, q, r.id, causes[i]);
      }
      forall i | 0 <= i < |causes|
        ensures DerivesFrom(q, s, causes[i]) <==> DerivesFrom(p, s, causes[i])
      {
      }
      if r.data.parent.Some? {
        FindAgrees(p, q, r.id, r.data.parent.value);
      }
      hide ArtifactsWellFormed, SourceWellFormed, Find;
    }
  }

  lemma EvaluationAgrees(rules: Rules, p: Prior, q: Prior, s: State, r: Record)
    requires Judgeable(p, q, s, r)
    ensures CheckEvaluation(rules, q, s, r) == CheckEvaluation(rules, p, s, r)
  {
    if r.data.EvaluationData? {
      FindAgrees(p, q, r.id, r.data.candidate);
    } else if r.data.EvaluationDataV2? {
      FindAgrees(p, q, r.id, r.data.candidate);
      forall i | 0 <= i < |r.data.requirements|
        ensures BindsRequirement(q, s, r, r.data.requirements[i]) <==> BindsRequirement(p, s, r, r.data.requirements[i])
      {
        FindAgrees(p, q, r.id, r.data.requirements[i]);
      }
      hide ArtifactsWellFormed, Find;
    }
  }

  lemma SelectionAgrees(rules: Rules, p: Prior, q: Prior, s: State, r: Record)
    requires Judgeable(p, q, s, r)
    ensures CheckSelection(rules, q, s, r) == CheckSelection(rules, p, s, r)
  {
    if r.data.SelectionData? {
      forall i | 0 <= i < |r.data.considered|
        ensures ResolvesToCandidate(q, s, r, r.data.considered[i]) <==> ResolvesToCandidate(p, s, r, r.data.considered[i])
      {
        FindAgrees(p, q, r.id, r.data.considered[i]);
      }
      TargetsMentioned(r, Use, r.id);
      UsedAgree(p, q, s, r.data.considered, Targets(r.refs, Use), r.id);
      WinnersAgree(rules, p, q, s, r);
      SelectionAuthorityAgrees(rules, p, q, s, r);
      ReplacementAgrees(p, q, s, r);
      hide ResolvesToCandidate, CheckUsedEvaluations, CheckWinners, CheckSelectionAuthority, CheckReaffirmation, Find,
           CheckReplacement;
    }
  }

  lemma WinnersAgree(rules: Rules, p: Prior, q: Prior, s: State, r: Record)
    requires Judgeable(p, q, s, r) && r.data.SelectionData?
    ensures CheckWinners(rules, q, s, r) == CheckWinners(rules, p, s, r)
  {
    var winners, used := SelectedIds(r.data.decision), Targets(r.refs, Use);
    forall i | 0 <= i < |winners|
      ensures BoundToManifest(q, winners[i]) <==> BoundToManifest(p, winners[i])
    {
      FindAgrees(p, q, r.id, winners[i]);
    }
    forall t | t in used
      ensures CountsAsEvaluation(q, s, t) <==> CountsAsEvaluation(p, s, t)
    {
      TargetsMentioned(r, Use, t);
      FindAgrees(p, q, r.id, t);
    }
    hide BoundToManifest, CountsAsEvaluation, Find;
  }

  lemma SelectionAuthorityAgrees(rules: Rules, p: Prior, q: Prior, s: State, r: Record)
    requires Judgeable(p, q, s, r) && r.data.SelectionData?
    ensures CheckSelectionAuthority(rules, q, s, r) == CheckSelectionAuthority(rules, p, s, r)
  {
    var subject := SelectionSubject(r.author.id, FirstTarget(r.refs, Replace), r.data);
    if subject in s.validApprovals {
      FindAgrees(p, q, r.id, s.validApprovals[subject]);
    }
    assert ResolveSelectionApproval(q, s, r) == ResolveSelectionApproval(p, s, r);
    hide ResolveSelectionApproval;
  }

  lemma RequirementAgrees(p: Prior, q: Prior, s: State, r: Record)
    requires Judgeable(p, q, s, r)
    ensures CheckRequirement(q, s, r) == CheckRequirement(p, s, r)
  {
    var causes := Targets(r.refs, Cause);
    if |causes| == 1 {
      TargetsMentioned(r, Cause, causes[0]);
      FindAgrees(p, q, r.id, causes[0]);
    }
  }

  lemma KindAgrees(rules: Rules, p: Prior, q: Prior, s: State, r: Record, cyclic: bool)
    requires Judgeable(p, q, s, r)
    ensures CheckKind(rules, q, s, r, cyclic) == CheckKind(rules, p, s, r, cyclic)
  {
    hide CheckRequest, CheckAction, CheckResult, CheckRefusal, CheckUsage, CheckResponse, CheckPlan, CheckRetraction,
         CheckCandidate, CheckEvaluation, CheckSelection, CheckRequirement, CheckApproval, CheckSummary;
    match r.kind {
      case Request => RequestAgrees(p, q, s, r);
      case Action => ActionAgrees(p, q, s, r);
      case Result => ResultAgrees(rules, p, q, s, r);
      case Refusal => WorkAgrees(rules, p, q, s, r);
      case Usage => WorkAgrees(rules, p, q, s, r);
      case Response => WorkAgrees(rules, p, q, s, r);
      case Plan => PlanAgrees(p, q, s, r, cyclic);
      case Retraction => RetractionAgrees(rules, p, q, s, r);
      case Candidate => CandidateAgrees(rules, p, q, s, r);
      case Evaluation => EvaluationAgrees(rules, p, q, s, r);
      case Selection => SelectionAgrees(rules, p, q, s, r);
      case Requirement => RequirementAgrees(p, q, s, r);
      case _ =>
    }
  }

  lemma ResultAgrees(rules: Rules, p: Prior, q: Prior, s: State, r: Record)
    requires Judgeable(p, q, s, r)
    ensures CheckResult(rules, q, s, r) == CheckResult(rules, p, s, r)
  {
    if r.data.ResultData? {
      WorkAgrees(rules, p, q, s, r);
    }
  }

  /** Replay indexes a subject before judging it, commit does not; it makes no difference. */
  lemma JudgedAlike(c: Crypto, rules: Rules, p: Prior, s: State, r: Record)
    requires Collisionless(c) && ComputeId(c, r) == r.id && r.kind != Kind.Verdict
    requires r.id !in p.byId && StateKnown(p, s)
    ensures Judge(c, rules, p.Insert(r), s, r) == Judge(c, rules, p, s, r)
  {
    var q := p.Insert(r);
    assert Judgeable(p, q, s, r);
    TargetsMentioned(r, Cause, r.id);
    RefsAgree(p, q, s, r.space, r.refs, r.id);
    ReplacementAgrees(p, q, s, r);
    KindAgrees(rules, p, q, s, r, CarriesCycle(r));
    hide CheckKind, CheckRefs, CheckReplacement, CheckIdentity, CheckAuthor, RefEvidences, CarriesCycle, DeriveEvidence;
  }

  // ----- The state only ever names records of the log ----------------------------------

  lemma KnownAfterInsert(p: Prior, s: State, r: Record)
    requires StateKnown(p, s) && r.id !in p.byId
    ensures StateKnown(p.Insert(r), s)
  {
    var q := p.Insert(r);
    forall id | id in s.accepted && q.byId[id].kind == Kind.Result
      ensures ResultActionKnown(q, q.byId[id])
    {
      assert q.byId[id] == p.byId[id];
      assert ResultActionKnown(p, p.byId[id]);
    }
  }

  lemma KnownAfterApply(p: Prior, s: State, r: Record)
    requires StateKnown(p, s) && r.id in p.byId && p.byId[r.id] == r
    requires r.kind == Kind.Result ==> ResultActionKnown(p, r)
    ensures StateKnown(p, Apply(s, r))
  {
    Projects(s, r);
    hide Apply, ResultActionKnown, CapabilityKeyOf, ExactSubjectOf, ClassKeyOf, RetractionTarget, Consumes;
  }

  /** An accepted Result closed an open action, so that action is a record of the log. */
  lemma AcceptedResultIsKnown(c: Crypto, rules: Rules, p: Prior, s: State, r: Record)
    requires Judge(c, rules, p, s, r).Accept? && r.kind == Kind.Result
    ensures ResultActionKnown(p, r)
  {
    hide CheckIdentity, CheckAuthor, CheckRefs, CheckReplacement, CheckEvidence, CheckExecution, ArtifactsWellFormed,
         CarriesCycle, Targets;
  }

  lemma ClockIsNotKnown(p: Prior, s: State, t: nat)
    requires StateKnown(p, s)
    ensures StateKnown(p, s.(appliedUpTo := t))
  {
  }

  /** One more pair keeps the state within the log. */
  lemma KnownAfterPair(c: Crypto, rules: Rules, p: Prior, s: State, r: Record, v: Record)
    requires StateKnown(p, s) && r.id !in p.byId && v.id !in p.Insert(r).byId
    requires JudgmentOf(v) == Judge(c, rules, p, s, r)
    ensures StateKnown(p.Insert(r).Insert(v), ApplyPair(s, r, v))
  {
    hide Judge, Apply, StateKnown;
    KnownAfterInsert(p, s, r);
    if JudgmentOf(v).Accept? {
      if r.kind == Kind.Result {
        AcceptedResultIsKnown(c, rules, p, s, r);
        assert ResultActionKnown(p.Insert(r), r);
      }
      KnownAfterApply(p.Insert(r), s, r);
    }
    ClockIsNotKnown(p.Insert(r), ApplyJudged(s, r, JudgmentOf(v)), v.time);
    KnownAfterInsert(p.Insert(r), ApplyPair(s, r, v), v);
  }

  /** What holds of the whole log and its state, pair after pair. */
  lemma {:induction false} StateIsKnown(c: Crypto, rules: Rules, log: seq<Record>)
    requires Collisionless(c) && Lawful(RegimeOf(c, rules), log)
    ensures StateKnown(PriorOf(log), StateOf(log))
  {
    hide Judge, ApplyPair, RegimeOf, Lawful, StateKnown, PriorOf, StateOf, PairOk;
    if log == [] {
      NothingKnown();
    } else {
      var reg := RegimeOf(c, rules);
      VerifiedIsPaired(reg, log);
      var n := |log| - 2;
      var g, s, v := log[..n], log[n], log[n + 1];
      PairAt(reg, log, n);
      StateIsKnown(c, rules, g);
      assert log == g + [s, v];
      KnownAfterLawfulPair(c, rules, g, s, v);
    }
  }

  lemma NothingKnown()
    ensures StateKnown(PriorOf([]), StateOf([]))
  {
  }

  lemma KnownAfterLawfulPair(c: Crypto, rules: Rules, g: seq<Record>, s: Record, v: Record)
    requires Collisionless(c) && Lawful(RegimeOf(c, rules), g) && PairOk(RegimeOf(c, rules), g, s, v)
    requires StateKnown(PriorOf(g), StateOf(g))
    ensures StateKnown(PriorOf(g + [s, v]), StateOf(g + [s, v]))
  {
    hide Judge, ApplyPair, Lawful, StateKnown, PriorOf, StateOf;
    FreshPair(c, rules, g, s, v);
    VerifiedIsPaired(RegimeOf(c, rules), g);
    PairAppends(RegimeOf(c, rules), g, s, v);
    KnownAfterPair(c, rules, PriorOf(g), StateOf(g), s, v);
  }

  /** Judging against an index that already holds the subject is judging against the log. */
  lemma ReplayJudges(c: Crypto, rules: Rules, g: seq<Record>, s: Record)
    requires Collisionless(c) && Lawful(RegimeOf(c, rules), g)
    requires ComputeId(c, s) == s.id && s.time == |g| + 1 && s.kind != Kind.Verdict
    ensures Judge(c, rules, PriorOf(g).Insert(s), StateOf(g), s) == Judge(c, rules, PriorOf(g), StateOf(g), s)
  {
    hide Lawful, Judge, StateOf, PriorOf;
    StateIsKnown(c, rules, g);
    NextIsFresh(RegimeOf(c, rules), g, s);
    JudgedAlike(c, rules, PriorOf(g), StateOf(g), s);
  }

  lemma FreshPair(c: Crypto, rules: Rules, g: seq<Record>, s: Record, v: Record)
    requires Collisionless(c) && Lawful(RegimeOf(c, rules), g)
    requires ComputeId(c, s) == s.id && ComputeId(c, v) == v.id
    requires s.time == |g| + 1 && v.time == |g| + 2
    ensures s.id !in PriorOf(g).byId
    ensures v.id !in PriorOf(g).Insert(s).byId
    ensures v.id != s.id
  {
    hide Lawful;
    NextIsFresh(RegimeOf(c, rules), g, s);
    NextIsFresh(RegimeOf(c, rules), g, v);
    SameIdSameTime(c, s, v);
  }

  // ----- Replay -------------------------------------------------------------------------

  /** The outcome of replay: the reason for the first violation, or none. */
  datatype LogVerdict = LogVerdict(
    reason: Option<ReasonCode>, checked: nat, lastTime: nat, retracted: set<Id>, tainted: set<Id>)

  function Rejected(reason: ReasonCode, checked: nat, records: seq<Record>): LogVerdict {
    LogVerdict(Some(reason), checked, LastTime(records), {}, {})
  }

  /** The checks on a verdict that must belong to the subject just before it. */
  function CheckPaired(c: Crypto, rules: Rules, index: Prior, s: Record, v: Record): Finding {
    var envelope := CheckVerdict(c, rules, index, v);
    if envelope.Some? then envelope
    else if v.refs[0].target != s.id then Some(InvalidPayload)
    else None
  }

  /** The verdict's envelope, judged against an index that already holds its subject. */
  lemma PairedEnvelope(c: Crypto, rules: Rules, g: seq<Record>, s: Record, v: Record)
    requires Collisionless(c) && Lawful(RegimeOf(c, rules), g)
    requires s.kind != Kind.Verdict && v.kind == Kind.Verdict
    requires ComputeId(c, s) == s.id && s.time == |g| + 1
    ensures CheckPaired(c, rules, PriorOf(g).Insert(s), s, v).None? <==> VerdictFor(RegimeOf(c, rules), s, v)
  {
    hide Lawful, PriorOf;
    var reg := RegimeOf(c, rules);
    NextIsFresh(reg, g, s);
    if s.id in PriorOf(g).verdicted {
      VerdictedAreSubjects(reg, g, s.id);
      var i :| 0 <= i < |g| && i % 2 == 0 && g[i].id == s.id;
      PriorFindsFirst(g, s.id);
      assert false;
    }
    if |v.refs| == 1 {
      assert v.refs == [v.refs[0]];
    }
  }

  /** A verdict with no unjudged subject before it never passes: everything before it is
      already judged. So replay's branch for a lone verdict only ever rejects. */
  lemma LoneVerdictFails(c: Crypto, rules: Rules, g: seq<Record>, v: Record)
    requires Collisionless(c) && Lawful(RegimeOf(c, rules), g)
    ensures CheckVerdict(c, rules, PriorOf(g), v).Some?
  {
    hide Lawful, PriorOf, StateOf;
    var reg := RegimeOf(c, rules);
    if |v.refs| == 1 && v.refs[0].target in PriorOf(g).byId {
      var id := v.refs[0].target;
      PriorFindsFirst(g, id);
      var i :| 0 <= i < |g| && g[i] == PriorOf(g).byId[id] && g[i].id == id && forall j :: 0 <= j < i ==> g[j].id != id;
      PositionFacts(reg, g, i);
      if i % 2 == 0 {
        SubjectsAreVerdicted(reg, g, i);
      }
    }
  }

  predicate GapFree(records: seq<Record>) {
    forall i :: 1 <= i < |records| ==> records[i].time == records[i - 1].time + 1
  }

  predicate Addressed(c: Crypto, records: seq<Record>) {
    forall i :: 0 <= i < |records| ==> ComputeId(c, records[i]) == records[i].id
  }

  /** What replay checks of the whole log before any pair: times 1, 2, ... and addresses. */
  predicate Sequenced(c: Crypto, records: seq<Record>) {
    GapFree(records) && (records != [] ==> records[0].time == 1) && Addressed(c, records)
  }

  lemma {:induction false} TimesCount(records: seq<Record>, i: nat)
    requires GapFree(records) && (records != [] ==> records[0].time == 1) && i < |records|
    ensures records[i].time == i + 1
  {
    if i > 0 {
      TimesCount(records, i - 1);
    }
  }

  lemma VerifiedTimes(reg: Regime, records: seq<Record>)
    requires Lawful(reg, records)
    ensures GapFree(records) && Addressed(reg.crypto, records) && (records != [] ==> records[0].time == 1)
  {
    hide Lawful;
    forall i | 0 <= i < |records|
      ensures records[i].time == i + 1 && ComputeId(reg.crypto, records[i]) == records[i].id
    {
      PositionFacts(reg, records, i);
    }
  }

  /** Where replay stands: the records so far are lawful, indexed and folded. */
  ghost predicate ReplayedTo(c: Crypto, rules: Rules, records: seq<Record>, i: nat, index: Prior, now: State) {
    && i <= |records| && i % 2 == 0
    && Lawful(RegimeOf(c, rules), records[..i])
    && index == PriorOf(records[..i])
    && now == StateOf(records[..i])
  }

  // ----- The first fault ------------------------------------------------------------------

  /** A judgment that is not the right one: the right one's reason, if it has one. */
  function Misjudged(right: Judgment, given: Judgment): Finding {
    if right == given then None else if right.Reject? then Some(right.reason) else Some(InvalidPayload)
  }

  /** What is wrong with the pair at a position, judged from the prefix before it: a verdict
      where a subject should be, no verdict after it, one that is not a verdict on it, or
      one that gives another judgment than the rules. */
  ghost function FaultAt(c: Crypto, rules: Rules, records: seq<Record>, i: nat): Finding
    requires i < |records|
  {
    var g, s := records[..i], records[i];
    if s.kind == Kind.Verdict then CheckVerdict(c, rules, PriorOf(g), s)
    else if i + 1 == |records| || records[i + 1].kind != Kind.Verdict then Some(InvalidPayload)
    else
      OrElse(CheckPaired(c, rules, PriorOf(g).Insert(s), s, records[i + 1]),
             Misjudged(Judge(c, rules, PriorOf(g), StateOf(g), s), JudgmentOf(records[i + 1])))
  }

  /** The prefix is lawful up to a position and not past it. */
  ghost predicate StopsAt(c: Crypto, rules: Rules, records: seq<Record>, i: nat) {
    && i < |records| && i % 2 == 0
    && Lawful(RegimeOf(c, rules), records[..i])
    && !(i + 2 <= |records| && Lawful(RegimeOf(c, rules), records[..i + 2]))
  }

  /** There is one such position: the even prefixes up to it are lawful, the longer are not. */
  lemma StopsOnce(c: Crypto, rules: Rules, records: seq<Record>, i: nat, j: nat)
    requires StopsAt(c, rules, records, i) && j <= |records| && j % 2 == 0
    ensures Lawful(RegimeOf(c, rules), records[..j]) <==> j <= i
  {
    hide Lawful, RegimeOf;
    var reg := RegimeOf(c, rules);
    if j <= i {
      PrefixVerified(reg, records[..i], j);
      assert records[..i][..j] == records[..j];
    } else {
      assert records[..j][..i + 2] == records[..i + 2];
      if Lawful(reg, records[..j]) {
        PrefixVerified(reg, records[..j], i + 2);
      }
    }
  }

  lemma StopIsFinal(c: Crypto, rules: Rules, records: seq<Record>, i: nat)
    requires StopsAt(c, rules, records, i)
    ensures !Lawful(RegimeOf(c, rules), records)
  {
    hide Lawful, RegimeOf;
    if Lawful(RegimeOf(c, rules), records) {
      VerifiedIsPaired(RegimeOf(c, rules), records);
      assert records[..|records|] == records;
      StopsOnce(c, rules, records, i, |records|);
    }
  }

  /** A pair without fault is what a lawful pair is. */
  lemma FaultlessPair(c: Crypto, rules: Rules, g: seq<Record>, s: Record, v: Record)
    requires Collisionless(c) && Lawful(RegimeOf(c, rules), g)
    requires s.kind != Kind.Verdict && v.kind == Kind.Verdict
    requires ComputeId(c, s) == s.id && s.time == |g| + 1 && v.time == |g| + 2
    ensures PairOk(RegimeOf(c, rules), g, s, v) <==>
      && CheckPaired(c, rules, PriorOf(g).Insert(s), s, v).None?
      && JudgmentOf(v) == Judge(c, rules, PriorOf(g), StateOf(g), s)
  {
    hide StateOf, PriorOf, Judge, CheckVerdict, CheckPaired, Lawful;
    PairedEnvelope(c, rules, g, s, v);
  }

  lemma AddressedAt(c: Crypto, records: seq<Record>, i: nat)
    requires Addressed(c, records) && i < |records|
    ensures ComputeId(c, records[i]) == records[i].id
  {
  }

  /** A fault is exactly what ends the lawful prefix. */
  lemma FaultStops(c: Crypto, rules: Rules, records: seq<Record>, i: nat)
    requires Collisionless(c) && GapFree(records) && Addressed(c, records)
    requires i < |records| && i % 2 == 0 && records[0].time == 1 && Lawful(RegimeOf(c, rules), records[..i])
    ensures FaultAt(c, rules, records, i).Some? <==> StopsAt(c, rules, records, i)
  {
    hide StateOf, PriorOf, Judge, CheckVerdict, CheckPaired, Lawful, RegimeOf, GapFree, Addressed, Collisionless, PairOk;
    var g, s := records[..i], records[i];
    LoneVerdictFails(c, rules, g, s);
    if i + 1 < |records| {
      var v := records[i + 1];
      AddressedAt(c, records, i);
      TimesCount(records, i);
      TimesCount(records, i + 1);
      PairAppends(RegimeOf(c, rules), g, s, v);
      assert records[..i + 2] == g + [s, v];
      PairKinds(RegimeOf(c, rules), g, s, v);
      if s.kind != Kind.Verdict && v.kind == Kind.Verdict {
        FaultlessPair(c, rules, g, s, v);
      }
    }
  }

  lemma PairKinds(reg: Regime, g: seq<Record>, s: Record, v: Record)
    ensures PairOk(reg, g, s, v) ==> s.kind != Kind.Verdict && v.kind == Kind.Verdict
  {
    hide StateOf, PriorOf;
  }

  /** A pair replay passes over extends the lawful prefix. */
  lemma PairContinues(c: Crypto, rules: Rules, records: seq<Record>, i: nat, index: Prior, now: State)
    requires ReplayedTo(c, rules, records, i, index, now) && i + 1 < |records|
    requires Lawful(RegimeOf(c, rules), records[..i + 2])
    ensures ReplayedTo(c, rules, records, i + 2, index.Insert(records[i]).Insert(records[i + 1]),
                       ApplyPair(now, records[i], records[i + 1]))
  {
    hide StateOf, PriorOf, Lawful, ApplyPair, RegimeOf;
    var g, s, v := records[..i], records[i], records[i + 1];
    PairAppends(RegimeOf(c, rules), g, s, v);
    assert records[..i + 2] == g + [s, v];
  }

  /** What the loop knows at a position, and what the first fault there looks like. */
  lemma HereStands(c: Crypto, rules: Rules, records: seq<Record>, i: nat, index: Prior, now: State)
    requires Collisionless(c) && GapFree(records) && Addressed(c, records)
    requires i < |records| && records[0].time == 1 && ReplayedTo(c, rules, records, i, index, now)
    ensures i % 2 == 0 && Lawful(RegimeOf(c, rules), records[..i]) && index == PriorOf(records[..i])
    ensures var s := records[i];
            FaultAt(c, rules, records, i) ==
              if s.kind == Kind.Verdict then CheckVerdict(c, rules, index, s)
              else if i + 1 == |records| || records[i + 1].kind != Kind.Verdict then Some(InvalidPayload)
              else OrElse(CheckPaired(c, rules, index.Insert(s), s, records[i + 1]),
                          Misjudged(Judge(c, rules, index.Insert(s), now, s), JudgmentOf(records[i + 1])))
    ensures records[i].kind == Kind.Verdict ==> CheckVerdict(c, rules, index, records[i]).Some?
  {
    hide StateOf, PriorOf, Judge, CheckVerdict, CheckPaired, Lawful, RegimeOf, GapFree, Addressed, Collisionless;
    var s := records[i];
    LoneVerdictFails(c, rules, records[..i], s);
    if s.kind != Kind.Verdict {
      AddressedAt(c, records, i);
      TimesCount(records, i);
      ReplayJudges(c, rules, records[..i], s);
    }
  }

  lemma GoesOn(c: Crypto, rules: Rules, records: seq<Record>, i: nat)
    requires i + 1 < |records| && i % 2 == 0 && Lawful(RegimeOf(c, rules), records[..i])
    requires !StopsAt(c, rules, records, i)
    ensures Lawful(RegimeOf(c, rules), records[..i + 2])
  {
    hide Lawful, RegimeOf;
  }

  lemma ReplayedAll(c: Crypto, rules: Rules, records: seq<Record>, index: Prior, now: State)
    requires ReplayedTo(c, rules, records, |records|, index, now)
    ensures Lawful(RegimeOf(c, rules), records) && now == StateOf(records)
  {
    assert records[..|records|] == records;
  }

  /** Replay the records from a position on, given the index and state of what is before. */
  method ReplayFrom(c: Crypto, rules: Rules, records: seq<Record>, start: nat, before: Prior, state: LiveState)
    returns (verdict: LogVerdict)
    requires Collisionless(c) && GapFree(records) && Addressed(c, records)
    requires records != [] ==> records[0].time == 1
    requires ReplayedTo(c, rules, records, start, before, state.Now())
    modifies state
    ensures verdict.reason.None? <==> Lawful(RegimeOf(c, rules), records)
    ensures verdict.reason.None? ==>
      && verdict.checked == |records| - start
      && state.Now() == StateOf(records)
      && verdict.retracted == state.Now().retracted && verdict.tainted == state.Now().tainted
    ensures verdict.reason.Some? ==>
      && StopsAt(c, rules, records, start + verdict.checked)
      && verdict.reason == FaultAt(c, rules, records, start + verdict.checked)
      && verdict.retracted == {} && verdict.tainted == {}
    ensures verdict.lastTime == LastTime(records)
  {
    hide StateOf, PriorOf, Judge, CheckVerdict, CheckPaired, Lawful, Apply, LiveState.Now, StopsAt, FaultAt;
    var index := before;
    var i := start;
    while i < |records|
      invariant start <= i && ReplayedTo(c, rules, records, i, index, state.Now())
    {
      hide ReplayedTo;
      var subject := records[i];
      HereStands(c, rules, records, i, index, state.Now());
      FaultStops(c, rules, records, i);
      if FaultAt(c, rules, records, i).Some? {
        StopIsFinal(c, rules, records, i);
      }
      if subject.kind == Kind.Verdict {
        // A verdict here has no unjudged subject before it, so this always has a reason.
        var lone := CheckVerdict(c, rules, index, subject);
        return Rejected(lone.value, i - start, records);
      }
      if i + 1 >= |records| || records[i + 1].kind != Kind.Verdict {
        return Rejected(InvalidPayload, i - start, records);
      }
      var next := records[i + 1];
      index := index.Insert(subject);
      var envelope := CheckPaired(c, rules, index, subject, next);
      if envelope.Some? {
        return Rejected(envelope.value, i - start, records);
      }
      var judgment := VerifyRecord(c, rules, index, state.Now(), subject);
      if judgment != JudgmentOf(next) {
        return Rejected(if judgment.Reject? then judgment.reason else InvalidPayload, i - start, records);
      }
      GoesOn(c, rules, records, i);
      PairContinues(c, rules, records, i, PriorOf(records[..i]), state.Now());
      var _ := state.ApplyRecord(subject, judgment);
      state.AdvanceTo(next.time);
      index := index.Insert(next);
      i := i + 2;
    }
    ReplayedAll(c, rules, records, index, state.Now());
    verdict := LogVerdict(None, i - start, LastTime(records), state.Now().retracted, state.Now().tainted);
  }

  /** Replay from genesis: accepts exactly the lawful logs, and ends in their state. */
  method VerifyLog(c: Crypto, rules: Rules, records: seq<Record>) returns (verdict: LogVerdict, state: LiveState)
    requires Collisionless(c)
    ensures fresh(state)
    ensures verdict.reason.None? <==> Lawful(RegimeOf(c, rules), records)
    ensures verdict.reason.None? ==>
      && verdict.checked == |records|
      && state.Now() == StateOf(records)
      && verdict.retracted == state.Now().retracted && verdict.tainted == state.Now().tainted
    ensures verdict.reason.Some? ==>
      && (if Sequenced(c, records)
          then StopsAt(c, rules, records, verdict.checked) && verdict.reason == FaultAt(c, rules, records, verdict.checked)
          else verdict.reason == Some(InvalidPayload) && verdict.checked == 0)
      && verdict.retracted == {} && verdict.tainted == {}
    ensures verdict.lastTime == LastTime(records)
  {
    hide StateOf, PriorOf, Judge, Lawful, RegimeOf, ReplayedTo, StopsAt, FaultAt;
    state := new LiveState();
    if !GapFree(records) || (records != [] && records[0].time != 1) || !Addressed(c, records) {
      if Lawful(RegimeOf(c, rules), records) {
        VerifiedTimes(RegimeOf(c, rules), records);
        RegimeHolds(c, rules);
      }
      return Rejected(InvalidPayload, 0, records), state;
    }
    StartOfReplay(c, rules, records);
    verdict := ReplayFrom(c, rules, records, 0, NO_PRIOR, state);
  }

  lemma RegimeHolds(c: Crypto, rules: Rules)
    ensures RegimeOf(c, rules).crypto == c && RegimeOf(c, rules).space == rules.space
  {
  }

  lemma StartOfReplay(c: Crypto, rules: Rules, records: seq<Record>)
    ensures ReplayedTo(c, rules, records, 0, NO_PRIOR, EMPTY_STATE)
  {
  }
}
