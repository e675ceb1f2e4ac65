// A hash without collisions: records numbered by their content, each after every id it
// mentions. So what the main results assume of the hash can be met.
module Numbering {
  import opened Records
  import opened Rules

  // ----- Pairs and lists of numbers -----------------------------------------------------------

  /** `a` trailing zeros after an odd number that holds `b`. */
  function Pair(a: nat, b: nat): (n: nat)
    ensures n > a && n > b
  {
    if a == 0 then 2 * b + 1 else 2 * Pair(a - 1, b)
  }

  lemma {:induction false} PairApart(a: nat, b: nat, c: nat, d: nat)
    requires Pair(a, b) == Pair(c, d)
    ensures a == c && b == d
  {
    if a > 0 && c > 0 {
      PairApart(a - 1, b, c - 1, d);
    }
  }

  /** A list as one number, larger than everything in it. */
  function Num(xs: seq<nat>): (n: nat)
    ensures xs != [] ==> n > 0
    ensures forall x :: x in xs ==> x < n
  {
    if xs == [] then 0
    else
      assert xs == [xs[0]] + xs[1..];
      Pair(xs[0], Num(xs[1..]))
  }

  lemma {:induction false} NumApart(xs: seq<nat>, ys: seq<nat>)
    requires Num(xs) == Num(ys)
    ensures xs == ys
  {
    if xs != [] && ys != [] {
      PairApart(xs[0], Num(xs[1..]), ys[0], Num(ys[1..]));
      NumApart(xs[1..], ys[1..]);
      assert xs == [xs[0]] + xs[1..] && ys == [ys[0]] + ys[1..];
    }
  }

  function OfInt(i: int): nat {
    if i < 0 then Num([1, -i]) else Num([0, i])
  }

  lemma IntApart(i: int, j: int)
    requires OfInt(i) == OfInt(j)
    ensures i == j
  {
    NumApart(if i < 0 then [1, -i] else [0, i], if j < 0 then [1, -j] else [0, j]);
  }

  function Codes(s: string): (xs: seq<nat>)
    ensures |xs| == |s| && forall i :: 0 <= i < |s| ==> xs[i] == s[i] as int
  {
    seq(|s|, i requires 0 <= i < |s| => s[i] as int)
  }

  function OfText(s: string): nat {
    Num(Codes(s))
  }

  lemma TextApart(s: string, t: string)
    requires OfText(s) == OfText(t)
    ensures s == t
  {
    NumApart(Codes(s), Codes(t));
    assert forall i :: 0 <= i < |s| ==> Codes(s)[i] == Codes(t)[i];
  }

  function OfBool(b: bool): nat {
    if b then 1 else 0
  }

  function OfOption(o: Option<nat>): nat {
    if o.Some? then Num([o.value]) else 0
  }

  lemma OptionApart(o: Option<nat>, p: Option<nat>)
    requires OfOption(o) == OfOption(p)
    ensures o == p
  {
    if o.Some? && p.Some? {
      NumApart([o.value], [p.value]);
      assert [o.value][0] == [p.value][0];
    }
  }

  function OfTextOption(o: Option<string>): nat {
    OfOption(if o.Some? then Some(OfText(o.value)) else None)
  }

  lemma TextOptionApart(o: Option<string>, p: Option<string>)
    requires OfTextOption(o) == OfTextOption(p)
    ensures o == p
  {
    OptionApart(if o.Some? then Some(OfText(o.value)) else None, if p.Some? then Some(OfText(p.value)) else None);
    if o.Some? && p.Some? {
      TextApart(o.value, p.value);
    }
  }

  function TextNumbers(list: seq<string>): (xs: seq<nat>)
    ensures |xs| == |list| && forall i :: 0 <= i < |list| ==> xs[i] == OfText(list[i])
  {
    seq(|list|, i requires 0 <= i < |list| => OfText(list[i]))
  }

  function OfTexts(list: seq<string>): nat {
    Num(TextNumbers(list))
  }

  lemma TextsApart(a: seq<string>, b: seq<string>)
    requires OfTexts(a) == OfTexts(b)
    ensures a == b
  {
    NumApart(TextNumbers(a), TextNumbers(b));
    forall i | 0 <= i < |a|
      ensures a[i] == b[i]
    {
      assert TextNumbers(a)[i] == TextNumbers(b)[i];
      TextApart(a[i], b[i]);
    }
  }

  // ----- The parts of payloads -----------------------------------------------------------------

  function ArtifactFields(a: ArtifactRef): seq<nat> {
    [OfText(a.scheme), OfText(a.digest), OfTextOption(a.name)]
  }

  lemma ArtifactApart(a: ArtifactRef, b: ArtifactRef)
    requires Num(ArtifactFields(a)) == Num(ArtifactFields(b))
    ensures a == b
  {
    var x, y := ArtifactFields(a), ArtifactFields(b);
    NumApart(x, y);
    assert x[0] == y[0] && x[1] == y[1] && x[2] == y[2];
    TextApart(a.scheme, b.scheme);
    TextApart(a.digest, b.digest);
    TextOptionApart(a.name, b.name);
  }

  function ArtifactNumbers(list: seq<ArtifactRef>): (xs: seq<nat>)
    ensures |xs| == |list| && forall i :: 0 <= i < |list| ==> xs[i] == Num(ArtifactFields(list[i]))
  {
    seq(|list|, i requires 0 <= i < |list| => Num(ArtifactFields(list[i])))
  }

  lemma ArtifactsApart(a: seq<ArtifactRef>, b: seq<ArtifactRef>)
    requires Num(ArtifactNumbers(a)) == Num(ArtifactNumbers(b))
    ensures a == b
  {
    NumApart(ArtifactNumbers(a), ArtifactNumbers(b));
    forall i | 0 <= i < |a|
      ensures a[i] == b[i]
    {
      assert ArtifactNumbers(a)[i] == ArtifactNumbers(b)[i];
      ArtifactApart(a[i], b[i]);
    }
  }

  function OfArtifacts(o: Option<seq<ArtifactRef>>): nat {
    OfOption(if o.Some? then Some(Num(ArtifactNumbers(o.value))) else None)
  }

  lemma ArtifactsOptionApart(o: Option<seq<ArtifactRef>>, p: Option<seq<ArtifactRef>>)
    requires OfArtifacts(o) == OfArtifacts(p)
    ensures o == p
  {
    OptionApart(if o.Some? then Some(Num(ArtifactNumbers(o.value))) else None,
                if p.Some? then Some(Num(ArtifactNumbers(p.value))) else None);
    if o.Some? && p.Some? {
      ArtifactsApart(o.value, p.value);
    }
  }

  function SourceFields(s: SourceBinding): seq<nat> {
    [OfBool(s.algo.Sha1?), OfText(s.tree), OfTextOption(s.commit), OfOption(s.manifestHash), OfBool(s.binding.BoundReported?)]
  }

  lemma SourceApart(a: SourceBinding, b: SourceBinding)
    requires Num(SourceFields(a)) == Num(SourceFields(b))
    ensures a == b
  {
    var x, y := SourceFields(a), SourceFields(b);
    NumApart(x, y);
    assert x[0] == y[0] && x[1] == y[1] && x[2] == y[2] && x[3] == y[3] && x[4] == y[4];
    TextApart(a.tree, b.tree);
    TextOptionApart(a.commit, b.commit);
    OptionApart(a.manifestHash, b.manifestHash);
  }

  function DeciderFields(d: Decider): seq<nat> {
    [OfText(d.id), OfOption(d.procedureHash), OfOption(d.inputHash)]
  }

  lemma DeciderApart(a: Decider, b: Decider)
    requires Num(DeciderFields(a)) == Num(DeciderFields(b))
    ensures a == b
  {
    var x, y := DeciderFields(a), DeciderFields(b);
    NumApart(x, y);
    assert x[0] == y[0] && x[1] == y[1] && x[2] == y[2];
    TextApart(a.id, b.id);
    OptionApart(a.procedureHash, b.procedureHash);
    OptionApart(a.inputHash, b.inputHash);
  }

  function OfTaskStatus(s: TaskStatus): nat {
    match s
    case TaskPending => 0
    case TaskRunning => 1
    case TaskDone => 2
    case TaskFailed => 3
    case TaskSkipped => 4
  }

  function TaskFields(t: PlanTask): seq<nat> {
    [OfText(t.id), OfTexts(t.inputsFrom), OfTaskStatus(t.status), OfOption(t.resultRecordId), OfTexts(t.dependsOn)]
  }

  lemma TaskApart(a: PlanTask, b: PlanTask)
    requires Num(TaskFields(a)) == Num(TaskFields(b))
    ensures a == b
  {
    var x, y := TaskFields(a), TaskFields(b);
    NumApart(x, y);
    assert x[0] == y[0] && x[1] == y[1] && x[2] == y[2] && x[3] == y[3] && x[4] == y[4];
    TextApart(a.id, b.id);
    TextsApart(a.inputsFrom, b.inputsFrom);
    OptionApart(a.resultRecordId, b.resultRecordId);
    TextsApart(a.dependsOn, b.dependsOn);
  }

  function TaskNumbers(list: seq<PlanTask>): (xs: seq<nat>)
    ensures |xs| == |list| && forall i :: 0 <= i < |list| ==> xs[i] == Num(TaskFields(list[i]))
  {
    seq(|list|, i requires 0 <= i < |list| => Num(TaskFields(list[i])))
  }

  lemma TasksApart(a: seq<PlanTask>, b: seq<PlanTask>)
    requires Num(TaskNumbers(a)) == Num(TaskNumbers(b))
    ensures a == b
  {
    NumApart(TaskNumbers(a), TaskNumbers(b));
    forall i | 0 <= i < |a|
      ensures a[i] == b[i]
    {
      assert TaskNumbers(a)[i] == TaskNumbers(b)[i];
      TaskApart(a[i], b[i]);
    }
  }

  function OutcomeFields(o: EvaluationOutcome): seq<nat> {
    match o
    case Passed => [0]
    case Failed => [1]
    case Blocked => [2]
    case Insufficient => [3]
    case Stale => [4]
    case NotRun => [5]
    case Scored(value, scale) => [6, OfInt(value), OfInt(scale)]
  }

  lemma OutcomeApart(a: EvaluationOutcome, b: EvaluationOutcome)
    requires Num(OutcomeFields(a)) == Num(OutcomeFields(b))
    ensures a == b
  {
    var x, y := OutcomeFields(a), OutcomeFields(b);
    NumApart(x, y);
    assert x[0] == y[0];
    if a.Scored? && b.Scored? {
      assert x[1] == y[1] && x[2] == y[2];
      IntApart(a.value, b.value);
      IntApart(a.scale, b.scale);
    }
  }

  function OfDecision(o: SelectionOutcome): nat {
    OfOption(if o.Selected? then Some(Num(o.candidates)) else None)
  }

  lemma DecisionApart(a: SelectionOutcome, b: SelectionOutcome)
    requires OfDecision(a) == OfDecision(b)
    ensures a == b
  {
    OptionApart(if a.Selected? then Some(Num(a.candidates)) else None, if b.Selected? then Some(Num(b.candidates)) else None);
    if a.Selected? && b.Selected? {
      NumApart(a.candidates, b.candidates);
    }
  }

  function OfReason(r: ReasonCode): nat {
    match r
    case SchemaUnknown => 0
    case KindSchemaMismatch => 1
    case SignatureMissing => 2
    case SignatureInvalid => 3
    case RefUnresolved => 4
    case RefCrossSpace => 5
    case RequestMissing => 6
    case CapabilityMissing => 7
    case CapabilityDenied => 8
    case ApprovalMissing => 9
    case ApprovalExpired => 10
    case ActionClosed => 11
    case ReplacementInvalid => 12
    case ExternalReceiptRequired => 13
    case EvidenceBelowThreshold => 14
    case InvalidPayload => 15
    case AuthorRoleInvalid => 16
    case AuthorityRefMissing => 17
    case SourceBindingInvalid => 18
    case LineageInvalid => 19
    case PayloadRefUnresolved => 20
    case EvaluationInvalid => 21
    case SelectionInvalid => 22
    case ReaffirmationInvalid => 23
    case ArtifactRefInvalid => 24
    case RequirementInvalid => 25
    case InvalidCheckpoint => 26
  }

  function OfMode(m: CapabilityMode): nat {
    match m case Auto => 0 case Ask => 1 case Deny => 2
  }

  function OfSummaryType(t: SummaryType): nat {
    match t case Procedure => 0 case Pattern => 1 case Lesson => 2 case StateSnapshot => 3
  }

  function OfUsageOutcome(o: UsageOutcome): nat {
    match o case Done => 0 case NotDone => 1 case NoChange => 2
  }

  function OfRefusalTarget(t: RefusalTarget): nat {
    match t case OfAction => 0 case OfRequest => 1 case OfVerifiedEffect => 2
  }

  function OfPlanStatus(s: PlanStatus): nat {
    match s case PlanRunning => 0 case PlanCompleted => 1 case PlanAbandoned => 2
  }

  function OfBasis(b: CandidateBasis): nat {
    match b case Root => 0 case Continuation => 1 case Derivation => 2
  }

  // ----- Payloads ---------------------------------------------------------------------------------

  function SubjectFields(s: Subject): seq<nat>
    decreases s, 0
  {
    match s
    case ActionSubject(actor, action) => [0, OfText(actor), OfPayload(action)]
    case SelectionSubject(actor, replaced, selection) => [1, OfText(actor), OfOption(replaced), OfPayload(selection)]
    case OtherSubject(hash) => [2, hash]
  }

  function Tag(p: Payload): nat {
    match p
    case RequestData(_, _, _) => 0
    case ActionData(_, _, _, _, _) => 1
    case ResponseData(_, _, _, _) => 2
    case ResultData(_, _, _, _) => 3
    case SummaryData(_, _, _) => 4
    case ApprovalData(_, _, _, _, _) => 5
    case CapabilityData(_, _, _, _, _) => 6
    case UsageData(_, _, _, _, _) => 7
    case RefusalData(_, _) => 8
    case VerdictData(_) => 9
    case PlanData(_, _, _) => 10
    case RetractionData(_, _) => 11
    case CandidateData(_, _, _, _) => 12
    case EvaluationData(_, _, _) => 13
    case EvaluationDataV2(_, _, _, _, _, _, _) => 14
    case SelectionData(_, _, _) => 15
    case RequirementData(_, _, _, _) => 16
    case Malformed(_) => 17
  }

  function Fields(p: Payload): seq<nat>
    decreases p, 0
  {
    match p
    case RequestData(objective, scope, parent) => [OfText(objective), scope, OfOption(parent)]
    case ActionData(request, class_, scope, mode, params) =>
      [request, OfText(class_), scope, OfBool(mode.Internal?), OfText(params)]
    case ResponseData(request, content, turn, closes) => [request, OfText(content), turn, OfBool(closes)]
    case ResultData(action, status, output, artifacts) =>
      [action, OfBool(status.Success?), OfText(output), OfArtifacts(artifacts)]
    case SummaryData(type_, subject, scope) => [OfSummaryType(type_), subject, scope]
    case ApprovalData(target, class_, scope, actor, expiry) =>
      [OfOption(if target.Some? then Some(Num(SubjectFields(target.value))) else None), OfTextOption(class_), scope,
       OfTextOption(actor), OfOption(expiry)]
    case CapabilityData(actor, class_, scope, mode, expiry) =>
      [OfText(actor), OfText(class_), scope, OfMode(mode), OfOption(expiry)]
    case UsageData(actor, used, consuming, role, outcome) =>
      [OfText(actor), used, consuming, OfText(role), OfUsageOutcome(outcome)]
    case RefusalData(target, kind) => [target, OfRefusalTarget(kind)]
    case VerdictData(judgment) => [OfJudgment(judgment)]
    case PlanData(request, tasks, status) => [request, Num(TaskNumbers(tasks)), OfPlanStatus(status)]
    case RetractionData(target, why) => [target, OfText(why)]
    case CandidateData(source, basis, parent, artifacts) =>
      [Num(SourceFields(source)), OfBasis(basis), OfOption(parent), OfArtifacts(artifacts)]
    case EvaluationData(candidate, criterion, outcome) => [candidate, OfText(criterion), Num(OutcomeFields(outcome))]
    case EvaluationDataV2(candidate, criterion, outcome, evaluator, basis, evidence, requirements) =>
      [candidate, OfText(criterion), Num(OutcomeFields(outcome)), Num(DeciderFields(evaluator)),
       OfBool(basis.Recomputed?), Num(ArtifactNumbers(evidence)), Num(requirements)]
    case SelectionData(objective, considered, decision) =>
      [OfText(objective), Num(considered), OfDecision(decision)]
    case RequirementData(key, description, required, provenance) =>
      [OfText(key), OfText(description), OfBool(required), OfBool(provenance.Derived?)]
    case Malformed(bytes) => [Num(bytes)]
  }

  function OfPayload(p: Payload): nat
    decreases p, 1
  {
    Num([Tag(p)] + Fields(p))
  }

  lemma PayloadParts(p: Payload, q: Payload)
    requires OfPayload(p) == OfPayload(q)
    ensures Tag(p) == Tag(q) && Fields(p) == Fields(q)
  {
    hide Fields, Tag;
    var x, y := [Tag(p)] + Fields(p), [Tag(q)] + Fields(q);
    NumApart(x, y);
    assert x[0] == y[0] && x[1..] == Fields(p) && y[1..] == Fields(q);
  }

  /** Two numbers of one kind of payload: the fields decide. */
  lemma WorkApart(p: Payload, q: Payload)
    requires Tag(p) == Tag(q) && Tag(p) < 4 && Fields(p) == Fields(q)
    ensures p == q
  {
    hide Num, OfTextOption, OfText, OfOption, OfArtifacts;
    var x, y := Fields(p), Fields(q);
    assert x[0] == y[0] && x[1] == y[1] && x[2] == y[2];
    match p {
      case RequestData(objective, _, parent) =>
        TextApart(objective, q.objective);
        OptionApart(parent, q.parentRequest);
      case ActionData(_, class_, _, _, params) =>
        assert x[3] == y[3] && x[4] == y[4];
        TextApart(class_, q.actionClass);
        TextApart(params, q.params);
      case ResponseData(_, content, _, _) =>
        assert x[3] == y[3];
        TextApart(content, q.content);
      case ResultData(_, _, output, artifacts) =>
        assert x[3] == y[3];
        TextApart(output, q.output);
        ArtifactsOptionApart(artifacts, q.artifacts);
    }
  }

  lemma GrantApart(p: Payload, q: Payload)
    requires Tag(p) == Tag(q) && 4 <= Tag(p) < 8 && Tag(p) != 5 && Fields(p) == Fields(q)
    ensures p == q
  {
    hide Num, OfTextOption, OfText, OfOption, OfArtifacts;
    var x, y := Fields(p), Fields(q);
    assert x[0] == y[0] && x[1] == y[1] && x[2] == y[2];
    match p {
      case SummaryData(_, _, _) =>
      case CapabilityData(actor, class_, _, _, expiry) =>
        assert x[3] == y[3] && x[4] == y[4];
        TextApart(actor, q.actor);
        TextApart(class_, q.actionClass);
        OptionApart(expiry, q.expiry);
      case UsageData(actor, _, _, role, _) =>
        assert x[3] == y[3] && x[4] == y[4];
        TextApart(actor, q.actor);
        TextApart(role, q.usageRole);
    }
  }

  lemma {:induction false} ApprovalApart(p: Payload, q: Payload)
    requires p.ApprovalData? && q.ApprovalData? && Fields(p) == Fields(q)
    ensures p == q
    decreases p, 0
  {
    var x, y := Fields(p), Fields(q);
    assert x[0] == y[0] && x[1] == y[1] && x[2] == y[2] && x[3] == y[3] && x[4] == y[4];
    var s := if p.targetAction.Some? then Some(Num(SubjectFields(p.targetAction.value))) else None;
    var t := if q.targetAction.Some? then Some(Num(SubjectFields(q.targetAction.value))) else None;
    OptionApart(s, t);
    if p.targetAction.Some? {
      SubjectApart(p.targetAction.value, q.targetAction.value);
    }
    TextOptionApart(p.approvedClass, q.approvedClass);
    TextOptionApart(p.approvedActor, q.approvedActor);
    OptionApart(p.expiry, q.expiry);
  }

  lemma {:induction false} SubjectApart(a: Subject, b: Subject)
    requires Num(SubjectFields(a)) == Num(SubjectFields(b))
    ensures a == b
    decreases a, 0
  {
    var x, y := SubjectFields(a), SubjectFields(b);
    NumApart(x, y);
    assert x[0] == y[0] && x[1] == y[1];
    match a {
      case ActionSubject(actor, action) =>
        assert x[2] == y[2];
        TextApart(actor, b.actor);
        PayloadApart(action, b.action);
      case SelectionSubject(actor, replaced, selection) =>
        assert x[2] == y[2] && x[3] == y[3];
        TextApart(actor, b.actor);
        OptionApart(replaced, b.replaced);
        PayloadApart(selection, b.selection);
      case OtherSubject(_) =>
    }
  }

  lemma OutcomePayloadApart(p: Payload, q: Payload)
    requires Tag(p) == Tag(q) && 8 <= Tag(p) < 12 && Fields(p) == Fields(q)
    ensures p == q
  {
    hide Num, OfText, OfOption;
    var x, y := Fields(p), Fields(q);
    assert x[0] == y[0];
    match p {
      case RefusalData(_, _) =>
        assert x[1] == y[1];
      case VerdictData(j) =>
        JudgmentApart(j, q.judgment);
      case PlanData(_, tasks, _) =>
        assert x[1] == y[1] && x[2] == y[2];
        TasksApart(tasks, q.tasks);
      case RetractionData(_, why) =>
        assert x[1] == y[1];
        TextApart(why, q.why);
    }
  }

  function OfJudgment(j: Judgment): nat {
    OfOption(if j.Reject? then Some(OfReason(j.reason)) else None)
  }

  lemma JudgmentApart(a: Judgment, b: Judgment)
    requires OfJudgment(a) == OfJudgment(b)
    ensures a == b
  {
    OptionApart(if a.Reject? then Some(OfReason(a.reason)) else None, if b.Reject? then Some(OfReason(b.reason)) else None);
  }

  lemma EvolutionApart(p: Payload, q: Payload)
    requires Tag(p) == Tag(q) && Tag(p) >= 12 && Fields(p) == Fields(q)
    ensures p == q
  {
    hide Num, OfTextOption, OfText, OfOption, OfArtifacts, OfDecision, OutcomeFields, DeciderFields, SourceFields;
    var x, y := Fields(p), Fields(q);
    assert x[0] == y[0];
    match p {
      case CandidateData(source, _, parent, artifacts) =>
        assert x[1] == y[1] && x[2] == y[2] && x[3] == y[3];
        SourceApart(source, q.source);
        OptionApart(parent, q.parent);
        ArtifactsOptionApart(artifacts, q.artifacts);
      case EvaluationData(_, criterion, outcome) =>
        assert x[1] == y[1] && x[2] == y[2];
        TextApart(criterion, q.criterion);
        OutcomeApart(outcome, q.outcome);
      case EvaluationDataV2(_, criterion, outcome, evaluator, _, evidence, requirements) =>
        assert x[1] == y[1] && x[2] == y[2] && x[3] == y[3] && x[4] == y[4] && x[5] == y[5] && x[6] == y[6];
        TextApart(criterion, q.criterion);
        OutcomeApart(outcome, q.outcome);
        DeciderApart(evaluator, q.evaluator);
        ArtifactsApart(evidence, q.evidence);
        NumApart(requirements, q.requirements);
      case SelectionData(objective, considered, decision) =>
        assert x[1] == y[1] && x[2] == y[2];
        TextApart(objective, q.objective);
        NumApart(considered, q.considered);
        DecisionApart(decision, q.decision);
      case RequirementData(key, description, _, _) =>
        assert x[1] == y[1] && x[2] == y[2] && x[3] == y[3];
        TextApart(key, q.key);
        TextApart(description, q.description);
      case Malformed(bytes) =>
        NumApart(bytes, q.bytes);
    }
  }

  lemma {:induction false} PayloadApart(p: Payload, q: Payload)
    requires OfPayload(p) == OfPayload(q)
    ensures p == q
    decreases p, 1
  {
    PayloadParts(p, q);
    hide Fields;
    if Tag(p) < 4 {
      WorkApart(p, q);
    } else if Tag(p) == 5 {
      ApprovalApart(p, q);
    } else if Tag(p) < 8 {
      GrantApart(p, q);
    } else if Tag(p) < 12 {
      OutcomePayloadApart(p, q);
    } else {
      EvolutionApart(p, q);
    }
  }

  // ----- Records -----------------------------------------------------------------------------------

  function OfKind(k: Kind): nat {
    match k
    case Request => 0
    case Action => 1
    case Response => 2
    case Result => 3
    case Summary => 4
    case Approval => 5
    case Capability => 6
    case Usage => 7
    case Refusal => 8
    case Verdict => 9
    case Plan => 10
    case Retraction => 11
    case Candidate => 12
    case Evaluation => 13
    case Selection => 14
    case Requirement => 15
  }

  function OfSchema(s: Schema): nat {
    match s
    case RequestV1 => 0
    case ActionV1 => 1
    case ResponseV1 => 2
    case ResultV1 => 3
    case ResultExternal => 4
    case ResultEffectConfirmation => 5
    case CapabilityV1 => 6
    case ApprovalV1 => 7
    case SummaryV1 => 8
    case RefusalV1 => 9
    case UsageV1 => 10
    case VerdictV1 => 11
    case PlanV1 => 12
    case RetractionV1 => 13
    case CandidateV1 => 14
    case EvaluationV1 => 15
    case SelectionV1 => 16
    case RequirementV1 => 17
    case EvaluationV2 => 18
    case EvaluationAttested => 19
    case UnknownSchema(hash) => 20 + hash
  }

  function OfRole(r: AuthorType): nat {
    match r case User => 0 case Provider => 1 case System => 2 case Executor => 3 case Verifier => 4
  }

  function OfRefType(t: RefType): nat {
    match t case Cause => 0 case Use => 1 case Require => 2 case Replace => 3
  }

  function OfEvidence(e: Evidence): nat {
    match e case Deterministic => 0 case Verified => 1 case Reported => 2 case Inferred => 3 case Assumed => 4
  }

  function OfSignature(s: Option<Signature>): nat {
    OfOption(if s.Some? then Some(Num([s.value.keyId, s.value.sig])) else None)
  }

  lemma SignatureApart(s: Option<Signature>, t: Option<Signature>)
    requires OfSignature(s) == OfSignature(t)
    ensures s == t
  {
    OptionApart(if s.Some? then Some(Num([s.value.keyId, s.value.sig])) else None,
                if t.Some? then Some(Num([t.value.keyId, t.value.sig])) else None);
    if s.Some? && t.Some? {
      var x, y := [s.value.keyId, s.value.sig], [t.value.keyId, t.value.sig];
      NumApart(x, y);
      assert x[0] == y[0] && x[1] == y[1];
    }
  }

  function AuthorFields(a: Author): seq<nat> {
    [OfText(a.id), OfRole(a.role), OfSignature(a.signature)]
  }

  lemma AuthorApart(a: Author, b: Author)
    requires Num(AuthorFields(a)) == Num(AuthorFields(b))
    ensures a == b
  {
    hide OfText, OfSignature;
    var x, y := AuthorFields(a), AuthorFields(b);
    NumApart(x, y);
    assert x[0] == y[0] && x[1] == y[1] && x[2] == y[2];
    TextApart(a.id, b.id);
    SignatureApart(a.signature, b.signature);
  }

  function RefNumbers(refs: seq<Ref>): (xs: seq<nat>)
    ensures |xs| == |refs| && forall i :: 0 <= i < |refs| ==> xs[i] == Pair(OfRefType(refs[i].kind), refs[i].target)
  {
    seq(|refs|, i requires 0 <= i < |refs| => Pair(OfRefType(refs[i].kind), refs[i].target))
  }

  lemma RefsApart(a: seq<Ref>, b: seq<Ref>)
    requires Num(RefNumbers(a)) == Num(RefNumbers(b))
    ensures a == b
  {
    NumApart(RefNumbers(a), RefNumbers(b));
    forall i | 0 <= i < |a|
      ensures a[i] == b[i]
    {
      assert RefNumbers(a)[i] == RefNumbers(b)[i];
      PairApart(OfRefType(a[i].kind), a[i].target, OfRefType(b[i].kind), b[i].target);
    }
  }

  /** Everything of a record but its id. */
  function Content(r: Record): seq<nat> {
    [r.space, r.thread, r.time, Num(AuthorFields(r.author)), OfKind(r.kind), OfSchema(r.schema), OfPayload(r.data),
     Num(RefNumbers(r.refs)), OfEvidence(r.evidence)]
  }

  function NumberOf(r: Record): nat {
    Num(Content(r))
  }

  lemma ContentApart(a: Record, b: Record)
    requires NumberOf(a) == NumberOf(b)
    ensures a.(id := 0) == b.(id := 0)
  {
    hide AuthorFields, OfPayload, RefNumbers, Num, OfKind, OfSchema, OfEvidence;
    var x, y := Content(a), Content(b);
    NumApart(x, y);
    assert x[0] == y[0] && x[1] == y[1] && x[2] == y[2] && x[3] == y[3] && x[4] == y[4];
    assert x[5] == y[5] && x[6] == y[6] && x[7] == y[7] && x[8] == y[8];
    AuthorApart(a.author, b.author);
    EnumsApart(a, b);
    PayloadApart(a.data, b.data);
    RefsApart(a.refs, b.refs);
  }

  lemma EnumsApart(a: Record, b: Record)
    ensures OfKind(a.kind) == OfKind(b.kind) ==> a.kind == b.kind
    ensures OfSchema(a.schema) == OfSchema(b.schema) ==> a.schema == b.schema
    ensures OfEvidence(a.evidence) == OfEvidence(b.evidence) ==> a.evidence == b.evidence
  {
  }

  // ----- After every id it mentions ----------------------------------------------------------------

  lemma PayloadIsLater(p: Payload, x: Id)
    requires x in PayloadMentions(p)
    ensures x < OfPayload(p)
  {
    hide OfText, OfTextOption, OfArtifacts, SourceFields, OutcomeFields, DeciderFields, SubjectFields, ArtifactNumbers, Tag;
    var fields := Fields(p);
    assert forall i :: 0 <= i < |fields| ==> fields[i] in [Tag(p)] + fields;
    match p {
      case RequestData(_, _, parent) => assert parent.value in [parent.value] && OfOption(parent) == fields[2];
      case ActionData(_, _, _, _, _) => assert x == fields[0];
      case ResponseData(_, _, _, _) => assert x == fields[0];
      case ResultData(_, _, _, _) => assert x == fields[0];
      case UsageData(_, _, _, _, _) => assert x == fields[1] || x == fields[2];
      case RefusalData(_, _) => assert x == fields[0];
      case RetractionData(_, _) => assert x == fields[0];
      case CandidateData(_, _, parent, _) => assert parent.value in [parent.value] && OfOption(parent) == fields[2];
      case EvaluationData(_, _, _) => assert x == fields[0];
      case _ => ListedIsLater(p, x);
    }
  }

  /** The same where a payload lists ids. */
  lemma ListedIsLater(p: Payload, x: Id)
    requires x in PayloadMentions(p) && (p.PlanData? || p.EvaluationDataV2? || p.SelectionData?)
    ensures x < OfPayload(p)
  {
    hide OfText, SourceFields, OutcomeFields, DeciderFields, SubjectFields, ArtifactNumbers, Tag;
    var fields := Fields(p);
    assert forall i :: 0 <= i < |fields| ==> fields[i] in [Tag(p)] + fields;
    match p {
      case PlanData(request, tasks, _) =>
        assert request == fields[0] && Num(TaskNumbers(tasks)) == fields[1];
        if x != request {
          TaskIsLater(tasks, x);
        }
      case EvaluationDataV2(candidate, _, _, _, _, _, requirements) =>
        assert candidate == fields[0] && Num(requirements) == fields[6];
      case SelectionData(_, considered, decision) =>
        assert Num(considered) == fields[1] && OfDecision(decision) == fields[2];
        if x !in considered {
          assert Num(decision.candidates) in [Num(decision.candidates)];
        }
    }
  }

  lemma TaskIsLater(tasks: seq<PlanTask>, x: Id)
    requires exists i :: 0 <= i < |tasks| && tasks[i].resultRecordId == Some(x)
    ensures x < Num(TaskNumbers(tasks))
  {
    hide OfText, OfTexts;
    var i :| 0 <= i < |tasks| && tasks[i].resultRecordId == Some(x);
    assert x in [x] && OfOption(tasks[i].resultRecordId) == Num([x]);
    assert TaskFields(tasks[i])[3] in TaskFields(tasks[i]);
    assert TaskNumbers(tasks)[i] in TaskNumbers(tasks);
  }

  lemma RecordIsLater(r: Record, x: Id)
    requires x in Mentions(r)
    ensures x < NumberOf(r)
  {
    hide AuthorFields, OfPayload, PayloadMentions, Num;
    var content := Content(r);
    assert content[6] in content && content[7] in content;
    if x in PayloadMentions(r.data) {
      PayloadIsLater(r.data, x);
    } else {
      var i :| 0 <= i < |r.refs| && r.refs[i].target == x;
      assert RefNumbers(r.refs)[i] in RefNumbers(r.refs);
    }
  }

  /** Numbering records by content is a hash without collisions, without fixed points and
      without the empty head. Signatures and batch keys are free. */
  const BY_CONTENT: Crypto := Crypto(r => NumberOf(r), r => None, p => 0)

  lemma CollisionlessIsPossible()
    ensures Collisionless(BY_CONTENT)
  {
    hide NumberOf;
    forall a: Record, b: Record | ComputeId(BY_CONTENT, a) == ComputeId(BY_CONTENT, b)
      ensures a.(id := 0) == b.(id := 0)
    {
      ContentApart(a.(id := 0), b.(id := 0));
    }
    forall a: Record
      ensures ComputeId(BY_CONTENT, a) !in Mentions(a) && ComputeId(BY_CONTENT, a) != EMPTY_HEAD
    {
      NumberIsPositive(a.(id := 0));
      assert Mentions(a) == Mentions(a.(id := 0));
      if ComputeId(BY_CONTENT, a) in Mentions(a) {
        RecordIsLater(a.(id := 0), ComputeId(BY_CONTENT, a));
      }
    }
  }

  lemma NumberIsPositive(r: Record)
    ensures NumberOf(r) > 0
  {
    hide AuthorFields, OfPayload;
  }
}
