// The one durable primitive of the ledger: a typed, content-addressed record.
// Payloads are held decoded; hashes are natural numbers, ordered as their bytes.
module Records {

  datatype Option<+T> = None | Some(value: T)

  /** A 256-bit content address, read as a number so that `<` is byte order. */
  type Id = nat

  /** The head token of an empty log (all zero bytes). */
  const EMPTY_HEAD: Id := 0

  const U32_MAX: nat := 0xFFFF_FFFF
  const U64_MAX: nat := 0xFFFF_FFFF_FFFF_FFFF

  datatype Kind =
    | Request | Action | Response | Result | Summary | Approval | Capability | Usage
    | Refusal | Verdict | Plan | Retraction | Candidate | Evaluation | Selection | Requirement

  datatype Schema =
    | RequestV1 | ActionV1 | ResponseV1 | ResultV1 | ResultExternal | ResultEffectConfirmation
    | CapabilityV1 | ApprovalV1 | SummaryV1 | RefusalV1 | UsageV1 | VerdictV1 | PlanV1
    | RetractionV1 | CandidateV1 | EvaluationV1 | SelectionV1
    | RequirementV1 | EvaluationV2 | EvaluationAttested
    | UnknownSchema(hash: nat)

  datatype AuthorType = User | Provider | System | Executor | Verifier

  datatype Signature = Signature(keyId: nat, sig: nat)

  datatype Author = Author(id: string, role: AuthorType, signature: Option<Signature>)

  datatype RefType = Cause | Use | Require | Replace

  datatype Ref = Ref(kind: RefType, target: Id)

  datatype Evidence = Deterministic | Verified | Reported | Inferred | Assumed

  datatype ReasonCode =
    | SchemaUnknown | KindSchemaMismatch | SignatureMissing | SignatureInvalid
    | RefUnresolved | RefCrossSpace | RequestMissing | CapabilityMissing
    | CapabilityDenied | ApprovalMissing | ApprovalExpired | ActionClosed
    | ReplacementInvalid | ExternalReceiptRequired | EvidenceBelowThreshold
    | InvalidPayload | AuthorRoleInvalid | AuthorityRefMissing | SourceBindingInvalid
    | LineageInvalid | PayloadRefUnresolved | EvaluationInvalid | SelectionInvalid
    | ReaffirmationInvalid | ArtifactRefInvalid | RequirementInvalid | InvalidCheckpoint

  /** `VerdictData`: the result, and the reason code when it is a rejection. */
  datatype Judgment = Accept | Reject(reason: ReasonCode)

  datatype ExecMode = Internal | External
  datatype CapabilityMode = Auto | Ask | Deny
  datatype ResultStatus = Success | Failure
  datatype SummaryType = Procedure | Pattern | Lesson | StateSnapshot
  datatype UsageOutcome = Done | NotDone | NoChange
  datatype RefusalTarget = OfAction | OfRequest | OfVerifiedEffect
  datatype PlanStatus = PlanRunning | PlanCompleted | PlanAbandoned
  datatype TaskStatus = TaskPending | TaskRunning | TaskDone | TaskFailed | TaskSkipped
  datatype SourceAlgo = Sha1 | Sha256
  datatype BindingMode = BoundReported | BoundManifest
  datatype CandidateBasis = Root | Continuation | Derivation
  datatype Provenance = UserAuthored | Derived
  datatype DecisionBasis = Recomputed | Declared

  datatype ArtifactRef = ArtifactRef(scheme: string, digest: string, name: Option<string>)

  datatype SourceBinding = SourceBinding(
    algo: SourceAlgo, tree: string, commit: Option<string>, manifestHash: Option<nat>, binding: BindingMode)

  datatype Decider = Decider(id: string, procedureHash: Option<nat>, inputHash: Option<nat>)

  datatype PlanTask = PlanTask(
    id: string, inputsFrom: seq<string>, status: TaskStatus, resultRecordId: Option<Id>, dependsOn: seq<string>)

  datatype EvaluationOutcome =
    | Passed | Failed | Blocked | Insufficient | Stale | NotRun
    | Scored(value: int, scale: int)

  datatype SelectionOutcome = Selected(candidates: seq<Id>) | NothingSelected

  /** What an exact approval approves. The code stores SHA-256 of the canonical
      encoding of exactly these values; the two forms are domain-separated there. */
  datatype Subject =
    | ActionSubject(actor: string, action: Payload)
    | SelectionSubject(actor: string, replaced: Option<Id>, selection: Payload)
    | OtherSubject(hash: nat)

  datatype Payload =
    | RequestData(objective: string, scope: nat, parentRequest: Option<Id>)
    | ActionData(requestId: Id, actionClass: string, scope: nat, execMode: ExecMode, params: string)
    | ResponseData(requestId: Id, content: string, turnIndex: nat, closesRequest: bool)
    | ResultData(actionId: Id, status: ResultStatus, output: string, artifacts: Option<seq<ArtifactRef>>)
    | SummaryData(summaryType: SummaryType, subject: nat, scope: nat)
    | ApprovalData(targetAction: Option<Subject>, approvedClass: Option<string>, scope: nat,
                   approvedActor: Option<string>, expiry: Option<nat>)
    | CapabilityData(actor: string, actionClass: string, scope: nat, mode: CapabilityMode, expiry: Option<nat>)
    | UsageData(actor: string, usedRecord: Id, consumingRecord: Id, usageRole: string, usageOutcome: UsageOutcome)
    | RefusalData(targetId: Id, targetKind: RefusalTarget)
    | VerdictData(judgment: Judgment)
    | PlanData(requestId: Id, tasks: seq<PlanTask>, planStatus: PlanStatus)
    | RetractionData(targetId: Id, why: string)
    | CandidateData(source: SourceBinding, basis: CandidateBasis, parent: Option<Id>,
                    artifacts: Option<seq<ArtifactRef>>)
    | EvaluationData(candidate: Id, criterion: string, outcome: EvaluationOutcome)
    | EvaluationDataV2(candidate: Id, criterion: string, outcome: EvaluationOutcome, evaluator: Decider,
                       decisionBasis: DecisionBasis, evidence: seq<ArtifactRef>, requirements: seq<Id>)
    | SelectionData(objective: string, considered: seq<Id>, decision: SelectionOutcome)
    | RequirementData(key: string, description: string, required: bool, provenance: Provenance)
    | Malformed(bytes: seq<nat>)

  datatype Record = Record(
    id: Id, space: nat, thread: nat, time: nat, author: Author, kind: Kind, schema: Schema,
    data: Payload, refs: seq<Ref>, evidence: Evidence)

  /** What a proposer emits: a record without the writer-assigned id, time and evidence. */
  datatype Proposal = Proposal(
    space: nat, thread: nat, author: Author, kind: Kind, schema: Schema, data: Payload, refs: seq<Ref>)

  /** The kind each frozen schema belongs to. */
  function KindOf(s: Schema): Option<Kind> {
    match s
    case RequestV1 => Some(Request)
    case ActionV1 => Some(Action)
    case ResponseV1 => Some(Response)
    case ResultV1 => Some(Kind.Result)
    case ResultExternal => Some(Kind.Result)
    case ResultEffectConfirmation => Some(Kind.Result)
    case CapabilityV1 => Some(Capability)
    case ApprovalV1 => Some(Approval)
    case SummaryV1 => Some(Summary)
    case RefusalV1 => Some(Refusal)
    case UsageV1 => Some(Usage)
    case VerdictV1 => Some(Verdict)
    case PlanV1 => Some(Plan)
    case RetractionV1 => Some(Retraction)
    case CandidateV1 => Some(Candidate)
    case EvaluationV1 => Some(Evaluation)
    case EvaluationV2 => Some(Evaluation)
    case EvaluationAttested => Some(Evaluation)
    case SelectionV1 => Some(Selection)
    case RequirementV1 => Some(Requirement)
    case UnknownSchema(_) => None
  }

  /** Whether the payload bytes are the canonical form of the schema's type. Beyond the
      shape this is where decoding enforces its own bounds. */
  predicate DecodesAs(s: Schema, p: Payload) {
    match s
    case RequestV1 => p.RequestData?
    case ActionV1 => p.ActionData?
    case ResponseV1 => p.ResponseData? && p.turnIndex <= U32_MAX
    case ResultV1 => p.ResultData?
    case ResultExternal => p.ResultData?
    case ResultEffectConfirmation => p.ResultData?
    case CapabilityV1 => p.CapabilityData?
    case ApprovalV1 => p.ApprovalData?
    case SummaryV1 => p.SummaryData?
    case RefusalV1 => p.RefusalData?
    case UsageV1 => p.UsageData?
    case VerdictV1 => p.VerdictData?
    case PlanV1 => p.PlanData?
    case RetractionV1 => p.RetractionData?
    case CandidateV1 => p.CandidateData?
    case EvaluationV1 => p.EvaluationData? && p.criterion != "" && V1Outcome(p.outcome) && ScoreInRange(p.outcome)
    case EvaluationV2 => p.EvaluationDataV2? && p.criterion != "" && ScoreInRange(p.outcome)
    case EvaluationAttested => p.EvaluationDataV2? && p.criterion != "" && ScoreInRange(p.outcome)
    case SelectionV1 => p.SelectionData? && p.objective != ""
    case RequirementV1 => p.RequirementData?
    case UnknownSchema(_) => false
  }

  predicate V1Outcome(o: EvaluationOutcome) {
    o.Passed? || o.Failed? || o.Scored?
  }

  const MAX_SAFE_INTEGER: int := 9_007_199_254_740_991

  predicate ScoreInRange(o: EvaluationOutcome) {
    o.Scored? ==> -MAX_SAFE_INTEGER <= o.value <= MAX_SAFE_INTEGER && 0 <= o.scale <= 12
  }

  /** Whether the payload decodes to the type the state fold expects for a kind.
      Kinds the fold never decodes fit with any payload. */
  predicate FitsKind(k: Kind, p: Payload) {
    match k
    case Action => p.ActionData?
    case Response => p.ResponseData?
    case Result => p.ResultData?
    case Summary => p.SummaryData?
    case Approval => p.ApprovalData?
    case Capability => p.CapabilityData?
    case Usage => p.UsageData?
    case Refusal => p.RefusalData?
    case Plan => p.PlanData?
    case Retraction => p.RetractionData?
    case Selection => p.SelectionData?
    case Requirement => p.RequirementData?
    case Request => true
    case Verdict => true
    case Candidate => true
    case Evaluation => true
  }

  predicate Epistemic(t: RefType) {
    t == Use || t == Require
  }

  /** A Use or a Require ref names this target. */
  predicate RestsOn(r: Record, t: Id) {
    Ref(Use, t) in r.refs || Ref(Require, t) in r.refs
  }

  /** Targets a record epistemically rests on. */
  function EpistemicTargets(r: Record): (ts: set<Id>)
    ensures forall t :: t in ts <==> RestsOn(r, t)
  {
    assert forall t :: RestsOn(r, t) ==>
        exists i :: 0 <= i < |r.refs| && Epistemic(r.refs[i].kind) && r.refs[i].target == t;
    set i | 0 <= i < |r.refs| && Epistemic(r.refs[i].kind) :: r.refs[i].target
  }

  /** Targets of the refs of one type, in ref order. */
  function Targets(refs: seq<Ref>, t: RefType): (ts: seq<Id>)
    ensures forall x :: x in ts <==> Ref(t, x) in refs
  {
    if refs == [] then []
    else if refs[0].kind == t then
      assert refs == [refs[0]] + refs[1..];
      [refs[0].target] + Targets(refs[1..], t)
    else
      assert refs == [refs[0]] + refs[1..];
      Targets(refs[1..], t)
  }

  /** Target of the first ref of a type, if any. */
  function FirstTarget(refs: seq<Ref>, t: RefType): Option<Id> {
    var ts := Targets(refs, t);
    if ts == [] then None else Some(ts[0])
  }

  predicate HasRef(r: Record, t: RefType, target: Id) {
    Ref(t, target) in r.refs
  }

  function SelectedIds(o: SelectionOutcome): seq<Id> {
    if o.Selected? then o.candidates else []
  }

  /** The subject an exact approval must name to cover this Action or Selection. */
  function SubjectOf(r: Record): Option<Subject> {
    if r.kind == Action && r.data.ActionData? then
      Some(ActionSubject(r.author.id, r.data))
    else if r.kind == Selection && r.data.SelectionData? then
      Some(SelectionSubject(r.author.id, FirstTarget(r.refs, Replace), r.data))
    else
      None
  }
}
