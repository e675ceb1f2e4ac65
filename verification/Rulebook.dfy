// The rules a record is held to, declared over what the log says: which records its ids
// name, what was accepted, what was withdrawn. Each kind has its rules in the order in
// which a broken one is reported. Nothing here looks at an index or calls a check.
module Rulebook {
  import opened Records
  import opened Refs
  import opened Rules
  import opened Pasts
  import Plans

  /** No rule broken, or the first one that is. */
  datatype Ruling = Fine | Broken(reason: ReasonCode) {
    function Then(next: Ruling): Ruling {
      if Fine? then next else this
    }
  }

  function Must(holds: bool, reason: ReasonCode): Ruling {
    if holds then Fine else Broken(reason)
  }

  ghost predicate EarliestBroken(rulings: seq<Ruling>, i: nat) {
    i < |rulings| && rulings[i].Broken? && forall j :: 0 <= j < i ==> rulings[j].Fine?
  }

  /** One ruling for each ref: the first broken one counts. */
  ghost function Earliest(rulings: seq<Ruling>): Ruling {
    if exists i: nat :: EarliestBroken(rulings, i) then
      var i: nat :| EarliestBroken(rulings, i);
      rulings[i]
    else Fine
  }

  // ----- Tables ---------------------------------------------------------------------------------

  function KindsFor(role: AuthorType): set<Kind> {
    match role
    case User =>
      {Request, Approval, Capability, Refusal, Retraction, Candidate, Evaluation, Selection, Requirement}
    case Provider =>
      {Action, Response, Summary, Usage, Plan, Retraction, Candidate, Evaluation, Selection, Requirement}
    case Executor => {Kind.Result, Candidate, Evaluation}
    case System => {Capability, Usage, Refusal, Retraction, Candidate, Evaluation, Selection, Requirement}
    case Verifier => {Verdict}
  }

  function SchemasOf(k: Kind): set<Schema> {
    match k
    case Request => {RequestV1}
    case Action => {ActionV1}
    case Response => {ResponseV1}
    case Result => {ResultV1, ResultExternal, ResultEffectConfirmation}
    case Summary => {SummaryV1}
    case Approval => {ApprovalV1}
    case Capability => {CapabilityV1}
    case Usage => {UsageV1}
    case Refusal => {RefusalV1}
    case Verdict => {VerdictV1}
    case Plan => {PlanV1}
    case Retraction => {RetractionV1}
    case Candidate => {CandidateV1}
    case Evaluation => {EvaluationV1, EvaluationV2, EvaluationAttested}
    case Selection => {SelectionV1}
    case Requirement => {RequirementV1}
  }

  /** The schemas under which a payload is well formed. */
  function SchemasFor(d: Payload): set<Schema> {
    match d
    case RequestData(_, _, _) => {RequestV1}
    case ActionData(_, _, _, _, _) => {ActionV1}
    case ResponseData(_, _, turn, _) => if turn < 0x1_0000_0000 then {ResponseV1} else {}
    case ResultData(_, _, _, _) => {ResultV1, ResultExternal, ResultEffectConfirmation}
    case SummaryData(_, _, _) => {SummaryV1}
    case ApprovalData(_, _, _, _, _) => {ApprovalV1}
    case CapabilityData(_, _, _, _, _) => {CapabilityV1}
    case UsageData(_, _, _, _, _) => {UsageV1}
    case RefusalData(_, _) => {RefusalV1}
    case VerdictData(_) => {VerdictV1}
    case PlanData(_, _, _) => {PlanV1}
    case RetractionData(_, _) => {RetractionV1}
    case CandidateData(_, _, _, _) => {CandidateV1}
    case EvaluationData(_, criterion, outcome) =>
      if criterion != "" && InScale(outcome) && (outcome.Passed? || outcome.Failed? || outcome.Scored?)
      then {EvaluationV1} else {}
    case EvaluationDataV2(_, criterion, outcome, _, _, _, _) =>
      if criterion != "" && InScale(outcome) then {EvaluationV2, EvaluationAttested} else {}
    case SelectionData(objective, _, _) => if objective != "" then {SelectionV1} else {}
    case RequirementData(_, _, _, _) => {RequirementV1}
    case Malformed(_) => {}
  }

  /** A score is a safe integer over at most twelve decimal places. */
  predicate InScale(o: EvaluationOutcome) {
    o.Scored? ==> -0x20_0000_0000_0000 < o.value < 0x20_0000_0000_0000 && 0 <= o.scale < 13
  }

  /** The class a record of a schema starts from. */
  function StartingClass(s: Schema): Evidence {
    if s.VerdictV1? then Deterministic
    else if s.ResultExternal? || s.EvaluationAttested? then Verified
    else if s.SummaryV1? || s.PlanV1? || s.SelectionV1? then Inferred
    else if s.UnknownSchema? then Assumed
    else Reported
  }

  /** Deterministic, then verified, reported, inferred, assumed. */
  predicate AtLeastAsStrong(a: Evidence, b: Evidence) {
    a == b ||
    match a
    case Deterministic => true
    case Verified => b.Reported? || b.Inferred? || b.Assumed?
    case Reported => b.Inferred? || b.Assumed?
    case Inferred => b.Assumed?
    case Assumed => false
  }

  predicate TypeBefore(a: RefType, b: RefType) {
    match a
    case Cause => !b.Cause?
    case Use => b.Require? || b.Replace?
    case Require => b.Replace?
    case Replace => false
  }

  // ----- Every record ---------------------------------------------------------------------------

  /** By type, then by target, with no repetition. */
  ghost predicate InOrder(refs: seq<Ref>) {
    forall i, j :: 0 <= i < j < |refs| ==>
      if refs[i].kind == refs[j].kind then refs[i].target < refs[j].target
      else TypeBefore(refs[i].kind, refs[j].kind)
  }

  ghost function Identity(c: Crypto, rules: Rules, r: Record): Ruling {
    Must(r.id == c.hash(r.(id := 0)), InvalidPayload)
      .Then(Must(InOrder(r.refs), InvalidPayload))
      .Then(Must(r.space == rules.space, InvalidPayload))
      .Then(Must(r.schema in rules.admitted && !r.schema.UnknownSchema?, SchemaUnknown))
      .Then(Must(r.schema in SchemasOf(r.kind), KindSchemaMismatch))
  }

  /** In a configured role that may author the kind. */
  predicate MayAuthor(rules: Rules, r: Record) {
    && r.kind in KindsFor(r.author.role)
    && r.author.id in rules.authorRoles && rules.authorRoles[r.author.id] == r.author.role
  }

  predicate MustSign(rules: Rules, r: Record) {
    r.kind in rules.signatureRequired || r.author.id in rules.authorKeys
  }

  /** A signature verifies, and under a key of its author if the author has any. */
  predicate SignedByAuthor(c: Crypto, rules: Rules, r: Record) {
    && c.signedBy(r).Some?
    && (r.author.id in rules.authorKeys ==> c.signedBy(r).value in rules.authorKeys[r.author.id])
  }

  function Authorship(c: Crypto, rules: Rules, r: Record): Ruling {
    Must(MayAuthor(rules, r), AuthorRoleInvalid)
      .Then(Must(MustSign(rules, r) ==> r.author.signature.Some?, SignatureMissing))
      .Then(Must(r.author.signature.Some? ==> SignedByAuthor(c, rules, r), SignatureInvalid))
  }

  ghost function Reference(p: Past, space: nat, ref: Ref): Ruling {
    var t := p.Named(ref.target);
    Must(t.Some?, RefUnresolved)
      .Then(Must(t.Some? && t.value.space == space, RefCrossSpace))
      .Then(Must(ref.kind == Require ==> p.Stands(ref.target), RefUnresolved))
  }

  ghost function References(p: Past, space: nat, refs: seq<Ref>): Ruling {
    Earliest(seq(|refs|, i requires 0 <= i < |refs| => Reference(p, space, refs[i])))
  }

  /** What a replacement may not change. */
  predicate SameTerms(a: Payload, b: Payload) {
    match (a, b)
    case (CapabilityData(actor, class_, scope, _, _), CapabilityData(actor', class', scope', _, _)) =>
      actor == actor' && class_ == class' && scope == scope'
    case (ApprovalData(action, class_, scope, actor, _), ApprovalData(action', class', scope', actor', _)) =>
      && scope == scope'
      && (if action.Some? && action'.Some? then action == action'
          else class_.Some? && class_ == class' && actor == actor')
    case (SummaryData(summary, subject, scope), SummaryData(summary', subject', scope')) =>
      summary == summary' && subject == subject' && scope == scope'
    case (PlanData(request, _, _), PlanData(request', _, _)) => request == request'
    case _ => true
  }

  /** The payload of a superseding record of this kind. */
  predicate FitsReplacement(k: Kind, d: Payload) {
    match k
    case Capability => d.CapabilityData?
    case Approval => d.ApprovalData?
    case Summary => d.SummaryData?
    case Plan => d.PlanData?
    case _ => true
  }

  ghost function Replacement(p: Past, r: Record): Ruling {
    Must(!Several(r.refs, Replace), InvalidPayload)
      .Then(Must(NoneOf(r.refs, Replace) || r.kind in {Capability, Approval, Summary, Plan, Selection},
                 ReplacementInvalid))
      .Then(Must(forall x :: Ref(Replace, x) in r.refs ==>
                   p.Accepted(x) && p.Named(x).Some? && p.Named(x).value.kind == r.kind, ReplacementInvalid))
      .Then(Must(NoneOf(r.refs, Replace) || FitsReplacement(r.kind, r.data), InvalidPayload))
      .Then(Must(forall x :: Ref(Replace, x) in r.refs && p.Named(x).Some? ==>
                   SameTerms(r.data, p.Named(x).value.data), ReplacementInvalid))
  }

  /** The class one Use or Require ref brings: its target's, or the floor if that is bad. */
  ghost predicate Brings(p: Past, refs: seq<Ref>, e: Evidence) {
    exists ref :: ref in refs && (ref.kind == Use || ref.kind == Require) && p.Named(ref.target).Some?
      && e == if p.Stands(ref.target) then p.Named(ref.target).value.evidence else Assumed
  }

  /** The weakest of the schema's class and everything the refs bring. */
  ghost predicate RightClass(p: Past, r: Record) {
    && (r.evidence == StartingClass(r.schema) || Brings(p, r.refs, r.evidence))
    && AtLeastAsStrong(StartingClass(r.schema), r.evidence)
    && forall e :: Brings(p, r.refs, e) ==> AtLeastAsStrong(e, r.evidence)
  }

  ghost function Evidenced(rules: Rules, p: Past, r: Record): Ruling {
    Must(RightClass(p, r), InvalidPayload)
      .Then(Must(r.kind in rules.evidenceThresholds ==> AtLeastAsStrong(r.evidence, rules.evidenceThresholds[r.kind]),
                 EvidenceBelowThreshold))
  }

  // ----- Requests and the work under them ---------------------------------------------------------

  /** Names a record of this record's own thread and space. */
  ghost predicate Beside(p: Past, r: Record, id: Id) {
    var t := p.Named(id);
    t.Some? && t.value.thread == r.thread && t.value.space == r.space
  }

  ghost predicate LiveBeside(p: Past, r: Record, request: Id) {
    p.Active(request) && Beside(p, r, request)
  }

  ghost predicate NamesKind(p: Past, id: Id, k: Kind) {
    p.Named(id).Some? && p.Named(id).value.kind == k
  }

  ghost function Parent(p: Past, r: Record, ref: Ref): Ruling {
    if ref.kind != Cause then Fine
    else
      var t := p.Named(ref.target);
      Must(t.Some?, RefUnresolved)
        .Then(Must(t.Some? && t.value.kind == Request && t.value.thread == r.thread, InvalidPayload))
        .Then(Must(p.Accepted(ref.target), RequestMissing))
  }

  ghost function Parents(p: Past, r: Record, refs: seq<Ref>): Ruling {
    Earliest(seq(|refs|, i requires 0 <= i < |refs| => Parent(p, r, refs[i])))
  }

  ghost function Requests(p: Past, r: Record): Ruling {
    var d := r.data;
    Must(d.RequestData?, InvalidPayload)
      .Then(Parents(p, r, r.refs))
      .Then(Must(d.RequestData? && (match d.parentRequest
                                    case None => NoneOf(r.refs, Cause)
                                    case Some(x) => OnlyNames(r.refs, Cause, x)), InvalidPayload))
  }

  /** The approval an asking action goes by: its own while that is good, else one for its
      class given to its author, else one for its class given to anyone. */
  ghost function Approving(p: Past, r: Record): Option<Record>
    requires r.data.ActionData?
  {
    var exact := p.ExactApprovalFor(ActionSubject(r.author.id, r.data));
    var mine := p.ClassApprovalFor(r.data.actionClass, r.data.scope, Some(r.author.id));
    var anyones := p.ClassApprovalFor(r.data.actionClass, r.data.scope, None);
    if exact.Some? && GoodExact(p, r, exact.value) then exact
    else if mine.Some? && !p.Withdrawn(mine.value.id) then mine
    else if anyones.Some? && !p.Withdrawn(anyones.value.id) then anyones
    else None
  }

  ghost predicate GoodExact(p: Past, r: Record, a: Record)
    requires r.data.ActionData?
  {
    && !p.Withdrawn(a.id) && a.data.ApprovalData?
    && a.data.approvedActor == Some(r.author.id) && a.data.scope == r.data.scope && Unexpired(a.data.expiry, r.time)
  }

  predicate Unexpired(expiry: Option<nat>, time: nat) {
    expiry.None? || time < expiry.value
  }

  ghost function Asked(p: Past, r: Record): Ruling
    requires r.data.ActionData?
  {
    var a := Approving(p, r);
    Must(a.Some?, ApprovalMissing)
      .Then(Must(a.Some? && a.value.data.ApprovalData? && Unexpired(a.value.data.expiry, r.time), ApprovalExpired))
      .Then(Must(a.Some? && Ref(Require, a.value.id) in r.refs, AuthorityRefMissing))
  }

  /** The capability an action goes by. */
  ghost function Granted(p: Past, r: Record): Ruling
    requires r.data.ActionData?
  {
    var cap := p.CapabilityFor(r.author.id, r.data.actionClass, r.data.scope);
    if cap.None? || !cap.value.data.CapabilityData? then Broken(CapabilityMissing)
    else
      var d := cap.value.data;
      Must(!p.Withdrawn(cap.value.id) && Unexpired(d.expiry, r.time), CapabilityMissing)
        .Then(match d.mode
              case Deny => Broken(CapabilityDenied)
              case Auto => Must(Ref(Require, cap.value.id) in r.refs, AuthorityRefMissing)
              case Ask => Asked(p, r).Then(Must(Ref(Require, cap.value.id) in r.refs, AuthorityRefMissing)))
  }

  ghost function Actions(p: Past, r: Record): Ruling {
    if !r.data.ActionData? then Broken(InvalidPayload)
    else
      var request := p.Named(r.data.requestId);
      Must(LiveBeside(p, r, r.data.requestId), RequestMissing)
        .Then(Must(request.Some? && request.value.data.RequestData? && request.value.data.scope == r.data.scope,
                   InvalidPayload))
        .Then(Granted(p, r))
  }

  /** What the action's mode of execution asks of its result. */
  ghost function Executed(rules: Rules, p: Past, r: Record): Ruling
    requires r.data.ResultData?
  {
    var action := p.Named(r.data.actionId);
    if action.Some? && action.value.data.ActionData? && action.value.data.execMode.External? then
      Must(r.schema == ResultExternal, ExternalReceiptRequired)
        .Then(Must(r.author.signature.Some?, SignatureMissing))
        .Then(Must(r.author.id in rules.authorKeys, SignatureInvalid))
    else Must(r.schema != ResultExternal, InvalidPayload)
  }

  ghost function Results(rules: Rules, p: Past, r: Record): Ruling {
    if !r.data.ResultData? then Broken(InvalidPayload)
    else
      Must(r.data.artifacts.Some? ==> ArtifactsInOrder(r.data.artifacts.value), ArtifactRefInvalid)
        .Then(Must(p.Open(r.data.actionId) && Beside(p, r, r.data.actionId), ActionClosed))
        .Then(Executed(rules, p, r))
        .Then(Must(OnlyNames(r.refs, Cause, r.data.actionId), InvalidPayload))
  }

  ghost function RefusedTarget(p: Past, r: Record): Ruling
    requires r.data.RefusalData?
  {
    var x := r.data.targetId;
    match r.data.targetKind
    case OfAction => Must(NamesKind(p, x, Action), InvalidPayload)
      .Then(Must(p.Open(x) && Beside(p, r, x), ActionClosed))
    case OfRequest => Must(NamesKind(p, x, Request), InvalidPayload)
      .Then(Must(LiveBeside(p, r, x), RequestMissing))
    case OfVerifiedEffect =>
      Must(NamesKind(p, x, Kind.Result) && p.Named(x).value.schema == ResultEffectConfirmation
           && p.Accepted(x) && Beside(p, r, x), InvalidPayload)
  }

  ghost function Refusals(p: Past, r: Record): Ruling {
    if !r.data.RefusalData? then Broken(InvalidPayload)
    else
      Must(p.Named(r.data.targetId).Some?, RequestMissing)
        .Then(RefusedTarget(p, r))
        .Then(Must(OnlyNames(r.refs, Cause, r.data.targetId), InvalidPayload))
  }

  ghost predicate UsageHolds(p: Past, r: Record) {
    var d := r.data;
    && d.UsageData? && d.actor == r.author.id && p.Named(d.usedRecord).Some?
    && p.Accepted(d.consumingRecord)
    && (NamesKind(p, d.consumingRecord, Kind.Result) || NamesKind(p, d.consumingRecord, Refusal))
    && p.Named(d.consumingRecord).value.thread == r.thread
    && OnlyNames(r.refs, Use, d.usedRecord)
  }

  ghost predicate SummaryHolds(rules: Rules, r: Record) {
    r.data.SummaryData? && r.data.summaryType in rules.allowedSummaryTypes && !NoneOf(r.refs, Use)
  }

  ghost function Responses(p: Past, r: Record): Ruling {
    if !r.data.ResponseData? then Broken(InvalidPayload)
    else
      var d := r.data;
      Must(LiveBeside(p, r, d.requestId), RequestMissing)
        .Then(Must(d.turnIndex == p.Turns(d.requestId) < 0xFFFF_FFFF, InvalidPayload))
        .Then(Must(d.closesRequest ==> !p.Busy(d.requestId) && !p.Planned(d.requestId), InvalidPayload))
  }

  /** For one action, whose actor is named, or for a class of actions, and never both. */
  predicate ApprovalHolds(d: Payload) {
    && d.ApprovalData?
    && (|| (d.targetAction.Some? && d.approvedClass.None? && d.approvedActor.Some?)
        || (d.targetAction.None? && d.approvedClass.Some?))
  }

  // ----- Plans ------------------------------------------------------------------------------------

  ghost predicate NamesTask(tasks: seq<PlanTask>, id: string) {
    exists t :: t in tasks && t.id == id
  }

  ghost predicate TasksHold(tasks: seq<PlanTask>) {
    && tasks != []
    && (forall i, j :: 0 <= i < |tasks| && 0 <= j < |tasks| && tasks[i].id == tasks[j].id ==> i == j)
    && (forall t, id :: t in tasks && (id in t.dependsOn || id in t.inputsFrom) ==> NamesTask(tasks, id))
  }

  /** A finished task's result: an accepted one, in place, of an action under the request. */
  ghost predicate TaskProduced(p: Past, r: Record, t: PlanTask)
    requires r.data.PlanData?
  {
    t.resultRecordId.Some? ==>
      var x := t.resultRecordId.value;
      && (t.status == TaskDone || t.status == TaskFailed)
      && p.Accepted(x) && NamesKind(p, x, Kind.Result) && Beside(p, r, x)
      && var d := p.Named(x).value.data;
      && d.ResultData? && p.Named(d.actionId).Some?
      && var a := p.Named(d.actionId).value.data;
      && a.ActionData? && a.requestId == r.data.requestId
  }

  ghost predicate StatusHolds(tasks: seq<PlanTask>, status: PlanStatus) {
    match status
    case PlanRunning => exists t :: t in tasks && t.status in {TaskPending, TaskRunning}
    case PlanCompleted => forall t :: t in tasks ==> t.status == TaskDone
    case PlanAbandoned =>
      && (forall t :: t in tasks ==> t.status in {TaskDone, TaskFailed, TaskSkipped})
      && (exists t :: t in tasks && t.status in {TaskFailed, TaskSkipped})
  }

  ghost function PlansRuling(p: Past, r: Record): Ruling {
    if !r.data.PlanData? then Broken(InvalidPayload)
    else
      var d := r.data;
      Must(OnlyNames(r.refs, Cause, d.requestId), RequestMissing)
        .Then(Must(LiveBeside(p, r, d.requestId), RequestMissing))
        .Then(Must(TasksHold(d.tasks) && (forall t :: t in d.tasks ==> TaskProduced(p, r, t))
                   && !Plans.Cyclic(d.tasks) && StatusHolds(d.tasks, d.planStatus), InvalidPayload))
  }

  // ----- Retractions ------------------------------------------------------------------------------

  /** By the author of the target, or by an administrator. */
  ghost predicate OwnsTarget(rules: Rules, r: Record, target: Record) {
    r.author.id == target.author.id || r.author.id in rules.adminRetractionActors
  }

  ghost function Retractions(rules: Rules, p: Past, r: Record): Ruling {
    if !r.data.RetractionData? then Broken(InvalidPayload)
    else
      var target := p.Named(r.data.targetId);
      Must(OnlyNames(r.refs, Cause, r.data.targetId), InvalidPayload)
        .Then(Must(target.Some?, RefUnresolved))
        .Then(Must(p.Accepted(r.data.targetId), InvalidPayload))
        .Then(Must(target.Some? && target.value.kind !in {Verdict, Retraction}, InvalidPayload))
        .Then(Must(target.Some? && OwnsTarget(rules, r, target.value), AuthorRoleInvalid))
  }

  // ----- Artifacts and sources ----------------------------------------------------------------------

  ghost predicate Hex(s: string) {
    forall c :: c in s ==> c in "0123456789abcdef"
  }

  /** A lower-case letter or a digit. */
  predicate Alphanumeric(c: char) {
    0x61 <= c as int <= 0x7A || 0x30 <= c as int <= 0x39
  }

  ghost predicate SchemeName(s: string) {
    s != "" && Alphanumeric(s[0]) && forall c :: c in s ==> Alphanumeric(c) || c in ".-"
  }

  /** Hex digits of a known scheme's digest; any other has 20 to 64 bytes. */
  predicate DigestLength(scheme: string, n: nat) {
    if scheme == "git-tree-sha1" then n == 40
    else if scheme in ["git-tree-sha256", "manifest-v1", "git-archive-tar-v1", "oci-image-manifest", "sha256-bytes"]
    then n == 64
    else n % 2 == 0 && 40 <= n <= 128
  }

  ghost predicate ArtifactHolds(a: ArtifactRef) {
    SchemeName(a.scheme) && Hex(a.digest) && DigestLength(a.scheme, |a.digest|)
  }

  /** Dictionary order: a proper prefix, or smaller where they first differ. */
  ghost predicate Precedes(a: string, b: string) {
    a < b || exists k :: 0 <= k < |a| && k < |b| && a[..k] == b[..k] && a[k] < b[k]
  }

  ghost predicate ArtifactPrecedes(a: ArtifactRef, b: ArtifactRef) {
    if a.scheme != b.scheme then Precedes(a.scheme, b.scheme)
    else if a.digest != b.digest then Precedes(a.digest, b.digest)
    else b.name.Some? && (a.name.None? || Precedes(a.name.value, b.name.value))
  }

  ghost predicate ArtifactsInOrder(list: seq<ArtifactRef>) {
    && (forall a :: a in list ==> ArtifactHolds(a))
    && (forall i :: 0 < i < |list| ==> ArtifactPrecedes(list[i - 1], list[i]))
  }

  ghost predicate SourceHolds(b: SourceBinding) {
    var n := match b.algo case Sha1 => 40 case Sha256 => 64;
    && |b.tree| == n && Hex(b.tree)
    && (b.commit.Some? ==> |b.commit.value| == n && Hex(b.commit.value))
    && (match b.binding case BoundManifest => b.manifestHash.Some? case BoundReported => b.manifestHash.None?)
  }

  // ----- Candidates -----------------------------------------------------------------------------------

  ghost predicate NamesAccepted(p: Past, id: Id, k: Kind) {
    p.Accepted(id) && NamesKind(p, id, k)
  }

  /** Names an accepted candidate of this record's space. */
  ghost predicate NamesCandidate(p: Past, r: Record, id: Id) {
    NamesAccepted(p, id, Candidate) && p.Named(id).value.space == r.space
  }

  ghost predicate RootHolds(p: Past, r: Record) {
    && r.data.CandidateData? && r.data.parent.None?
    && (NoneOf(r.refs, Cause) || exists q :: OnlyNames(r.refs, Cause, q) && NamesAccepted(p, q, Request))
  }

  /** Anchored at one accepted selection that chose the parent, and if the rules say so at
      one that is not withdrawn. */
  ghost predicate ContinuationHolds(rules: Rules, p: Past, r: Record) {
    exists q ::
      && OnlyNames(r.refs, Cause, q) && NamesAccepted(p, q, Selection)
      && (rules.rejectCompromisedContinuation ==> !p.Withdrawn(q))
      && r.data.CandidateData? && r.data.parent.Some?
      && Chose(p.Named(q).value, r.data.parent.value)
  }

  predicate Chose(s: Record, id: Id) {
    s.data.SelectionData? && s.data.decision.Selected? && id in s.data.decision.candidates
  }

  ghost predicate DerivationHolds(p: Past, r: Record) {
    && r.data.CandidateData? && r.data.parent.None? && !NoneOf(r.refs, Cause)
    && forall x :: Ref(Cause, x) in r.refs ==> NamesAccepted(p, x, Candidate) || NamesAccepted(p, x, Evaluation)
  }

  ghost function Candidates(rules: Rules, p: Past, r: Record): Ruling {
    if !r.data.CandidateData? then Broken(InvalidPayload)
    else
      var d := r.data;
      Must(SourceHolds(d.source), SourceBindingInvalid)
        .Then(Must(d.artifacts.Some? ==> ArtifactsInOrder(d.artifacts.value), ArtifactRefInvalid))
        .Then(Must(d.parent.Some? ==> NamesCandidate(p, r, d.parent.value), PayloadRefUnresolved))
        .Then(Must(match d.basis
                   case Root => RootHolds(p, r)
                   case Continuation => ContinuationHolds(rules, p, r)
                   case Derivation => DerivationHolds(p, r), LineageInvalid))
  }

  // ----- Evaluations ----------------------------------------------------------------------------------

  ghost function Judges(p: Past, r: Record, candidate: Id): Ruling {
    Must(NamesCandidate(p, r, candidate), PayloadRefUnresolved)
      .Then(Must(Ref(Use, candidate) in r.refs, EvaluationInvalid))
  }

  /** An accepted requirement of the space, named by a Use ref. */
  ghost predicate Binds(p: Past, r: Record, x: Id) {
    NamesAccepted(p, x, Requirement) && p.Named(x).value.space == r.space && Ref(Use, x) in r.refs
  }

  /** Strictly ascending, and each properly bound. */
  ghost predicate BindingsHold(p: Past, r: Record, ids: seq<Id>) {
    && (forall i, j :: 0 <= i < j < |ids| ==> ids[i] < ids[j])
    && (forall x :: x in ids ==> Binds(p, r, x))
  }

  ghost function Evaluations(rules: Rules, p: Past, r: Record): Ruling {
    var d := r.data;
    if r.schema == EvaluationV1 then
      if d.EvaluationData? then Judges(p, r, d.candidate) else Broken(InvalidPayload)
    else if !d.EvaluationDataV2? then Broken(InvalidPayload)
    else
      Must(r.schema == EvaluationAttested ==> r.author.signature.Some?, SignatureMissing)
        .Then(Must(r.schema == EvaluationAttested ==> r.author.id in rules.authorKeys, SignatureInvalid))
        .Then(Judges(p, r, d.candidate))
        .Then(Must(d.evaluator.id != "", EvaluationInvalid))
        .Then(Must(ArtifactsInOrder(d.evidence), ArtifactRefInvalid))
        .Then(Must(BindingsHold(p, r, d.requirements), EvaluationInvalid))
  }

  // ----- Selections -----------------------------------------------------------------------------------

  ghost predicate NoRepeats(ids: seq<Id>) {
    forall i, j :: 0 <= i < |ids| && 0 <= j < |ids| && ids[i] == ids[j] ==> i == j
  }

  /** Every accepted evaluation it uses judges something it considered. */
  ghost predicate UsesWhatItConsidered(p: Past, r: Record, considered: seq<Id>) {
    forall x :: Ref(Use, x) in r.refs ==> JudgesWithin(p, considered, x)
  }

  ghost predicate JudgesWithin(p: Past, considered: seq<Id>, x: Id) {
    NamesAccepted(p, x, Evaluation) ==>
      var e := p.Named(x).value.data;
      (e.EvaluationData? || e.EvaluationDataV2?) && e.candidate in considered
  }

  ghost predicate WinnersHold(rules: Rules, p: Past, r: Record, considered: seq<Id>, winners: seq<Id>) {
    && winners != [] && NoRepeats(winners) && (forall x :: x in winners ==> x in considered)
    && (rules.minBinding == BoundManifest ==> forall x :: x in winners ==> ManifestBound(p, x))
    && (rules.selectionRequiresEvaluation ==> exists x :: Ref(Use, x) in r.refs && NamesAccepted(p, x, Evaluation))
  }

  ghost predicate ManifestBound(p: Past, id: Id) {
    p.Named(id).Some?
    && var d := p.Named(id).value.data;
       d.CandidateData? && d.source.binding == BoundManifest
  }

  /** The approval of exactly this selection, if one is in force. */
  ghost function ItsApproval(p: Past, r: Record): Option<Record> {
    if exists s :: IsSubject(r, s) then
      var s :| IsSubject(r, s);
      p.ExactApprovalFor(s)
    else None
  }

  ghost predicate ApprovedAs(p: Past, r: Record, a: Record) {
    Ref(Require, a.id) in r.refs && !p.Withdrawn(a.id) && a.data.ApprovalData?
        && a.data.approvedActor == Some(r.author.id)
  }

  /** It requires its winners, and the approval where one is demanded, and nothing else. */
  ghost function Authorized(rules: Rules, p: Past, r: Record, winners: seq<Id>): Ruling {
    if !rules.selectionRequiresApproval then
      Must(forall x :: Ref(Require, x) in r.refs <==> x in winners, SelectionInvalid)
    else
      var a := ItsApproval(p, r);
      Must(a.Some? && ApprovedAs(p, r, a.value), ApprovalMissing)
        .Then(Must(a.Some? && a.value.data.ApprovalData? && Unexpired(a.value.data.expiry, r.time), ApprovalExpired))
        .Then(Must(a.Some? && forall x :: Ref(Require, x) in r.refs <==> x in winners || x == a.value.id,
                   SelectionInvalid))
  }

  /** A selection that replaces one keeps its objective, by an actor allowed to. */
  ghost predicate Reaffirms(rules: Rules, p: Past, r: Record, objective: string) {
    forall x :: Ref(Replace, x) in r.refs ==>
      && (rules.reaffirmationActors == {} || r.author.id in rules.reaffirmationActors)
      && p.Named(x).Some?
      && var d := p.Named(x).value.data;
         d.SelectionData? && d.objective == objective
  }

  ghost function Selections(rules: Rules, p: Past, r: Record): Ruling {
    if !r.data.SelectionData? then Broken(InvalidPayload)
    else
      var d := r.data;
      var winners := match d.decision case Selected(ids) => ids case NothingSelected => [];
      Must(0 < |d.considered| <= rules.maxConsidered && NoRepeats(d.considered), SelectionInvalid)
        .Then(Must(forall x :: x in d.considered ==> NamesCandidate(p, r, x), PayloadRefUnresolved))
        .Then(Must(UsesWhatItConsidered(p, r, d.considered), SelectionInvalid))
        .Then(Must(d.decision.Selected? ==> WinnersHold(rules, p, r, d.considered, winners), SelectionInvalid))
        .Then(Authorized(rules, p, r, winners))
        .Then(Must(Reaffirms(rules, p, r, d.objective), ReaffirmationInvalid))
  }

  // ----- Requirements ---------------------------------------------------------------------------------

  ghost function Requirements(p: Past, r: Record): Ruling {
    if !r.data.RequirementData? then Broken(InvalidPayload)
    else
      var d := r.data;
      Must(d.key != "" && d.description != "", RequirementInvalid)
        .Then(Must(match d.provenance
                   case UserAuthored => r.author.role == User
                   case Derived => r.author.role in {Provider, System}, AuthorRoleInvalid))
        .Then(Must(exists q :: OnlyNames(r.refs, Cause, q) && NamesAccepted(p, q, Request) && Beside(p, r, q)
                               && !p.KeyTaken(q, d.key), RequirementInvalid))
  }

  // ----- The whole book ---------------------------------------------------------------------------------

  ghost function Envelope(c: Crypto, rules: Rules, p: Past, r: Record): Ruling {
    Identity(c, rules, r)
      .Then(Authorship(c, rules, r))
      .Then(References(p, r.space, r.refs))
      .Then(Replacement(p, r))
      .Then(Evidenced(rules, p, r))
      .Then(Must(r.schema in SchemasFor(r.data), InvalidPayload))
  }

  ghost function ByKind(rules: Rules, p: Past, r: Record): Ruling {
    match r.kind
    case Request => Requests(p, r)
    case Action => Actions(p, r)
    case Response => Responses(p, r)
    case Result => Results(rules, p, r)
    case Summary => Must(SummaryHolds(rules, r), InvalidPayload)
    case Approval => Must(ApprovalHolds(r.data), InvalidPayload)
    case Capability => Fine
    case Usage => Must(UsageHolds(p, r), InvalidPayload)
    case Refusal => Refusals(p, r)
    case Verdict => Fine
    case Plan => PlansRuling(p, r)
    case Retraction => Retractions(rules, p, r)
    case Candidate => Candidates(rules, p, r)
    case Evaluation => Evaluations(rules, p, r)
    case Selection => Selections(rules, p, r)
    case Requirement => Requirements(p, r)
  }

  /** What the rules say of a record over its past. */
  ghost function RulingOn(c: Crypto, rules: Rules, p: Past, r: Record): Ruling {
    Envelope(c, rules, p, r).Then(ByKind(rules, p, r))
  }
}
