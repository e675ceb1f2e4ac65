// The rule battery for a non-verdict record: the envelope, then its kind.
// Each function gives the first violated rule, or None when the record passes.
module Checks {
  import opened Records
  import opened LedgerState
  import opened EvidenceRules
  import opened Refs
  import opened Rules
  import Plans

  /** The first violated rule, if any. */
  type Finding = Option<ReasonCode>

  /** A lookup in the prior index. */
  function Find(prior: Prior, id: Id): Option<Record> {
    Lookup(prior.byId, id)
  }

  predicate SamePlace(a: Record, b: Record) {
    a.thread == b.thread && a.space == b.space
  }

  predicate Expired(expiry: Option<nat>, time: nat) {
    expiry.Some? && time >= expiry.value
  }

  // ----- Envelope ---------------------------------------------------------------

  function AllowedAuthors(k: Kind): set<AuthorType> {
    match k
    case Request => {User}
    case Action => {Provider}
    case Response => {Provider}
    case Result => {Executor}
    case Summary => {Provider}
    case Approval => {User}
    case Capability => {User, System}
    case Usage => {Provider, System}
    case Refusal => {User, System}
    case Verdict => {Verifier}
    case Plan => {Provider}
    case Retraction => {User, Provider, System}
    case Candidate => {User, Provider, Executor, System}
    case Evaluation => {User, Provider, Executor, System}
    case Selection => {User, Provider, System}
    case Requirement => {User, Provider, System}
  }

  function CheckIdentity(c: Crypto, rules: Rules, r: Record): Finding {
    if ComputeId(c, r) != r.id then Some(InvalidPayload)
    else if !StrictlySorted(r.refs) then Some(InvalidPayload)
    else if r.space != rules.space then Some(InvalidPayload)
    else if r.schema !in rules.admitted || KindOf(r.schema).None? then Some(SchemaUnknown)
    else if r.kind != KindOf(r.schema).value then Some(KindSchemaMismatch)
    else None
  }

  function CheckAuthor(c: Crypto, rules: Rules, r: Record): Finding {
    var a := r.author;
    if a.role !in AllowedAuthors(r.kind) then Some(AuthorRoleInvalid)
    else if a.id !in rules.authorRoles then Some(AuthorRoleInvalid)
    else if a.role != rules.authorRoles[a.id] then Some(AuthorRoleInvalid)
    else if (r.kind in rules.signatureRequired || a.id in rules.authorKeys) && a.signature.None? then
      Some(SignatureMissing)
    else if a.signature.Some? && c.signedBy(r).None? then Some(SignatureInvalid)
    else if a.signature.Some? && a.id in rules.authorKeys && c.signedBy(r).value !in rules.authorKeys[a.id] then
      Some(SignatureInvalid)
    else None
  }

  /** Refs resolve to prior records of the same space; a Require needs its target usable. */
  function CheckRefs(prior: Prior, s: State, space: nat, refs: seq<Ref>): Finding {
    if refs == [] then None
    else
      var target := Find(prior, refs[0].target);
      if target.None? then Some(RefUnresolved)
      else if target.value.space != space then Some(RefCrossSpace)
      else if refs[0].kind == Require && !Usable(s, target.value.id) then Some(RefUnresolved)
      else CheckRefs(prior, s, space, refs[1..])
  }

  function CheckReplacement(prior: Prior, s: State, r: Record): Finding {
    var targets := Targets(r.refs, Replace);
    if |targets| > 1 then Some(InvalidPayload)
    else if targets == [] then None
    else if !Supersedes(r.kind) then Some(ReplacementInvalid)
    else
      var target := Find(prior, targets[0]);
      if target.None? then Some(ReplacementInvalid)
      else if target.value.id !in s.accepted then Some(ReplacementInvalid)
      else if target.value.kind != r.kind then Some(ReplacementInvalid)
      else CheckCompatible(r.kind, r.data, target.value.data)
  }

  function CheckCompatible(k: Kind, new_: Payload, old_: Payload): Finding {
    match k
    case Capability =>
      if !new_.CapabilityData? || !old_.CapabilityData? then Some(InvalidPayload)
      else if new_.actor != old_.actor || new_.actionClass != old_.actionClass || new_.scope != old_.scope then
        Some(ReplacementInvalid)
      else None
    case Approval =>
      if !new_.ApprovalData? || !old_.ApprovalData? then Some(InvalidPayload)
      else if new_.targetAction.Some? && old_.targetAction.Some? then
        if new_.scope != old_.scope || new_.targetAction != old_.targetAction then Some(ReplacementInvalid) else None
      else if new_.approvedClass.Some? && old_.approvedClass.Some? then
        if new_.approvedClass != old_.approvedClass || new_.scope != old_.scope
           || new_.approvedActor != old_.approvedActor then Some(ReplacementInvalid)
        else None
      else Some(ReplacementInvalid)
    case Summary =>
      if !new_.SummaryData? || !old_.SummaryData? then Some(InvalidPayload)
      else if new_.summaryType != old_.summaryType || new_.subject != old_.subject || new_.scope != old_.scope then
        Some(ReplacementInvalid)
      else None
    case Plan =>
      if !new_.PlanData? || !old_.PlanData? then Some(InvalidPayload)
      else if new_.requestId != old_.requestId then Some(ReplacementInvalid)
      else None
    case _ => None
  }

  function ExpectedEvidence(prior: Prior, s: State, r: Record): Evidence {
    DeriveEvidence(r.schema, RefEvidences(s, prior.byId, r.refs))
  }

  function CheckEvidence(rules: Rules, prior: Prior, s: State, r: Record): Finding {
    var expected := ExpectedEvidence(prior, s, r);
    if r.evidence != expected then Some(InvalidPayload)
    else if r.kind in rules.evidenceThresholds && Rank(expected) > Rank(rules.evidenceThresholds[r.kind]) then
      Some(EvidenceBelowThreshold)
    else None
  }

  function OrElse(a: Finding, b: Finding): Finding {
    if a.Some? then a else b
  }

  /** The whole battery for a non-verdict record. */
  function CheckSubject(c: Crypto, rules: Rules, prior: Prior, s: State, r: Record, cyclic: bool): Finding {
    OrElse(CheckIdentity(c, rules, r),
    OrElse(CheckAuthor(c, rules, r),
    OrElse(CheckRefs(prior, s, r.space, r.refs),
    OrElse(CheckReplacement(prior, s, r),
    OrElse(CheckEvidence(rules, prior, s, r),
    OrElse(if DecodesAs(r.schema, r.data) then None else Some(InvalidPayload),
           CheckKind(rules, prior, s, r, cyclic)))))))
  }

  function CheckKind(rules: Rules, prior: Prior, s: State, r: Record, cyclic: bool): Finding {
    match r.kind
    case Request => CheckRequest(prior, s, r)
    case Action => CheckAction(prior, s, r)
    case Result => CheckResult(rules, prior, s, r)
    case Refusal => CheckRefusal(prior, s, r)
    case Usage => CheckUsage(prior, s, r)
    case Summary => CheckSummary(rules, r)
    case Response => CheckResponse(prior, s, r)
    case Approval => CheckApproval(r)
    case Plan => CheckPlan(prior, s, r, cyclic)
    case Retraction => CheckRetraction(rules, prior, s, r)
    case Capability => None
    case Verdict => None
    case Candidate => CheckCandidate(rules, prior, s, r)
    case Evaluation => CheckEvaluation(rules, prior, s, r)
    case Selection => CheckSelection(rules, prior, s, r)
    case Requirement => CheckRequirement(prior, s, r)
  }

  // ----- Requests and the work under them -----------------------------------------

  function CheckParents(prior: Prior, s: State, r: Record, parents: seq<Id>): Finding {
    if parents == [] then None
    else
      var parent := Find(prior, parents[0]);
      if parent.None? then Some(RefUnresolved)
      else if parent.value.kind != Request then Some(InvalidPayload)
      else if parent.value.thread != r.thread then Some(InvalidPayload)
      else if parents[0] !in s.accepted then Some(RequestMissing)
      else CheckParents(prior, s, r, parents[1..])
  }

  function CheckRequest(prior: Prior, s: State, r: Record): Finding {
    if !r.data.RequestData? then Some(InvalidPayload)
    else
      var causes := Targets(r.refs, Cause);
      OrElse(CheckParents(prior, s, r, causes),
        match r.data.parentRequest
        case None => if causes != [] then Some(InvalidPayload) else None
        case Some(parent) => if causes != [parent] then Some(InvalidPayload) else None)
  }

  /** A live request in the record's own thread and space. */
  function LiveRequest(prior: Prior, s: State, r: Record, request: Id): Finding {
    if request !in s.activeRequests then Some(RequestMissing)
    else
      var found := Find(prior, request);
      if found.None? || !SamePlace(found.value, r) then Some(RequestMissing) else None
  }

  function CheckAction(prior: Prior, s: State, r: Record): Finding {
    if !r.data.ActionData? then Some(InvalidPayload)
    else
      var d := r.data;
      OrElse(LiveRequest(prior, s, r, d.requestId),
      OrElse(CheckScope(prior, d),
        var key := (r.author.id, d.actionClass, d.scope);
        if key !in s.activeCapabilities then Some(CapabilityMissing)
        else CheckAuthority(prior, s, r, s.activeCapabilities[key])))
  }

  /** An action stays within the scope of its request. */
  function CheckScope(prior: Prior, d: Payload): Finding
    requires d.ActionData?
  {
    var found := Find(prior, d.requestId);
    if found.None? || !found.value.data.RequestData? then Some(InvalidPayload)
    else if d.scope != found.value.data.scope then Some(InvalidPayload)
    else None
  }

  function CheckAuthority(prior: Prior, s: State, r: Record, cap: Id): Finding
    requires r.data.ActionData?
  {
    var found := Find(prior, cap);
    if found.None? then Some(CapabilityMissing)
    else if Withdrawn(s, cap) then Some(CapabilityMissing)
    else if !found.value.data.CapabilityData? then Some(InvalidPayload)
    else if Expired(found.value.data.expiry, r.time) then Some(CapabilityMissing)
    else
      match found.value.data.mode
      case Deny => Some(CapabilityDenied)
      case Auto => if !HasRef(r, Require, cap) then Some(AuthorityRefMissing) else None
      case Ask =>
        match ResolveApproval(prior, s, r)
        case Refused(why) => Some(why)
        case By(approval) =>
          if !HasRef(r, Require, cap) || !HasRef(r, Require, approval) then Some(AuthorityRefMissing) else None
  }

  /** How an Ask-mode action found its approval. */
  datatype Approved = By(approval: Id) | Refused(why: ReasonCode)

  /** The exact slot; one that is mis-declared or expired falls through to the classes. */
  function ExactApproval(prior: Prior, s: State, r: Record): Option<Approved>
    requires r.data.ActionData?
  {
    var subject := ActionSubject(r.author.id, r.data);
    if subject !in s.validApprovals then None
    else
      var id := s.validApprovals[subject];
      var found := Find(prior, id);
      if found.None? || !Usable(s, id) then None
      else if !found.value.data.ApprovalData? then Some(Refused(InvalidPayload))
      else if found.value.data.approvedActor != Some(r.author.id) || found.value.data.scope != r.data.scope then None
      else if Expired(found.value.data.expiry, r.time) then None
      else Some(By(id))
  }

  /** A class slot: absent, expired, or good. */
  function ClassApproval(prior: Prior, s: State, r: Record, key: ClassKey): Option<Approved> {
    if key !in s.classApprovals then None
    else
      var id := s.classApprovals[key];
      var found := Find(prior, id);
      if found.None? || !Usable(s, id) then None
      else if !found.value.data.ApprovalData? then Some(Refused(InvalidPayload))
      else if Expired(found.value.data.expiry, r.time) then Some(Refused(ApprovalExpired))
      else Some(By(id))
  }

  function ResolveApproval(prior: Prior, s: State, r: Record): Approved
    requires r.data.ActionData?
  {
    var exact := ExactApproval(prior, s, r);
    if exact.Some? then exact.value
    else
      var mine := ClassApproval(prior, s, r, (r.data.actionClass, r.data.scope, Some(r.author.id)));
      if mine.Some? then mine.value
      else
        var anyone := ClassApproval(prior, s, r, (r.data.actionClass, r.data.scope, None));
        if anyone.Some? then anyone.value else Refused(ApprovalMissing)
  }

  function SoleCause(r: Record, target: Id): Finding {
    if Targets(r.refs, Cause) != [target] then Some(InvalidPayload) else None
  }

  function CheckResult(rules: Rules, prior: Prior, s: State, r: Record): Finding {
    if !r.data.ResultData? then Some(InvalidPayload)
    else if r.data.artifacts.Some? && !ArtifactsWellFormed(r.data.artifacts.value) then Some(ArtifactRefInvalid)
    else if r.data.actionId !in s.openActions then Some(ActionClosed)
    else
      var action := Find(prior, r.data.actionId);
      if action.None? || !SamePlace(action.value, r) then Some(ActionClosed)
      else if !action.value.data.ActionData? then Some(InvalidPayload)
      else OrElse(CheckExecution(rules, r, action.value.data.execMode), SoleCause(r, r.data.actionId))
  }

  function CheckExecution(rules: Rules, r: Record, mode: ExecMode): Finding {
    match mode
    case External =>
      if r.schema != ResultExternal then Some(ExternalReceiptRequired)
      else if r.author.signature.None? then Some(SignatureMissing)
      else if r.author.id !in rules.authorKeys then Some(SignatureInvalid)
      else None
    case Internal =>
      if r.schema == ResultExternal then Some(InvalidPayload) else None
  }

  function CheckRefusal(prior: Prior, s: State, r: Record): Finding {
    if !r.data.RefusalData? then Some(InvalidPayload)
    else
      var found := Find(prior, r.data.targetId);
      if found.None? then Some(RequestMissing)
      else OrElse(CheckRefusedTarget(s, r, found.value), SoleCause(r, r.data.targetId))
  }

  function CheckRefusedTarget(s: State, r: Record, t: Record): Finding
    requires r.data.RefusalData?
  {
    match r.data.targetKind
    case OfAction =>
      if t.kind != Action then Some(InvalidPayload)
      else if r.data.targetId !in s.openActions then Some(ActionClosed)
      else if !SamePlace(t, r) then Some(ActionClosed)
      else None
    case OfRequest =>
      if t.kind != Request then Some(InvalidPayload)
      else if r.data.targetId !in s.activeRequests then Some(RequestMissing)
      else if !SamePlace(t, r) then Some(RequestMissing)
      else None
    case OfVerifiedEffect =>
      if t.kind != Kind.Result || t.schema != ResultEffectConfirmation then Some(InvalidPayload)
      else if r.data.targetId !in s.accepted then Some(InvalidPayload)
      else if !SamePlace(t, r) then Some(InvalidPayload)
      else None
  }

  function CheckUsage(prior: Prior, s: State, r: Record): Finding {
    if !r.data.UsageData? then Some(InvalidPayload)
    else if r.data.actor != r.author.id then Some(InvalidPayload)
    else if Find(prior, r.data.usedRecord).None? then Some(InvalidPayload)
    else
      var consuming := Find(prior, r.data.consumingRecord);
      if consuming.None? then Some(InvalidPayload)
      else if r.data.consumingRecord !in s.accepted then Some(InvalidPayload)
      else if consuming.value.kind != Kind.Result && consuming.value.kind != Refusal then Some(InvalidPayload)
      else if consuming.value.thread != r.thread then Some(InvalidPayload)
      else if Targets(r.refs, Use) != [r.data.usedRecord] then Some(InvalidPayload)
      else None
  }

  function CheckSummary(rules: Rules, r: Record): Finding {
    if !r.data.SummaryData? then Some(InvalidPayload)
    else if r.data.summaryType !in rules.allowedSummaryTypes then Some(InvalidPayload)
    else if Targets(r.refs, Use) == [] then Some(InvalidPayload)
    else None
  }

  function CheckResponse(prior: Prior, s: State, r: Record): Finding {
    if !r.data.ResponseData? then Some(InvalidPayload)
    else
      var d := r.data;
      OrElse(LiveRequest(prior, s, r, d.requestId),
        var turn := Count(s.responseTurns, d.requestId);
        if turn == U32_MAX || d.turnIndex != turn then Some(InvalidPayload)
        else if d.closesRequest && Count(s.openActionCount, d.requestId) > 0 then Some(InvalidPayload)
        else if d.closesRequest && d.requestId in s.activePlans then Some(InvalidPayload)
        else None)
  }

  function CheckApproval(r: Record): Finding {
    if !r.data.ApprovalData? then Some(InvalidPayload)
    else if r.data.targetAction.Some? == r.data.approvedClass.Some? then Some(InvalidPayload)
    else if r.data.targetAction.Some? && r.data.approvedActor.None? then Some(InvalidPayload)
    else None
  }

  /** `cyclic` is what the search for a dependency cycle reported. */
  function CheckPlan(prior: Prior, s: State, r: Record, cyclic: bool): Finding {
    if !r.data.PlanData? then Some(InvalidPayload)
    else if Targets(r.refs, Cause) != [r.data.requestId] then Some(RequestMissing)
    else
      OrElse(LiveRequest(prior, s, r, r.data.requestId),
        if !Plans.TasksWellFormed(r.data.tasks) then Some(InvalidPayload)
        else if exists i :: 0 <= i < |r.data.tasks| && !TaskResultValid(prior, s, r, r.data.tasks[i]) then
          Some(InvalidPayload)
        else if cyclic then Some(InvalidPayload)
        else if !Plans.StatusCoherent(r.data.tasks, r.data.planStatus) then Some(InvalidPayload)
        else None)
  }

  /** A task's result names an accepted Result of an action under the plan's request. */
  predicate TaskResultValid(prior: Prior, s: State, r: Record, t: PlanTask)
    requires r.data.PlanData?
  {
    t.resultRecordId.Some? ==>
      && (t.status.TaskDone? || t.status.TaskFailed?)
      && var result := Find(prior, t.resultRecordId.value);
      && result.Some?
      && result.value.kind == Kind.Result
      && t.resultRecordId.value in s.accepted
      && SamePlace(result.value, r)
      && result.value.data.ResultData?
      && var action := Find(prior, result.value.data.actionId);
      && action.Some?
      && action.value.data.ActionData?
      && action.value.data.requestId == r.data.requestId
  }

  function CheckRetraction(rules: Rules, prior: Prior, s: State, r: Record): Finding {
    if !r.data.RetractionData? then Some(InvalidPayload)
    else
      OrElse(SoleCause(r, r.data.targetId),
        var target := Find(prior, r.data.targetId);
        if target.None? then Some(RefUnresolved)
        else if r.data.targetId !in s.accepted then Some(InvalidPayload)
        else if target.value.kind == Kind.Verdict || target.value.kind == Retraction then Some(InvalidPayload)
        else if r.author.id != target.value.author.id && r.author.id !in rules.adminRetractionActors then
          Some(AuthorRoleInvalid)
        else None)
  }

  // ----- Artifact and source identities ---------------------------------------------

  predicate IsLowerHex(s: string) {
    forall i :: 0 <= i < |s| ==> '0' <= s[i] <= '9' || 'a' <= s[i] <= 'f'
  }

  predicate SchemeChar(c: char) {
    'a' <= c <= 'z' || '0' <= c <= '9'
  }

  function SchemeBytes(scheme: string): Option<nat> {
    if scheme == "git-tree-sha1" then Some(20)
    else if scheme in {"git-tree-sha256", "manifest-v1", "git-archive-tar-v1", "oci-image-manifest", "sha256-bytes"}
    then Some(32)
    else None
  }

  predicate ArtifactWellFormed(a: ArtifactRef) {
    && a.scheme != "" && SchemeChar(a.scheme[0])
    && (forall i :: 1 <= i < |a.scheme| ==> SchemeChar(a.scheme[i]) || a.scheme[i] == '.' || a.scheme[i] == '-')
    && |a.digest| % 2 == 0 && IsLowerHex(a.digest)
    && var n := |a.digest| / 2;
       match SchemeBytes(a.scheme)
       case Some(want) => n == want
       case None => 20 <= n <= 64
  }

  predicate TextBefore(a: string, b: string) {
    b != [] && (a == [] || a[0] < b[0] || (a[0] == b[0] && TextBefore(a[1..], b[1..])))
  }

  predicate NameBefore(a: Option<string>, b: Option<string>) {
    b.Some? && (a.None? || TextBefore(a.value, b.value))
  }

  predicate ArtifactBefore(a: ArtifactRef, b: ArtifactRef) {
    || TextBefore(a.scheme, b.scheme)
    || (a.scheme == b.scheme && TextBefore(a.digest, b.digest))
    || (a.scheme == b.scheme && a.digest == b.digest && NameBefore(a.name, b.name))
  }

  predicate ArtifactsWellFormed(list: seq<ArtifactRef>) {
    && (forall i :: 0 <= i < |list| ==> ArtifactWellFormed(list[i]))
    && (forall i :: 0 <= i < |list| - 1 ==> ArtifactBefore(list[i], list[i + 1]))
  }

  predicate SourceWellFormed(b: SourceBinding) {
    var len := if b.algo.Sha1? then 40 else 64;
    && |b.tree| == len && IsLowerHex(b.tree)
    && (b.commit.Some? ==> |b.commit.value| == len && IsLowerHex(b.commit.value))
    && (b.manifestHash.Some? <==> b.binding.BoundManifest?)
  }

  // ----- Evolution: candidates, evaluations, selections, requirements -----------------

  /** A payload id that names a prior accepted Candidate of the same space. */
  predicate ResolvesToCandidate(prior: Prior, s: State, r: Record, id: Id) {
    var t := Find(prior, id);
    t.Some? && t.value.space == r.space && t.value.kind == Candidate && t.value.id in s.accepted
  }

  function CheckCandidate(rules: Rules, prior: Prior, s: State, r: Record): Finding {
    if !r.data.CandidateData? then Some(InvalidPayload)
    else
      var d := r.data;
      var causes := Targets(r.refs, Cause);
      if !SourceWellFormed(d.source) then Some(SourceBindingInvalid)
      else if d.artifacts.Some? && !ArtifactsWellFormed(d.artifacts.value) then Some(ArtifactRefInvalid)
      else if d.parent.Some? && !ResolvesToCandidate(prior, s, r, d.parent.value) then Some(PayloadRefUnresolved)
      else if exists i :: 0 <= i < |causes| && Find(prior, causes[i]).None? then Some(RefUnresolved)
      else
        match d.basis
        case Root => CheckRoot(prior, s, d, causes)
        case Continuation => CheckContinuation(rules, prior, s, d, causes)
        case Derivation => CheckDerivation(prior, s, d, causes)
  }

  function CheckRoot(prior: Prior, s: State, d: Payload, causes: seq<Id>): Finding
    requires d.CandidateData?
  {
    if d.parent.Some? || |causes| > 1 then Some(LineageInvalid)
    else if causes == [] then None
    else
      var request := Find(prior, causes[0]);
      if request.None? || request.value.kind != Request || request.value.id !in s.accepted then Some(LineageInvalid)
      else None
  }

  function CheckContinuation(rules: Rules, prior: Prior, s: State, d: Payload, causes: seq<Id>): Finding
    requires d.CandidateData?
  {
    if |causes| != 1 then Some(LineageInvalid)
    else
      var anchor := Find(prior, causes[0]);
      if anchor.None? || anchor.value.kind != Selection || anchor.value.id !in s.accepted then Some(LineageInvalid)
      else if rules.rejectCompromisedContinuation && Withdrawn(s, anchor.value.id) then Some(LineageInvalid)
      else if d.parent.None? then Some(LineageInvalid)
      else if !anchor.value.data.SelectionData? then Some(InvalidPayload)
      else if d.parent.value !in SelectedIds(anchor.value.data.decision) then Some(LineageInvalid)
      else None
  }

  function CheckDerivation(prior: Prior, s: State, d: Payload, causes: seq<Id>): Finding
    requires d.CandidateData?
  {
    if d.parent.Some? || causes == [] then Some(LineageInvalid)
    else if exists i :: 0 <= i < |causes| && !DerivesFrom(prior, s, causes[i]) then Some(LineageInvalid)
    else None
  }

  predicate DerivesFrom(prior: Prior, s: State, cause: Id) {
    var t := Find(prior, cause);
    t.Some? && t.value.id in s.accepted && (t.value.kind == Candidate || t.value.kind == Evaluation)
  }

  function CheckEvaluation(rules: Rules, prior: Prior, s: State, r: Record): Finding {
    if r.schema == EvaluationV2 || r.schema == EvaluationAttested then CheckExtendedEvaluation(rules, prior, s, r)
    else if !r.data.EvaluationData? then Some(InvalidPayload)
    else CheckJudged(prior, s, r, r.data.candidate)
  }

  /** The judged candidate resolves and is named by a Use ref. */
  function CheckJudged(prior: Prior, s: State, r: Record, candidate: Id): Finding {
    if !ResolvesToCandidate(prior, s, r, candidate) then Some(PayloadRefUnresolved)
    else if !HasRef(r, Use, candidate) then Some(EvaluationInvalid)
    else None
  }

  function CheckExtendedEvaluation(rules: Rules, prior: Prior, s: State, r: Record): Finding {
    if !r.data.EvaluationDataV2? then Some(InvalidPayload)
    else
      var d := r.data;
      if r.schema == EvaluationAttested && r.author.signature.None? then Some(SignatureMissing)
      else if r.schema == EvaluationAttested && r.author.id !in rules.authorKeys then Some(SignatureInvalid)
      else
        OrElse(CheckJudged(prior, s, r, d.candidate),
          if d.evaluator.id == "" then Some(EvaluationInvalid)
          else if !ArtifactsWellFormed(d.evidence) then Some(ArtifactRefInvalid)
          else if exists i :: 0 <= i < |d.requirements| - 1 && d.requirements[i] >= d.requirements[i + 1] then
            Some(EvaluationInvalid)
          else if exists i :: 0 <= i < |d.requirements| && !BindsRequirement(prior, s, r, d.requirements[i]) then
            Some(EvaluationInvalid)
          else None)
  }

  predicate BindsRequirement(prior: Prior, s: State, r: Record, id: Id) {
    var t := Find(prior, id);
    && t.Some? && t.value.kind == Requirement && t.value.space == r.space && t.value.id in s.accepted
    && HasRef(r, Use, id)
  }

  function JudgedCandidate(p: Payload): Option<Id> {
    if p.EvaluationData? || p.EvaluationDataV2? then Some(p.candidate) else None
  }

  /** An accepted Evaluation among the used records. */
  predicate CountsAsEvaluation(prior: Prior, s: State, id: Id) {
    var t := Find(prior, id);
    t.Some? && t.value.kind == Evaluation && t.value.id in s.accepted
  }

  /** Every used accepted Evaluation judges a considered candidate. */
  function CheckUsedEvaluations(prior: Prior, s: State, considered: seq<Id>, used: seq<Id>): Finding {
    if used == [] then None
    else if !CountsAsEvaluation(prior, s, used[0]) then CheckUsedEvaluations(prior, s, considered, used[1..])
    else
      var judged := JudgedCandidate(Find(prior, used[0]).value.data);
      if judged.None? then Some(InvalidPayload)
      else if judged.value !in considered then Some(SelectionInvalid)
      else CheckUsedEvaluations(prior, s, considered, used[1..])
  }

  predicate Distinct(ids: seq<Id>) {
    forall i, j :: 0 <= i < j < |ids| ==> ids[i] != ids[j]
  }

  function CheckSelection(rules: Rules, prior: Prior, s: State, r: Record): Finding {
    if !r.data.SelectionData? then Some(InvalidPayload)
    else
      var d := r.data;
      if d.considered == [] || |d.considered| > rules.maxConsidered then Some(SelectionInvalid)
      else if !Distinct(d.considered) then Some(SelectionInvalid)
      else if exists i :: 0 <= i < |d.considered| && !ResolvesToCandidate(prior, s, r, d.considered[i]) then
        Some(PayloadRefUnresolved)
      else
        OrElse(CheckUsedEvaluations(prior, s, d.considered, Targets(r.refs, Use)),
        OrElse(CheckWinners(rules, prior, s, r),
        OrElse(CheckSelectionAuthority(rules, prior, s, r),
               CheckReaffirmation(rules, prior, r))))
  }

  function CheckWinners(rules: Rules, prior: Prior, s: State, r: Record): Finding
    requires r.data.SelectionData?
  {
    match r.data.decision
    case NothingSelected => None
    case Selected(winners) =>
      if winners == [] || !Distinct(winners) || (exists i :: 0 <= i < |winners| && winners[i] !in r.data.considered) then
        Some(SelectionInvalid)
      else if rules.minBinding.BoundManifest?
              && exists i :: 0 <= i < |winners| && !BoundToManifest(prior, winners[i]) then Some(SelectionInvalid)
      else if rules.selectionRequiresEvaluation
              && !exists t :: t in Targets(r.refs, Use) && CountsAsEvaluation(prior, s, t) then Some(SelectionInvalid)
      else None
  }

  predicate BoundToManifest(prior: Prior, id: Id) {
    var t := Find(prior, id);
    t.Some? && t.value.data.CandidateData? && t.value.data.source.binding.BoundManifest?
  }

  /** The Require refs are exactly the winners plus the approval the rules demand. */
  function CheckSelectionAuthority(rules: Rules, prior: Prior, s: State, r: Record): Finding
    requires r.data.SelectionData?
  {
    var winners := set x | x in SelectedIds(r.data.decision);
    var required := set x | x in Targets(r.refs, Require);
    if !rules.selectionRequiresApproval then
      if required != winners then Some(SelectionInvalid) else None
    else
      match ResolveSelectionApproval(prior, s, r)
      case Refused(why) => Some(why)
      case By(approval) => if required != winners + {approval} then Some(SelectionInvalid) else None
  }

  function ResolveSelectionApproval(prior: Prior, s: State, r: Record): Approved
    requires r.data.SelectionData?
  {
    var subject := SelectionSubject(r.author.id, FirstTarget(r.refs, Replace), r.data);
    if subject !in s.validApprovals then Refused(ApprovalMissing)
    else
      var id := s.validApprovals[subject];
      var found := Find(prior, id);
      if !HasRef(r, Require, id) || !Usable(s, id) || found.None? then Refused(ApprovalMissing)
      else if !found.value.data.ApprovalData? then Refused(InvalidPayload)
      else if found.value.data.approvedActor != Some(r.author.id) then Refused(ApprovalMissing)
      else if Expired(found.value.data.expiry, r.time) then Refused(ApprovalExpired)
      else By(id)
  }

  function CheckReaffirmation(rules: Rules, prior: Prior, r: Record): Finding
    requires r.data.SelectionData?
  {
    var replaced := FirstTarget(r.refs, Replace);
    if replaced.None? then None
    else
      var target := Find(prior, replaced.value);
      if target.Some? && !target.value.data.SelectionData? then Some(InvalidPayload)
      else if target.Some? && target.value.data.objective != r.data.objective then Some(ReaffirmationInvalid)
      else if rules.reaffirmationActors != {} && r.author.id !in rules.reaffirmationActors then
        Some(ReaffirmationInvalid)
      else None
  }

  function CheckRequirement(prior: Prior, s: State, r: Record): Finding {
    if !r.data.RequirementData? then Some(InvalidPayload)
    else
      var d := r.data;
      var causes := Targets(r.refs, Cause);
      if d.key == "" || d.description == "" then Some(RequirementInvalid)
      else if d.provenance.UserAuthored? && r.author.role != User then Some(AuthorRoleInvalid)
      else if d.provenance.Derived? && r.author.role != Provider && r.author.role != System then Some(AuthorRoleInvalid)
      else if |causes| != 1 then Some(RequirementInvalid)
      else
        var request := Find(prior, causes[0]);
        if request.None? || request.value.kind != Request || causes[0] !in s.accepted
           || !SamePlace(request.value, r) then Some(RequirementInvalid)
        else if d.key in Members(s.requirementKeys, causes[0]) then Some(RequirementInvalid)
        else None
  }

  // ----- Verdict records -----------------------------------------------------------

  function CheckVerdict(c: Crypto, rules: Rules, prior: Prior, r: Record): Finding {
    if ComputeId(c, r) != r.id then Some(InvalidPayload)
    else if r.schema != VerdictV1 then Some(KindSchemaMismatch)
    else if r.author.role != Verifier then Some(InvalidPayload)
    else if r.author.signature.Some? then Some(InvalidPayload)
    else if r.space != rules.space then Some(InvalidPayload)
    else if r.evidence != Deterministic then Some(InvalidPayload)
    else if !DecodesAs(VerdictV1, r.data) then Some(InvalidPayload)
    else if |r.refs| != 1 || r.refs[0].kind != Cause then Some(InvalidPayload)
    else
      var subject := Find(prior, r.refs[0].target);
      if subject.None? then Some(RefUnresolved)
      else if subject.value.kind == Kind.Verdict then Some(InvalidPayload)
      else if !SamePlace(subject.value, r) then Some(InvalidPayload)
      else if r.refs[0].target in prior.verdicted then Some(InvalidPayload)
      else None
  }

  /** Whether a record carries a plan whose tasks depend on themselves. */
  ghost predicate CarriesCycle(r: Record) {
    r.data.PlanData? && Plans.TasksWellFormed(r.data.tasks) && Plans.Cyclic(r.data.tasks)
  }

  /** `check_record`: verdicts take their own path. */
  ghost function Check(c: Crypto, rules: Rules, prior: Prior, s: State, r: Record): Finding {
    if r.kind == Kind.Verdict then CheckVerdict(c, rules, prior, r)
    else CheckSubject(c, rules, prior, s, r, CarriesCycle(r))
  }

  function AsJudgment(f: Finding): Judgment {
    match f
    case None => Accept
    case Some(why) => Reject(why)
  }

  /** `verify_record`: the judgment that should be committed. */
  ghost function Judge(c: Crypto, rules: Rules, prior: Prior, s: State, r: Record): Judgment {
    AsJudgment(Check(c, rules, prior, s, r))
  }

  method VerifyRecord(c: Crypto, rules: Rules, prior: Prior, s: State, r: Record) returns (j: Judgment)
    ensures j == Judge(c, rules, prior, s, r)
  {
    if r.kind == Kind.Verdict {
      j := AsJudgment(CheckVerdict(c, rules, prior, r));
    } else {
      var cyclic := false;
      if r.data.PlanData? && Plans.TasksWellFormed(r.data.tasks) {
        cyclic := Plans.HasCycle(r.data.tasks);
      }
      j := AsJudgment(CheckSubject(c, rules, prior, s, r, cyclic));
    }
  }
}
