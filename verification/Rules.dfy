// Rule configuration, the crypto the verifier relies on, and the index of prior records.
module Rules {
  import opened Records

  datatype Rules = Rules(
    space: nat,
    admitted: set<Schema>,
    signatureRequired: set<Kind>,
    authorKeys: map<string, set<nat>>,
    authorRoles: map<string, AuthorType>,
    adminRetractionActors: set<string>,
    allowedSummaryTypes: set<SummaryType>,
    evidenceThresholds: map<Kind, Evidence>,
    minBinding: BindingMode,
    selectionRequiresEvaluation: bool,
    reaffirmationActors: set<string>,
    maxConsidered: nat,
    selectionRequiresApproval: bool,
    rejectCompromisedContinuation: bool)

  /** SHA-256 over the canonical id form, Ed25519 verification (the key a present
      signature verifies under), and SHA-256 over a canonical proposal. */
  datatype Crypto = Crypto(
    hash: Record -> Id,
    signedBy: Record -> Option<nat>,
    batchKey: Proposal -> nat)

  /** The content address: the id itself is the only field left out. */
  function ComputeId(c: Crypto, r: Record): Id {
    c.hash(r.(id := 0))
  }

  /** Every id a record mentions, in a ref or in its payload. */
  function Mentions(r: Record): set<Id> {
    (set i | 0 <= i < |r.refs| :: r.refs[i].target) + PayloadMentions(r.data)
  }

  function PayloadMentions(p: Payload): set<Id> {
    match p
    case RequestData(_, _, parent) => if parent.Some? then {parent.value} else {}
    case ActionData(request, _, _, _, _) => {request}
    case ResponseData(request, _, _, _) => {request}
    case ResultData(action, _, _, _) => {action}
    case UsageData(_, used, consuming, _, _) => {used, consuming}
    case RefusalData(target, _) => {target}
    case PlanData(request, tasks, _) =>
      {request} + set i | 0 <= i < |tasks| && tasks[i].resultRecordId.Some? :: tasks[i].resultRecordId.value
    case RetractionData(target, _) => {target}
    case CandidateData(_, _, parent, _) => if parent.Some? then {parent.value} else {}
    case EvaluationData(candidate, _, _) => {candidate}
    case EvaluationDataV2(candidate, _, _, _, _, _, requirements) => {candidate} + set x | x in requirements
    case SelectionData(_, considered, decision) => (set x | x in considered) + set x | x in SelectedIds(decision)
    case _ => {}
  }

  /** What collision resistance gives: equal addresses mean equal content, no record
      holds its own address, and no record hashes to the empty head token. */
  ghost predicate Collisionless(c: Crypto) {
    && (forall a: Record, b: Record :: ComputeId(c, a) == ComputeId(c, b) ==> a.(id := 0) == b.(id := 0))
    && (forall a: Record :: ComputeId(c, a) !in Mentions(a))
    && (forall a: Record :: ComputeId(c, a) != EMPTY_HEAD)
  }

  // ----- The records before the one under verification --------------------------

  datatype Prior = Prior(byId: map<Id, Record>, verdicted: set<Id>) {
    /** Register a record; the first occurrence of an id wins. */
    function Insert(r: Record): Prior {
      Prior(
        if r.id in byId then byId else byId[r.id := r],
        verdicted + if r.kind == Verdict then (set t | t in Targets(r.refs, Cause)) else {})
    }
  }

  const NO_PRIOR: Prior := Prior(map[], {})

  function PriorOf(log: seq<Record>): Prior {
    if log == [] then NO_PRIOR else PriorOf(log[..|log| - 1]).Insert(log[|log| - 1])
  }

  lemma PriorStep(log: seq<Record>, r: Record)
    ensures PriorOf(log + [r]) == PriorOf(log).Insert(r)
  {
    assert (log + [r])[..|log|] == log;
  }

  ghost predicate UniqueIds(log: seq<Record>) {
    forall i, j :: 0 <= i < j < |log| ==> log[i].id != log[j].id
  }

  /** The index finds exactly what a front-to-back scan finds. */
  lemma {:induction false} PriorFindsFirst(log: seq<Record>, id: Id)
    ensures id in PriorOf(log).byId <==> exists i :: 0 <= i < |log| && log[i].id == id
    ensures id in PriorOf(log).byId ==>
              exists i :: 0 <= i < |log| && log[i] == PriorOf(log).byId[id] && log[i].id == id
                          && forall j :: 0 <= j < i ==> log[j].id != id
  {
    if log != [] {
      var g, r := log[..|log| - 1], log[|log| - 1];
      PriorFindsFirst(g, id);
      if id in PriorOf(g).byId {
        var i :| 0 <= i < |g| && g[i] == PriorOf(g).byId[id] && g[i].id == id
                 && forall j :: 0 <= j < i ==> g[j].id != id;
        assert log[i] == g[i];
        assert forall j :: 0 <= j < i ==> log[j] == g[j];
      } else if r.id == id {
        assert forall j :: 0 <= j < |g| ==> log[j] == g[j];
      }
    }
  }

  lemma PriorAt(log: seq<Record>, i: nat)
    requires UniqueIds(log) && i < |log|
    ensures log[i].id in PriorOf(log).byId && PriorOf(log).byId[log[i].id] == log[i]
  {
    PriorFindsFirst(log, log[i].id);
  }

  /** A subject is verdicted exactly when some verdict's Cause names it. */
  lemma {:induction false} PriorVerdicted(log: seq<Record>, id: Id)
    ensures id in PriorOf(log).verdicted <==>
            exists i :: 0 <= i < |log| && log[i].kind == Verdict && id in Targets(log[i].refs, Cause)
  {
    if log != [] {
      var g, r := log[..|log| - 1], log[|log| - 1];
      PriorVerdicted(g, id);
      if id in PriorOf(g).verdicted {
        var i :| 0 <= i < |g| && g[i].kind == Verdict && id in Targets(g[i].refs, Cause);
        assert log[i] == g[i];
      }
      if exists i :: 0 <= i < |log| && log[i].kind == Verdict && id in Targets(log[i].refs, Cause) {
        var i :| 0 <= i < |log| && log[i].kind == Verdict && id in Targets(log[i].refs, Cause);
        if i < |g| {
          assert g[i] == log[i];
        }
      }
    }
  }
}
