// The verifier's battery, which works from its index and its running state, against the
// rulebook, which reads the log.
module Rulings {
  import opened Records
  import opened LedgerState
  import opened EvidenceRules
  import opened Refs
  import opened Rules
  import opened Checks
  import opened Pasts
  import opened Rulebook
  import Facts
  import Plans

  function AsFinding(x: Ruling): Finding {
    match x
    case Fine => None
    case Broken(why) => Some(why)
  }

  // ----- When the index and the state say what the log says ---------------------------------------

  ghost predicate SameNames(p: Past, prior: Prior) {
    forall id ::
      && Find(prior, id) == p.Named(id)
      && (p.Named(id).Some? ==> p.Named(id).value.id == id)
  }

  ghost predicate SameStanding(p: Past, s: State) {
    forall id ::
      && (id in s.accepted <==> p.Accepted(id))
      && (Withdrawn(s, id) <==> p.Withdrawn(id))
  }

  ghost predicate SameWork(p: Past, s: State) {
    forall x ::
      && (x in s.activeRequests <==> p.Active(x))
      && (x in s.openActions <==> p.Open(x))
      && (Count(s.openActionCount, x) > 0 <==> p.Busy(x))
      && Count(s.responseTurns, x) == p.Turns(x)
      && (x in s.activePlans <==> p.Planned(x))
  }

  ghost predicate SameKeys(p: Past, s: State) {
    forall x, key :: key in Members(s.requirementKeys, x) <==> p.KeyTaken(x, key)
  }

  /** A slot holds the id of the record the log says is in force, and that was accepted. */
  ghost predicate Holds<K>(prior: Prior, s: State, slots: map<K, Id>, k: K, found: Option<Record>) {
    && (k in slots <==> found.Some?)
    && (k in slots ==> Find(prior, slots[k]) == found && found.value.id == slots[k] && slots[k] in s.accepted)
  }

  ghost predicate SameCapabilities(p: Past, prior: Prior, s: State) {
    forall a, k, n ::
      && Holds(prior, s, s.activeCapabilities, (a, k, n), p.CapabilityFor(a, k, n))
      && (p.CapabilityFor(a, k, n).Some? ==> p.CapabilityFor(a, k, n).value.data.CapabilityData?)
  }

  ghost predicate SameApprovals(p: Past, prior: Prior, s: State) {
    forall x ::
      && Holds(prior, s, s.validApprovals, x, p.ExactApprovalFor(x))
      && (p.ExactApprovalFor(x).Some? ==> p.ExactApprovalFor(x).value.data.ApprovalData?)
  }

  ghost predicate SameClassApprovals(p: Past, prior: Prior, s: State) {
    forall k, n, a ::
      && Holds(prior, s, s.classApprovals, (k, n, a), p.ClassApprovalFor(k, n, a))
      && (p.ClassApprovalFor(k, n, a).Some? ==> p.ClassApprovalFor(k, n, a).value.data.ApprovalData?)
  }

  /** What is accepted is on record, and its payload fits its kind. */
  ghost predicate AcceptedFit(p: Past) {
    && (forall id :: p.Accepted(id) ==> p.Named(id).Some? && Shaped(p.Named(id).value))
    && (forall id :: p.Open(id) ==> p.Named(id).Some? && p.Named(id).value.data.ActionData?)
  }

  predicate Shaped(r: Record) {
    && (r.kind == Selection ==> r.data.SelectionData?)
    && (r.kind == Evaluation ==> r.data.EvaluationData? || r.data.EvaluationDataV2?)
    && (r.kind == Capability ==> r.data.CapabilityData?)
    && (r.kind == Approval ==> r.data.ApprovalData?)
    && (r.kind == Summary ==> r.data.SummaryData?)
    && (r.kind == Plan ==> r.data.PlanData?)
  }

  ghost predicate Reflects(p: Past, prior: Prior, s: State) {
    && SameNames(p, prior) && SameStanding(p, s) && SameWork(p, s) && SameKeys(p, s)
    && SameCapabilities(p, prior, s) && SameApprovals(p, prior, s) && SameClassApprovals(p, prior, s)
    && AcceptedFit(p)
  }

  // ----- The envelope -------------------------------------------------------------------------------

  lemma OrderMeans(refs: seq<Ref>)
    ensures StrictlySorted(refs) <==> InOrder(refs)
  {
    if StrictlySorted(refs) {
      forall i, j | 0 <= i < j < |refs|
        ensures Before(refs[i], refs[j])
      {
        SortedPairs(refs, i, j);
      }
    }
    if InOrder(refs) {
      forall i | 0 <= i < |refs| - 1
        ensures Before(refs[i], refs[i + 1])
      {
        assert InOrder(refs);
      }
    }
  }

  lemma SchemasMean(r: Record)
    ensures r.schema in SchemasOf(r.kind) <==> KindOf(r.schema) == Some(r.kind)
    ensures r.schema.UnknownSchema? <==> KindOf(r.schema).None?
  {
  }

  lemma IdentityRuled(c: Crypto, rules: Rules, r: Record)
    ensures AsFinding(Identity(c, rules, r)) == CheckIdentity(c, rules, r)
  {
    OrderMeans(r.refs);
    SchemasMean(r);
    hide InOrder, StrictlySorted, SchemasOf, KindOf;
  }

  lemma AuthorsMean(r: Record)
    ensures r.kind in KindsFor(r.author.role) <==> r.author.role in AllowedAuthors(r.kind)
  {
  }

  lemma AuthorshipRuled(c: Crypto, rules: Rules, r: Record)
    ensures AsFinding(Authorship(c, rules, r)) == CheckAuthor(c, rules, r)
  {
    AuthorsMean(r);
    hide KindsFor, AllowedAuthors;
  }

  /** A first broken ruling is found front to back. */
  lemma EarliestStep(rulings: seq<Ruling>)
    requires rulings != []
    ensures Earliest(rulings) == rulings[0].Then(Earliest(rulings[1..]))
  {
    var rest := rulings[1..];
    if rulings[0].Broken? {
      assert EarliestBroken(rulings, 0);
    } else {
      forall i: nat
        ensures EarliestBroken(rulings, i) <==> i > 0 && EarliestBroken(rest, i - 1)
      {
        if i > 0 && EarliestBroken(rest, i - 1) {
          assert forall j :: 0 < j < i ==> rulings[j] == rest[j - 1];
        }
        if EarliestBroken(rulings, i) {
          assert forall j :: 0 <= j < i - 1 ==> rest[j] == rulings[j + 1];
        }
      }
      if i: nat :| EarliestBroken(rest, i) {
        assert EarliestBroken(rulings, i + 1);
      }
      OneEarliest(rulings);
      OneEarliest(rest);
    }
  }

  lemma OneEarliest(rulings: seq<Ruling>)
    ensures forall i: nat, j: nat :: EarliestBroken(rulings, i) && EarliestBroken(rulings, j) ==> i == j
  {
  }

  lemma {:induction false} ReferencesRuled(p: Past, prior: Prior, s: State, space: nat, refs: seq<Ref>)
    requires SameNames(p, prior) && SameStanding(p, s)
    ensures AsFinding(References(p, space, refs)) == CheckRefs(prior, s, space, refs)
  {
    hide Earliest, Past.Named, Past.Accepted, Past.Withdrawn;
    var rulings := seq(|refs|, i requires 0 <= i < |refs| => Reference(p, space, refs[i]));
    if refs == [] {
      NothingBroken(rulings);
    } else {
      ReferencesRuled(p, prior, s, space, refs[1..]);
      EarliestStep(rulings);
      assert rulings[1..] == seq(|refs[1..]|, i requires 0 <= i < |refs[1..]| => Reference(p, space, refs[1..][i]));
      assert rulings[0] == Reference(p, space, refs[0]);
      assert Find(prior, refs[0].target) == p.Named(refs[0].target);
    }
  }

  lemma NothingBroken(rulings: seq<Ruling>)
    requires rulings == []
    ensures Earliest(rulings) == Fine
  {
  }

  /** A ref of a type is in the list exactly when the one that is alone names it. */
  lemma OnlyMember(refs: seq<Ref>, t: RefType, x: Id, y: Id)
    requires OnlyNames(refs, t, x)
    ensures Ref(t, y) in refs <==> y == x
  {
  }

  lemma NoMember(refs: seq<Ref>, t: RefType, y: Id)
    requires NoneOf(refs, t)
    ensures Ref(t, y) !in refs
  {
  }

  lemma CompatibleMeans(k: Kind, a: Payload, b: Payload)
    requires k in {Capability, Approval, Summary, Plan, Selection}
    requires FitsReplacement(k, b) && (k == Selection ==> b.SelectionData?)
    ensures CheckCompatible(k, a, b) ==
              if !FitsReplacement(k, a) then Some(InvalidPayload)
              else if !SameTerms(a, b) then Some(ReplacementInvalid)
              else None
  {
  }

  lemma SupersedingKinds(k: Kind)
    ensures k in {Capability, Approval, Summary, Plan, Selection} <==> Supersedes(k)
  {
  }

  lemma ReplacementRuled(p: Past, prior: Prior, s: State, r: Record)
    requires SameNames(p, prior) && SameStanding(p, s) && AcceptedFit(p)
    ensures AsFinding(Replacement(p, r)) == CheckReplacement(prior, s, r)
  {
    hide Past.Named, Past.Accepted, Past.Withdrawn, Past.Open, SameTerms, CheckCompatible, Supersedes, NoneOf,
         OnlyNames,
         FitsReplacement, Several, FirstNames;
    TargetsMean(r.refs, Replace);
    SupersedingKinds(r.kind);
    var targets := Targets(r.refs, Replace);
    if |targets| == 1 {
      var x := targets[0];
      assert targets == [x];
      assert Ref(Replace, x) in r.refs;
      forall y: Id | Ref(Replace, y) in r.refs
        ensures y == x
      {
        OnlyMember(r.refs, Replace, x, y);
      }
      assert Find(prior, x) == p.Named(x);
      assert x in s.accepted <==> p.Accepted(x);
      if p.Accepted(x) && p.Named(x).Some? && p.Named(x).value.kind == r.kind && Supersedes(r.kind) {
        ShapedFits(p.Named(x).value);
        CompatibleMeans(r.kind, r.data, p.Named(x).value.data);
      }
    } else if targets == [] {
      forall y: Id
        ensures Ref(Replace, y) !in r.refs
      {
        NoMember(r.refs, Replace, y);
      }
    }
  }

  lemma ShapedFits(r: Record)
    requires Shaped(r)
    ensures FitsReplacement(r.kind, r.data) && (r.kind == Selection ==> r.data.SelectionData?)
  {
  }

  lemma StrengthMeans(a: Evidence, b: Evidence)
    ensures AtLeastAsStrong(a, b) <==> Rank(a) <= Rank(b)
  {
  }

  lemma StartMeans(s: Schema)
    ensures StartingClass(s) == BaseEvidence(s)
  {
  }

  lemma BringsMeans(p: Past, prior: Prior, s: State, refs: seq<Ref>, e: Evidence)
    requires SameNames(p, prior) && SameStanding(p, s)
    ensures Brings(p, refs, e) <==> e in RefEvidences(s, prior.byId, refs)
  {
    hide Past.Named, Past.Accepted, Past.Withdrawn, RefEvidences;
    RefEvidencesMember(s, prior.byId, refs, e);
    forall ref | ref in refs
      ensures (ref.kind == Use || ref.kind == Require) && p.Named(ref.target).Some?
              && (e == if p.Stands(ref.target) then p.Named(ref.target).value.evidence else Assumed)
         <==> ref.target in prior.byId && RefEvidence(s, ref, prior.byId[ref.target]) == Some(e)
    {
      assert Find(prior, ref.target) == p.Named(ref.target);
    }
  }

  lemma EvidenceRuled(rules: Rules, p: Past, prior: Prior, s: State, r: Record)
    requires SameNames(p, prior) && SameStanding(p, s)
    ensures AsFinding(Evidenced(rules, p, r)) == CheckEvidence(rules, prior, s, r)
  {
    hide Past.Named, Past.Accepted, Past.Withdrawn, RefEvidences, DeriveEvidence, Brings, StartingClass, BaseEvidence,
         AtLeastAsStrong, Rank, SameNames, SameStanding;
    var es := RefEvidences(s, prior.byId, r.refs);
    var d := DeriveEvidence(r.schema, es);
    StartMeans(r.schema);
    DerivedIsWeakestLink(r.schema, es);
    forall e
      ensures Brings(p, r.refs, e) <==> e in es
    {
      BringsMeans(p, prior, s, r.refs, e);
    }
    forall a, b
      ensures AtLeastAsStrong(a, b) <==> Rank(a) <= Rank(b)
    {
      StrengthMeans(a, b);
    }
    RankIsInjective(r.evidence, d);
    assert RightClass(p, r) <==> r.evidence == d;
  }

  lemma DecodingMeans(r: Record)
    ensures r.schema in SchemasFor(r.data) <==> DecodesAs(r.schema, r.data)
  {
    ScaleMeans(r.data);
    hide InScale, ScoreInRange, V1Outcome;
  }

  /** The kind whose fold reads a payload of this shape. */
  function ReadAs(d: Payload): Option<Kind> {
    match d
    case ActionData(_, _, _, _, _) => Some(Action)
    case ResponseData(_, _, _, _) => Some(Response)
    case ResultData(_, _, _, _) => Some(Kind.Result)
    case SummaryData(_, _, _) => Some(Summary)
    case ApprovalData(_, _, _, _, _) => Some(Approval)
    case CapabilityData(_, _, _, _, _) => Some(Capability)
    case UsageData(_, _, _, _, _) => Some(Usage)
    case RefusalData(_, _) => Some(Refusal)
    case PlanData(_, _, _) => Some(Plan)
    case RetractionData(_, _) => Some(Retraction)
    case SelectionData(_, _, _) => Some(Selection)
    case RequirementData(_, _, _, _) => Some(Requirement)
    case _ => None
  }

  /** The fold takes a payload it does not read as it comes, and any other only if it has the
      shape it reads; a payload that is well formed under a schema of the kind always has. */
  lemma FoldReads(k: Kind, d: Payload)
    ensures FitsKind(k, d) <==> k in {Request, Verdict, Candidate, Evaluation} || ReadAs(d) == Some(k)
    ensures SchemasOf(k) * SchemasFor(d) != {} ==> FitsKind(k, d)
  {
    if SchemasOf(k) * SchemasFor(d) != {} {
      var s :| s in SchemasOf(k) * SchemasFor(d);
    }
  }

  lemma ScaleMeans(d: Payload)
    ensures d.EvaluationData? ==>
              && (InScale(d.outcome) <==> ScoreInRange(d.outcome))
              && (V1Outcome(d.outcome) <==> d.outcome.Passed? || d.outcome.Failed? || d.outcome.Scored?)
    ensures d.EvaluationDataV2? ==> (InScale(d.outcome) <==> ScoreInRange(d.outcome))
  {
  }

  // ----- Requests and the work under them -----------------------------------------------------------

  lemma {:induction false} ParentsRuled(p: Past, prior: Prior, s: State, r: Record, refs: seq<Ref>)
    requires SameNames(p, prior) && SameStanding(p, s)
    ensures AsFinding(Parents(p, r, refs)) == CheckParents(prior, s, r, Targets(refs, Cause))
  {
    hide Earliest, Past.Named, Past.Accepted, Past.Withdrawn;
    var rulings := seq(|refs|, i requires 0 <= i < |refs| => Parent(p, r, refs[i]));
    if refs == [] {
      NothingBroken(rulings);
    } else {
      ParentsRuled(p, prior, s, r, refs[1..]);
      EarliestStep(rulings);
      assert rulings[1..] == seq(|refs[1..]|, i requires 0 <= i < |refs[1..]| => Parent(p, r, refs[1..][i]));
      assert rulings[0] == Parent(p, r, refs[0]);
      assert Find(prior, refs[0].target) == p.Named(refs[0].target);
    }
  }

  lemma RequestsRuled(p: Past, prior: Prior, s: State, r: Record)
    requires SameNames(p, prior) && SameStanding(p, s)
    ensures AsFinding(Requests(p, r)) == CheckRequest(prior, s, r)
  {
    hide Earliest, Past.Named, Past.Accepted, Past.Withdrawn, Parents, CheckParents, NoneOf, OnlyNames, Several,
         FirstNames,
         Targets, SameNames, SameStanding;
    TargetsMean(r.refs, Cause);
    ParentsRuled(p, prior, s, r, r.refs);
  }

  lemma LiveRuled(p: Past, prior: Prior, s: State, r: Record, request: Id)
    requires SameNames(p, prior) && SameWork(p, s)
    ensures LiveRequest(prior, s, r, request) == AsFinding(Must(LiveBeside(p, r, request), RequestMissing))
  {
    hide Past.Named, Past.Active, Past.Open, Past.Busy, Past.Planned, Past.Turns;
    assert Find(prior, request) == p.Named(request);
    assert request in s.activeRequests <==> p.Active(request);
  }

  lemma SoleCauseRuled(r: Record, x: Id)
    ensures SoleCause(r, x) == AsFinding(Must(OnlyNames(r.refs, Cause, x), InvalidPayload))
  {
    TargetsMean(r.refs, Cause);
    hide OnlyNames, FirstNames, NoneOf, Several, Targets;
  }

  // ----- Actions and their authority --------------------------------------------------------------

  lemma ExactRuled(p: Past, prior: Prior, s: State, r: Record)
    requires r.data.ActionData? && SameApprovals(p, prior, s) && SameStanding(p, s)
    ensures var a := p.ExactApprovalFor(ActionSubject(r.author.id, r.data));
            ExactApproval(prior, s, r) ==
              if a.Some? && GoodExact(p, r, a.value) then Some(By(a.value.id)) else None
  {
    hide Past.Named, Past.Accepted, Past.Withdrawn, Past.ExactApprovalFor;
    var x := ActionSubject(r.author.id, r.data);
    assert Holds(prior, s, s.validApprovals, x, p.ExactApprovalFor(x));
  }

  lemma ClassRuled(p: Past, prior: Prior, s: State, r: Record, k: string, n: nat, a: Option<string>)
    requires SameClassApprovals(p, prior, s) && SameStanding(p, s)
    ensures var found := p.ClassApprovalFor(k, n, a);
            ClassApproval(prior, s, r, (k, n, a)) ==
              if found.None? || p.Withdrawn(found.value.id) then None
              else if Expired(found.value.data.expiry, r.time) then Some(Refused(ApprovalExpired))
              else Some(By(found.value.id))
  {
    hide Past.Named, Past.Accepted, Past.Withdrawn, Past.ClassApprovalFor;
    assert Holds(prior, s, s.classApprovals, (k, n, a), p.ClassApprovalFor(k, n, a));
  }

  lemma ApprovedRuled(p: Past, prior: Prior, s: State, r: Record)
    requires r.data.ActionData? && SameApprovals(p, prior, s) && SameClassApprovals(p, prior, s) && SameStanding(p, s)
    ensures AsFinding(Asked(p, r)) ==
      match ResolveApproval(prior, s, r)
      case Refused(why) => Some(why)
      case By(a) => if HasRef(r, Require, a) then None else Some(AuthorityRefMissing)
  {
    hide Past.Named, Past.Accepted, Past.Withdrawn, Past.ClassApprovalFor, Past.ExactApprovalFor, ExactApproval,
         ClassApproval, Holds, SameStanding;
    ExactRuled(p, prior, s, r);
    ClassRuled(p, prior, s, r, r.data.actionClass, r.data.scope, Some(r.author.id));
    ClassRuled(p, prior, s, r, r.data.actionClass, r.data.scope, None);
    var exact := p.ExactApprovalFor(ActionSubject(r.author.id, r.data));
    var mine := p.ClassApprovalFor(r.data.actionClass, r.data.scope, Some(r.author.id));
    var anyones := p.ClassApprovalFor(r.data.actionClass, r.data.scope, None);
  }

  lemma GrantedRuled(p: Past, prior: Prior, s: State, r: Record)
    requires r.data.ActionData? && Reflects(p, prior, s)
    ensures AsFinding(Granted(p, r)) ==
      var key := (r.author.id, r.data.actionClass, r.data.scope);
      if key !in s.activeCapabilities then Some(CapabilityMissing)
      else CheckAuthority(prior, s, r, s.activeCapabilities[key])
  {
    hide Past.Named, Past.Accepted, Past.Withdrawn, Past.CapabilityFor, ResolveApproval, Asked, SameNames, SameWork,
         SameKeys, SameApprovals, SameClassApprovals, AcceptedFit;
    ApprovedRuled(p, prior, s, r);
    var cap := p.CapabilityFor(r.author.id, r.data.actionClass, r.data.scope);
    assert Holds(prior, s, s.activeCapabilities, (r.author.id, r.data.actionClass, r.data.scope), cap);
  }

  lemma ActionsRuled(p: Past, prior: Prior, s: State, r: Record)
    requires Reflects(p, prior, s)
    ensures AsFinding(Actions(p, r)) == CheckAction(prior, s, r)
  {
    hide Past.Named, Granted, CheckAuthority, LiveBeside, LiveRequest, SameStanding, SameWork,
         SameKeys, SameApprovals, SameClassApprovals, SameCapabilities, AcceptedFit;
    if r.data.ActionData? {
      GrantedRuled(p, prior, s, r);
      LiveRuled(p, prior, s, r, r.data.requestId);
      assert Find(prior, r.data.requestId) == p.Named(r.data.requestId);
    }
  }

  // ----- Artifacts and sources ------------------------------------------------------------------------

  lemma HexDigit(c: char)
    ensures c in "0123456789abcdef" <==> '0' <= c <= '9' || 'a' <= c <= 'f'
  {
  }

  lemma HexMeans(s: string)
    ensures Hex(s) <==> IsLowerHex(s)
  {
    forall c: char
      ensures c in "0123456789abcdef" <==> '0' <= c <= '9' || 'a' <= c <= 'f'
    {
      HexDigit(c);
    }
    assert forall i :: 0 <= i < |s| ==> s[i] in s;
  }

  lemma SchemeDigit(c: char)
    ensures Alphanumeric(c) <==> SchemeChar(c)
    ensures c in ".-" <==> c == '.' || c == '-'
  {
  }

  lemma SchemeMeans(s: string)
    ensures SchemeName(s) <==>
      s != "" && SchemeChar(s[0]) && forall i :: 1 <= i < |s| ==> SchemeChar(s[i]) || s[i] == '.' || s[i] == '-'
  {
    hide SchemeChar, Alphanumeric;
    forall c: char
      ensures Alphanumeric(c) <==> SchemeChar(c)
      ensures c in ".-" <==> c == '.' || c == '-'
    {
      SchemeDigit(c);
    }
    assert forall i :: 0 <= i < |s| ==> s[i] in s;
  }

  lemma ArtifactMeans(a: ArtifactRef)
    ensures ArtifactHolds(a) <==> ArtifactWellFormed(a)
  {
    hide Hex, IsLowerHex, SchemeChar, SchemeName;
    HexMeans(a.digest);
    SchemeMeans(a.scheme);
    LengthMeans(a.scheme, |a.digest|);
  }

  lemma LengthMeans(scheme: string, n: nat)
    ensures DigestLength(scheme, n) <==>
      n % 2 == 0 && match SchemeBytes(scheme) case Some(want) => n / 2 == want case None => 20 <= n / 2 <= 64
  {
  }

  lemma {:induction false} PrecedesMeans(a: string, b: string)
    ensures Precedes(a, b) <==> TextBefore(a, b)
  {
    if a != [] && b != [] {
      PrecedesMeans(a[1..], b[1..]);
      PrecedesStep(a, b);
    }
  }

  lemma PrecedesStep(a: string, b: string)
    requires a != [] && b != []
    ensures Precedes(a, b) <==> a[0] < b[0] || (a[0] == b[0] && Precedes(a[1..], b[1..]))
  {
    if k :| 0 <= k < |a| && k < |b| && a[..k] == b[..k] && a[k] < b[k] {
      if k > 0 {
        assert a[..k][0] == b[..k][0];
        assert a[1..][..k - 1] == a[..k][1..] == b[..k][1..] == b[1..][..k - 1];
        assert a[1..][k - 1] < b[1..][k - 1];
      }
    }
    if a[0] == b[0] {
      if k :| 0 <= k < |a[1..]| && k < |b[1..]| && a[1..][..k] == b[1..][..k] && a[1..][k] < b[1..][k] {
        assert a[..k + 1] == [a[0]] + a[1..][..k];
        assert b[..k + 1] == [b[0]] + b[1..][..k];
        assert a[k + 1] < b[k + 1];
      }
      assert a == [a[0]] + a[1..] && b == [b[0]] + b[1..];
      assert a < b <==> a[1..] < b[1..];
    } else if a[0] < b[0] {
      assert a[..0] == b[..0];
    }
  }

  lemma ArtifactOrderMeans(a: ArtifactRef, b: ArtifactRef)
    ensures ArtifactPrecedes(a, b) <==> ArtifactBefore(a, b)
  {
    hide Precedes, TextBefore;
    PrecedesMeans(a.scheme, b.scheme);
    PrecedesMeans(a.digest, b.digest);
    NotBeforeItself(a.scheme);
    NotBeforeItself(a.digest);
    if a.name.Some? && b.name.Some? {
      PrecedesMeans(a.name.value, b.name.value);
    }
  }

  lemma {:induction false} NotBeforeItself(a: string)
    ensures !TextBefore(a, a)
  {
    if a != [] {
      NotBeforeItself(a[1..]);
    }
  }

  lemma ArtifactsMean(list: seq<ArtifactRef>)
    ensures ArtifactsInOrder(list) <==> ArtifactsWellFormed(list)
  {
    hide ArtifactPrecedes, ArtifactBefore, ArtifactHolds, ArtifactWellFormed;
    forall a | a in list
      ensures ArtifactHolds(a) <==> ArtifactWellFormed(a)
    {
      ArtifactMeans(a);
    }
    forall i | 0 < i < |list|
      ensures ArtifactPrecedes(list[i - 1], list[i]) <==> ArtifactBefore(list[i - 1], list[i - 1 + 1])
    {
      ArtifactOrderMeans(list[i - 1], list[i]);
    }
    assert forall i :: 0 <= i < |list| ==> list[i] in list;
  }

  lemma SourceMeans(b: SourceBinding)
    ensures SourceHolds(b) <==> SourceWellFormed(b)
  {
    hide Hex, IsLowerHex;
    HexMeans(b.tree);
    if b.commit.Some? {
      HexMeans(b.commit.value);
    }
  }

  // ----- Results, refusals and the rest ----------------------------------------------------------------

  lemma BesideMeans(p: Past, prior: Prior, r: Record, id: Id)
    requires SameNames(p, prior)
    ensures Find(prior, id) == p.Named(id)
    ensures Beside(p, r, id) <==> p.Named(id).Some? && SamePlace(p.Named(id).value, r)
  {
    hide Past.Named;
  }

  lemma WorkMeans(p: Past, s: State, id: Id)
    requires SameWork(p, s) && SameStanding(p, s)
    ensures id in s.openActions <==> p.Open(id)
    ensures id in s.activeRequests <==> p.Active(id)
    ensures id in s.accepted <==> p.Accepted(id)
    ensures Count(s.openActionCount, id) > 0 <==> p.Busy(id)
    ensures Count(s.responseTurns, id) == p.Turns(id)
    ensures id in s.activePlans <==> p.Planned(id)
  {
    hide Past.Active, Past.Open, Past.Busy, Past.Planned, Past.Turns, Past.Accepted, Past.Withdrawn;
  }

  lemma ResultsRuled(rules: Rules, p: Past, prior: Prior, s: State, r: Record)
    requires Reflects(p, prior, s)
    ensures AsFinding(Results(rules, p, r)) == CheckResult(rules, prior, s, r)
  {
    hide Past.Named, Past.Open, SameNames, SameStanding, SameWork, SameKeys, SameApprovals, SameClassApprovals,
         SameCapabilities, ArtifactsInOrder, ArtifactsWellFormed, OnlyNames, SoleCause, Beside, SamePlace;
    if r.data.ResultData? {
      BesideMeans(p, prior, r, r.data.actionId);
      WorkMeans(p, s, r.data.actionId);
      SoleCauseRuled(r, r.data.actionId);
      if r.data.artifacts.Some? {
        ArtifactsMean(r.data.artifacts.value);
      }
    }
  }

  lemma RefusalsRuled(p: Past, prior: Prior, s: State, r: Record)
    requires Reflects(p, prior, s)
    ensures AsFinding(Refusals(p, r)) == CheckRefusal(prior, s, r)
  {
    hide Past.Named, Past.Open, Past.Active, Past.Accepted, SameNames, SameStanding, SameWork, SameKeys, SameApprovals,
         SameClassApprovals, SameCapabilities, OnlyNames, SoleCause, Beside, SamePlace, AcceptedFit;
    if r.data.RefusalData? {
      BesideMeans(p, prior, r, r.data.targetId);
      WorkMeans(p, s, r.data.targetId);
      SoleCauseRuled(r, r.data.targetId);
    }
  }

  lemma UsageRuled(p: Past, prior: Prior, s: State, r: Record)
    requires Reflects(p, prior, s)
    ensures AsFinding(Must(UsageHolds(p, r), InvalidPayload)) == CheckUsage(prior, s, r)
  {
    hide Past.Named, Past.Accepted, SameNames, SameStanding, SameWork, SameKeys, SameApprovals,
         SameClassApprovals, SameCapabilities, OnlyNames, AcceptedFit, Targets, FirstNames, NoneOf, Several;
    if r.data.UsageData? {
      BesideMeans(p, prior, r, r.data.usedRecord);
      BesideMeans(p, prior, r, r.data.consumingRecord);
      WorkMeans(p, s, r.data.consumingRecord);
      TargetsMean(r.refs, Use);
    }
  }

  lemma SummaryRuled(rules: Rules, r: Record)
    ensures AsFinding(Must(SummaryHolds(rules, r), InvalidPayload)) == CheckSummary(rules, r)
  {
    hide OnlyNames, FirstNames, NoneOf, Several, Targets;
    TargetsMean(r.refs, Use);
  }

  lemma ApprovalRuled(r: Record)
    ensures AsFinding(Must(ApprovalHolds(r.data), InvalidPayload)) == CheckApproval(r)
  {
  }

  lemma ResponsesRuled(p: Past, prior: Prior, s: State, r: Record)
    requires Reflects(p, prior, s) && (r.data.ResponseData? ==> r.data.turnIndex <= U32_MAX)
    ensures AsFinding(Responses(p, r)) == CheckResponse(prior, s, r)
  {
    hide Past.Named, Past.Busy, Past.Planned, Past.Turns, LiveBeside, LiveRequest, SameNames, SameStanding, SameWork,
         SameKeys, SameApprovals, SameClassApprovals, SameCapabilities, AcceptedFit;
    if r.data.ResponseData? {
      LiveRuled(p, prior, s, r, r.data.requestId);
      WorkMeans(p, s, r.data.requestId);
    }
  }

  lemma RetractionsRuled(rules: Rules, p: Past, prior: Prior, s: State, r: Record)
    requires Reflects(p, prior, s)
    ensures AsFinding(Retractions(rules, p, r)) == CheckRetraction(rules, prior, s, r)
  {
    hide Past.Named, Past.Accepted, SameNames, SameStanding, SameWork, SameKeys, SameApprovals,
         SameClassApprovals, SameCapabilities, AcceptedFit, OnlyNames, SoleCause;
    if r.data.RetractionData? {
      BesideMeans(p, prior, r, r.data.targetId);
      WorkMeans(p, s, r.data.targetId);
      SoleCauseRuled(r, r.data.targetId);
    }
  }

  // ----- Plans ------------------------------------------------------------------------------------------

  lemma NamesTaskMeans(tasks: seq<PlanTask>, id: string)
    ensures NamesTask(tasks, id) <==> Plans.TaskNamed(tasks, id)
  {
  }

  lemma TasksMean(tasks: seq<PlanTask>)
    ensures TasksHold(tasks) <==> Plans.TasksWellFormed(tasks)
  {
    hide NamesTask, Plans.TaskNamed;
    forall id: string
      ensures NamesTask(tasks, id) <==> Plans.TaskNamed(tasks, id)
    {
      NamesTaskMeans(tasks, id);
    }
    assert forall i :: 0 <= i < |tasks| ==> tasks[i] in tasks;
  }

  lemma StatusMeans(tasks: seq<PlanTask>, status: PlanStatus)
    ensures StatusHolds(tasks, status) <==> Plans.StatusCoherent(tasks, status)
  {
    assert forall i :: 0 <= i < |tasks| ==> tasks[i] in tasks;
  }

  lemma ProducedMeans(p: Past, prior: Prior, s: State, r: Record, t: PlanTask)
    requires r.data.PlanData? && SameNames(p, prior) && SameWork(p, s) && SameStanding(p, s)
    ensures TaskProduced(p, r, t) <==> TaskResultValid(prior, s, r, t)
  {
    hide Past.Named, Past.Accepted, SameNames, SameWork, SameStanding;
    if t.resultRecordId.Some? {
      var x := t.resultRecordId.value;
      BesideMeans(p, prior, r, x);
      WorkMeans(p, s, x);
      if p.Named(x).Some? && p.Named(x).value.data.ResultData? {
        BesideMeans(p, prior, r, p.Named(x).value.data.actionId);
      }
    }
  }

  lemma PlansRuled(p: Past, prior: Prior, s: State, r: Record, cyclic: bool)
    requires Reflects(p, prior, s)
    requires cyclic <==> CarriesCycle(r)
    ensures AsFinding(PlansRuling(p, r)) == CheckPlan(prior, s, r, cyclic)
  {
    hide Past.Named, Past.Accepted, SameNames, SameStanding, SameWork, SameKeys, SameApprovals, LiveRequest, LiveBeside,
         SameClassApprovals, SameCapabilities, AcceptedFit, OnlyNames, FirstNames, NoneOf, Several, Targets,
         TaskProduced, TaskResultValid, StatusHolds, Plans.StatusCoherent, TasksHold, Plans.TasksWellFormed,
         Plans.Cyclic;
    if r.data.PlanData? {
      var d := r.data;
      TargetsMean(r.refs, Cause);
      LiveRuled(p, prior, s, r, d.requestId);
      TasksMean(d.tasks);
      StatusMeans(d.tasks, d.planStatus);
      forall t | t in d.tasks
        ensures TaskProduced(p, r, t) <==> TaskResultValid(prior, s, r, t)
      {
        ProducedMeans(p, prior, s, r, t);
      }
      assert forall i :: 0 <= i < |d.tasks| ==> d.tasks[i] in d.tasks;
    }
  }

  // ----- Candidates ---------------------------------------------------------------------------------------

  lemma NamesMean(p: Past, prior: Prior, s: State, id: Id, k: Kind)
    requires SameNames(p, prior) && SameStanding(p, s)
    ensures NamesAccepted(p, id, k) <==>
      var t := Find(prior, id); t.Some? && t.value.id == id && t.value.kind == k && t.value.id in s.accepted
    ensures Find(prior, id) == p.Named(id) && (p.Named(id).Some? ==> p.Named(id).value.id == id)
    ensures Withdrawn(s, id) <==> p.Withdrawn(id)
  {
    hide Past.Named, Past.Accepted, Past.Withdrawn;
  }

  lemma CandidateMeans(p: Past, prior: Prior, s: State, r: Record, id: Id)
    requires SameNames(p, prior) && SameStanding(p, s)
    ensures NamesCandidate(p, r, id) <==> ResolvesToCandidate(prior, s, r, id)
  {
    hide Past.Named, Past.Accepted, Past.Withdrawn, SameNames, SameStanding, NamesAccepted;
    NamesMean(p, prior, s, id, Candidate);
  }

  /** What the checks know of the causes of a record whose refs resolve. */
  ghost predicate CausesKnown(prior: Prior, r: Record) {
    forall x :: Ref(Cause, x) in r.refs ==> Find(prior, x).Some?
  }

  lemma RootRuled(p: Past, prior: Prior, s: State, r: Record)
    requires SameNames(p, prior) && SameStanding(p, s) && r.data.CandidateData?
    ensures AsFinding(Must(RootHolds(p, r), LineageInvalid)) == CheckRoot(prior, s, r.data, Targets(r.refs, Cause))
  {
    hide SameNames, SameStanding, NamesAccepted, NoneOf, OnlyNames, FirstNames, Several;
    TargetsMean(r.refs, Cause);
    var causes := Targets(r.refs, Cause);
    if |causes| == 1 {
      assert causes == [causes[0]];
      NamesMean(p, prior, s, causes[0], Request);
    }
    forall q: Id | OnlyNames(r.refs, Cause, q)
      ensures causes == [q]
    {
    }
  }

  lemma ContinuationRuled(rules: Rules, p: Past, prior: Prior, s: State, r: Record)
    requires SameNames(p, prior) && SameStanding(p, s) && r.data.CandidateData? && AcceptedFit(p)
    ensures AsFinding(Must(ContinuationHolds(rules, p, r), LineageInvalid))
         == CheckContinuation(rules, prior, s, r.data, Targets(r.refs, Cause))
  {
    hide SameNames, SameStanding, NoneOf, OnlyNames, FirstNames, Several, Past.Named, Past.Accepted, Past.Withdrawn,
         Past.Open;
    TargetsMean(r.refs, Cause);
    var causes := Targets(r.refs, Cause);
    if |causes| == 1 {
      assert causes == [causes[0]];
      NamesMean(p, prior, s, causes[0], Selection);
    }
    forall q: Id | OnlyNames(r.refs, Cause, q)
      ensures causes == [q]
    {
    }
  }

  lemma DerivationRuled(p: Past, prior: Prior, s: State, r: Record)
    requires SameNames(p, prior) && SameStanding(p, s) && r.data.CandidateData?
    ensures AsFinding(Must(DerivationHolds(p, r), LineageInvalid))
        == CheckDerivation(prior, s, r.data, Targets(r.refs, Cause))
  {
    hide SameNames, SameStanding, NamesAccepted, NoneOf, OnlyNames, FirstNames, Several, Past.Named;
    TargetsMean(r.refs, Cause);
    var causes := Targets(r.refs, Cause);
    forall x
      ensures NamesAccepted(p, x, Candidate) || NamesAccepted(p, x, Evaluation) <==> DerivesFrom(prior, s, x)
    {
      NamesMean(p, prior, s, x, Candidate);
      NamesMean(p, prior, s, x, Evaluation);
    }
    hide DerivesFrom;
    assert forall x :: Ref(Cause, x) in r.refs <==> x in causes;
    assert forall i :: 0 <= i < |causes| ==> causes[i] in causes;
  }

  lemma CandidatesRuled(rules: Rules, p: Past, prior: Prior, s: State, r: Record)
    requires Reflects(p, prior, s) && CausesKnown(prior, r)
    ensures AsFinding(Candidates(rules, p, r)) == CheckCandidate(rules, prior, s, r)
  {
    hide SameNames, SameStanding, SameWork, SameKeys, SameApprovals, SameClassApprovals, SameCapabilities, AcceptedFit,
         RootHolds, ContinuationHolds, DerivationHolds, CheckRoot, CheckContinuation, CheckDerivation, Targets,
         SourceHolds, SourceWellFormed, ArtifactsInOrder, ArtifactsWellFormed, NamesCandidate, ResolvesToCandidate,
         Find;
    if r.data.CandidateData? {
      var d := r.data;
      SourceMeans(d.source);
      if d.artifacts.Some? {
        ArtifactsMean(d.artifacts.value);
      }
      if d.parent.Some? {
        CandidateMeans(p, prior, s, r, d.parent.value);
      }
      RootRuled(p, prior, s, r);
      ContinuationRuled(rules, p, prior, s, r);
      DerivationRuled(p, prior, s, r);
      var causes := Targets(r.refs, Cause);
      assert forall i :: 0 <= i < |causes| ==> causes[i] in causes;
    }
  }

  // ----- Evaluations --------------------------------------------------------------------------------------

  lemma JudgesRuled(p: Past, prior: Prior, s: State, r: Record, id: Id)
    requires SameNames(p, prior) && SameStanding(p, s)
    ensures AsFinding(Judges(p, r, id)) == CheckJudged(prior, s, r, id)
  {
    hide SameNames, SameStanding, NamesCandidate, ResolvesToCandidate;
    CandidateMeans(p, prior, s, r, id);
  }

  ghost predicate Ascending(ids: seq<Id>) {
    forall i :: 0 <= i < |ids| - 1 ==> ids[i] < ids[i + 1]
  }

  lemma {:induction false} AscendingPairs(ids: seq<Id>, i: nat, j: nat)
    requires Ascending(ids) && i < j < |ids|
    ensures ids[i] < ids[j]
    decreases j
  {
    if i < j - 1 {
      AscendingPairs(ids, i, j - 1);
    }
    assert ids[j - 1] < ids[j - 1 + 1];
  }

  lemma BindingsMean(p: Past, prior: Prior, s: State, r: Record, ids: seq<Id>)
    requires SameNames(p, prior) && SameStanding(p, s)
    ensures BindingsHold(p, r, ids) <==>
      Ascending(ids) && forall i :: 0 <= i < |ids| ==> BindsRequirement(prior, s, r, ids[i])
  {
    hide SameNames, SameStanding, NamesAccepted, Past.Named;
    forall x | x in ids
      ensures Binds(p, r, x) <==> BindsRequirement(prior, s, r, x)
    {
      NamesMean(p, prior, s, x, Requirement);
    }
    hide BindsRequirement, Binds;
    assert forall i :: 0 <= i < |ids| ==> ids[i] in ids;
    if Ascending(ids) {
      forall i, j | 0 <= i < j < |ids|
        ensures ids[i] < ids[j]
      {
        AscendingPairs(ids, i, j);
      }
    }
  }

  lemma EvaluationsRuled(rules: Rules, p: Past, prior: Prior, s: State, r: Record)
    requires Reflects(p, prior, s) && r.schema in SchemasOf(Evaluation)
    ensures AsFinding(Evaluations(rules, p, r)) == CheckEvaluation(rules, prior, s, r)
  {
    hide SameNames, SameStanding, SameWork, SameKeys, SameApprovals, SameClassApprovals, SameCapabilities, AcceptedFit,
         Judges, CheckJudged, ArtifactsInOrder, ArtifactsWellFormed, BindingsHold, BindsRequirement;
    var d := r.data;
    if d.EvaluationData? || d.EvaluationDataV2? {
      JudgesRuled(p, prior, s, r, d.candidate);
    }
    if d.EvaluationDataV2? {
      ArtifactsMean(d.evidence);
      BindingsMean(p, prior, s, r, d.requirements);
    }
  }

  // ----- Selections -----------------------------------------------------------------------------------------

  lemma CountsMeans(p: Past, prior: Prior, s: State, id: Id)
    requires SameNames(p, prior) && SameStanding(p, s)
    ensures NamesAccepted(p, id, Evaluation) <==> CountsAsEvaluation(prior, s, id)
    ensures Find(prior, id) == p.Named(id)
  {
    hide SameNames, SameStanding, NamesAccepted;
    NamesMean(p, prior, s, id, Evaluation);
  }

  lemma {:induction false} UsedRuled(p: Past, prior: Prior, s: State, considered: seq<Id>, used: seq<Id>)
    requires SameNames(p, prior) && SameStanding(p, s) && AcceptedFit(p)
    ensures CheckUsedEvaluations(prior, s, considered, used) ==
      AsFinding(Must(forall x :: x in used ==> JudgesWithin(p, considered, x), SelectionInvalid))
  {
    hide SameNames, SameStanding, NamesAccepted, Past.Named, Past.Accepted, Past.Open, AcceptedFit;
    if used != [] {
      UsedRuled(p, prior, s, considered, used[1..]);
      CountsMeans(p, prior, s, used[0]);
      if NamesAccepted(p, used[0], Evaluation) {
        EvaluationShaped(p, used[0]);
      }
      assert JudgesWithin(p, considered, used[0]) <==>
        (CountsAsEvaluation(prior, s, used[0]) ==>
          JudgedCandidate(Find(prior, used[0]).value.data).value in considered);
      hide JudgesWithin, CountsAsEvaluation, Find;
      assert used == [used[0]] + used[1..];
    }
  }

  lemma EvaluationShaped(p: Past, id: Id)
    requires AcceptedFit(p) && NamesAccepted(p, id, Evaluation)
    ensures p.Named(id).Some? && var e := p.Named(id).value.data; e.EvaluationData? || e.EvaluationDataV2?
  {
    hide Past.Named, Past.Accepted, Past.Open;
  }

  lemma RepeatsMean(ids: seq<Id>)
    ensures NoRepeats(ids) <==> Distinct(ids)
  {
  }

  lemma WinnersRuled(rules: Rules, p: Past, prior: Prior, s: State, r: Record)
    requires SameNames(p, prior) && SameStanding(p, s) && r.data.SelectionData?
    ensures var winners := SelectedIds(r.data.decision);
            AsFinding(Must(r.data.decision.Selected? ==> WinnersHold(rules, p, r, r.data.considered, winners),
                           SelectionInvalid)) == CheckWinners(rules, prior, s, r)
  {
    hide SameNames, SameStanding, NamesAccepted, Past.Named;
    var winners := SelectedIds(r.data.decision);
    RepeatsMean(winners);
    hide NoRepeats, Distinct;
    forall x: Id
      ensures NamesAccepted(p, x, Evaluation) <==> CountsAsEvaluation(prior, s, x)
      ensures Find(prior, x) == p.Named(x)
      ensures ManifestBound(p, x) <==> BoundToManifest(prior, x)
    {
      CountsMeans(p, prior, s, x);
    }
    hide CountsAsEvaluation, BoundToManifest, ManifestBound, Find;
    assert forall i :: 0 <= i < |winners| ==> winners[i] in winners;
    assert forall x: Id :: x in Targets(r.refs, Use) <==> Ref(Use, x) in r.refs;
  }

  lemma SelectionSubjectMeans(r: Record, actor: string, replaced: Option<Id>, d: Payload)
    ensures IsSubject(r, SelectionSubject(actor, replaced, d)) <==>
              SubjectOf(r) == Some(SelectionSubject(actor, replaced, d))
  {
    hide FirstNames, NoneOf, OnlyNames, Several, Targets;
    TargetsMean(r.refs, Replace);
    var first := FirstTarget(r.refs, Replace);
    assert first == None <==> NoneOf(r.refs, Replace);
    match replaced {
      case None =>
      case Some(y) => assert first == Some(y) <==> FirstNames(r.refs, Replace, y);
    }
  }

  lemma ActionSubjectMeans(r: Record, actor: string, d: Payload)
    ensures IsSubject(r, ActionSubject(actor, d)) <==> SubjectOf(r) == Some(ActionSubject(actor, d))
  {
    hide FirstNames, NoneOf, FirstTarget;
  }

  lemma OtherSubjectMeans(r: Record, hash: nat)
    ensures !IsSubject(r, OtherSubject(hash)) && SubjectOf(r) != Some(OtherSubject(hash))
  {
    hide FirstTarget;
  }

  lemma SubjectMeans(r: Record, x: Subject)
    ensures IsSubject(r, x) <==> SubjectOf(r) == Some(x)
  {
    hide IsSubject, SubjectOf;
    match x {
      case SelectionSubject(actor, replaced, d) => SelectionSubjectMeans(r, actor, replaced, d);
      case ActionSubject(actor, d) => ActionSubjectMeans(r, actor, d);
      case OtherSubject(hash) => OtherSubjectMeans(r, hash);
    }
  }

  lemma ItsApprovalMeans(p: Past, r: Record)
    requires r.kind == Selection && r.data.SelectionData?
    ensures ItsApproval(p, r) ==
      p.ExactApprovalFor(SelectionSubject(r.author.id, FirstTarget(r.refs, Replace), r.data))
  {
    hide IsSubject, Past.ExactApprovalFor, FirstTarget;
    var own := SelectionSubject(r.author.id, FirstTarget(r.refs, Replace), r.data);
    assert SubjectOf(r) == Some(own);
    SubjectMeans(r, own);
    forall x | IsSubject(r, x)
      ensures x == own
    {
      SubjectMeans(r, x);
    }
  }

  /** The Require refs are exactly these ids. */
  ghost predicate RequiresOnly(r: Record, ids: seq<Id>, extra: Option<Id>) {
    forall x :: Ref(Require, x) in r.refs <==> x in ids || extra == Some(x)
  }

  lemma RequiredMean(r: Record, ids: seq<Id>, extra: Option<Id>)
    ensures var winners, required := set x | x in ids, set x | x in Targets(r.refs, Require);
            required == winners + (if extra.Some? then {extra.value} else {}) <==> RequiresOnly(r, ids, extra)
  {
    var winners, required := set x | x in ids, set x | x in Targets(r.refs, Require);
    assert forall y: Id :: y in required <==> Ref(Require, y) in r.refs;
    if RequiresOnly(r, ids, extra) {
      assert required == winners + (if extra.Some? then {extra.value} else {});
    }
  }

  lemma UnapprovedRuled(rules: Rules, p: Past, prior: Prior, s: State, r: Record)
    requires r.data.SelectionData? && !rules.selectionRequiresApproval
    ensures AsFinding(Authorized(rules, p, r, SelectedIds(r.data.decision)))
         == CheckSelectionAuthority(rules, prior, s, r)
  {
    hide Targets, SelectedIds;
    RequiredMean(r, SelectedIds(r.data.decision), None);
    var winners := set x | x in SelectedIds(r.data.decision);
    assert winners + {} == winners;
  }

  lemma ApprovalResolved(p: Past, prior: Prior, s: State, r: Record)
    requires SameApprovals(p, prior, s) && SameStanding(p, s) && r.kind == Selection && r.data.SelectionData?
    ensures var a := ItsApproval(p, r);
      ResolveSelectionApproval(prior, s, r) ==
        if a.None? || !ApprovedAs(p, r, a.value) then Refused(ApprovalMissing)
        else if Expired(a.value.data.expiry, r.time) then Refused(ApprovalExpired)
        else By(a.value.id)
  {
    hide Past.Named, Past.Accepted, Past.Withdrawn, Past.ExactApprovalFor, ItsApproval, FirstTarget;
    ItsApprovalMeans(p, r);
    var x := SelectionSubject(r.author.id, FirstTarget(r.refs, Replace), r.data);
    assert Holds(prior, s, s.validApprovals, x, p.ExactApprovalFor(x));
  }

  lemma AuthorizedRuled(rules: Rules, p: Past, prior: Prior, s: State, r: Record)
    requires Reflects(p, prior, s) && r.kind == Selection && r.data.SelectionData?
    ensures AsFinding(Authorized(rules, p, r, SelectedIds(r.data.decision)))
         == CheckSelectionAuthority(rules, prior, s, r)
  {
    hide SameNames, SameStanding, SameWork, SameKeys, SameApprovals, SameClassApprovals, SameCapabilities, AcceptedFit,
         ItsApproval, ResolveSelectionApproval, SelectedIds, Targets, Past.Withdrawn;
    if rules.selectionRequiresApproval {
      ApprovalResolved(p, prior, s, r);
      var a := ItsApproval(p, r);
      if a.Some? {
        RequiredMean(r, SelectedIds(r.data.decision), Some(a.value.id));
      }
    } else {
      UnapprovedRuled(rules, p, prior, s, r);
    }
  }

  lemma ReaffirmsRuled(rules: Rules, p: Past, prior: Prior, s: State, r: Record)
    requires SameNames(p, prior) && SameStanding(p, s) && AcceptedFit(p) && r.kind == Selection && r.data.SelectionData?
    requires Replacement(p, r).Fine?
    ensures AsFinding(Must(Reaffirms(rules, p, r, r.data.objective), ReaffirmationInvalid))
         == CheckReaffirmation(rules, prior, r)
  {
    hide Past.Named, Past.Accepted, Past.Withdrawn, Past.Open, NoneOf, OnlyNames, FirstNames, Several, SameTerms,
         FitsReplacement;
    TargetsMean(r.refs, Replace);
    var targets := Targets(r.refs, Replace);
    if |targets| == 1 {
      var x := targets[0];
      assert targets == [x];
      assert Ref(Replace, x) in r.refs;
      forall y: Id | Ref(Replace, y) in r.refs
        ensures y == x
      {
        OnlyMember(r.refs, Replace, x, y);
      }
    } else if targets == [] {
      forall y: Id
        ensures Ref(Replace, y) !in r.refs
      {
        NoMember(r.refs, Replace, y);
      }
    }
  }

  lemma SelectionsRuled(rules: Rules, p: Past, prior: Prior, s: State, r: Record)
    requires Reflects(p, prior, s) && r.kind == Selection && Replacement(p, r).Fine?
    ensures AsFinding(Selections(rules, p, r)) == CheckSelection(rules, prior, s, r)
  {
    hide SameNames, SameStanding, SameWork, SameKeys, SameApprovals, SameClassApprovals, SameCapabilities, AcceptedFit,
         Authorized, CheckSelectionAuthority, Reaffirms, CheckReaffirmation, CheckWinners, WinnersHold,
         CheckUsedEvaluations, NoRepeats, Distinct, NamesCandidate, ResolvesToCandidate, Replacement, NamesAccepted,
         Past.Named;
    if r.data.SelectionData? {
      var d := r.data;
      RepeatsMean(d.considered);
      forall x | x in d.considered
        ensures NamesCandidate(p, r, x) <==> ResolvesToCandidate(prior, s, r, x)
      {
        CandidateMeans(p, prior, s, r, x);
      }
      assert forall i :: 0 <= i < |d.considered| ==> d.considered[i] in d.considered;
      UsedRuled(p, prior, s, d.considered, Targets(r.refs, Use));
      assert UsesWhatItConsidered(p, r, d.considered) <==>
        forall x :: x in Targets(r.refs, Use) ==> JudgesWithin(p, d.considered, x);
      hide UsesWhatItConsidered, JudgesWithin;
      WinnersRuled(rules, p, prior, s, r);
      AuthorizedRuled(rules, p, prior, s, r);
      ReaffirmsRuled(rules, p, prior, s, r);
    }
  }

  lemma RequirementsRuled(p: Past, prior: Prior, s: State, r: Record)
    requires Reflects(p, prior, s)
    ensures AsFinding(Requirements(p, r)) == CheckRequirement(prior, s, r)
  {
    hide SameNames, SameStanding, SameWork, SameApprovals, SameClassApprovals, SameCapabilities, AcceptedFit,
         NamesAccepted, Past.Named, Past.KeyTaken, NoneOf, OnlyNames, FirstNames, Several, Beside, SamePlace;
    TargetsMean(r.refs, Cause);
    var causes := Targets(r.refs, Cause);
    if |causes| == 1 {
      assert causes == [causes[0]];
      NamesMean(p, prior, s, causes[0], Request);
      BesideMeans(p, prior, r, causes[0]);
    }
    forall q: Id | OnlyNames(r.refs, Cause, q)
      ensures causes == [q]
    {
    }
  }

  // ----- The whole battery ------------------------------------------------------------------------------------

  lemma KindRuled(rules: Rules, p: Past, prior: Prior, s: State, r: Record)
    requires Reflects(p, prior, s) && CausesKnown(prior, r) && Replacement(p, r).Fine?
    requires r.schema in SchemasOf(r.kind) && DecodesAs(r.schema, r.data)
    ensures AsFinding(ByKind(rules, p, r)) == CheckKind(rules, prior, s, r, CarriesCycle(r))
  {
    hide Reflects, CausesKnown, Replacement, SchemasOf, CarriesCycle,
         Requests, Actions, Responses, Results, SummaryHolds, ApprovalHolds, UsageHolds, Refusals, PlansRuling,
         Retractions, Candidates, Evaluations, Selections, Requirements,
         CheckRequest, CheckAction, CheckResponse, CheckResult, CheckSummary, CheckApproval, CheckUsage, CheckRefusal,
         CheckPlan, CheckRetraction, CheckCandidate, CheckEvaluation, CheckSelection, CheckRequirement;
    match r.kind {
      case Request => RequestsHere(p, prior, s, r);
      case Action => ActionsRuled(p, prior, s, r);
      case Response => ResponsesHere(p, prior, s, r);
      case Result => ResultsRuled(rules, p, prior, s, r);
      case Summary => SummaryRuled(rules, r);
      case Approval => ApprovalRuled(r);
      case Usage => UsageRuled(p, prior, s, r);
      case Refusal => RefusalsRuled(p, prior, s, r);
      case Plan => PlansRuled(p, prior, s, r, CarriesCycle(r));
      case Retraction => RetractionsRuled(rules, p, prior, s, r);
      case Candidate => CandidatesRuled(rules, p, prior, s, r);
      case Evaluation => EvaluationsRuled(rules, p, prior, s, r);
      case Selection => SelectionsRuled(rules, p, prior, s, r);
      case Requirement => RequirementsRuled(p, prior, s, r);
      case _ =>
    }
  }

  lemma RequestsHere(p: Past, prior: Prior, s: State, r: Record)
    requires Reflects(p, prior, s)
    ensures AsFinding(Requests(p, r)) == CheckRequest(prior, s, r)
  {
    hide SameNames, SameStanding, SameWork, SameKeys, SameApprovals, SameClassApprovals, SameCapabilities, AcceptedFit,
         Requests, CheckRequest;
    RequestsRuled(p, prior, s, r);
  }

  lemma ResponsesHere(p: Past, prior: Prior, s: State, r: Record)
    requires Reflects(p, prior, s) && r.schema in SchemasOf(Response) && DecodesAs(r.schema, r.data)
    ensures AsFinding(Responses(p, r)) == CheckResponse(prior, s, r)
  {
    hide Reflects, Responses, CheckResponse;
    ResponsesRuled(p, prior, s, r);
  }

  lemma ResolvedCauses(prior: Prior, s: State, r: Record)
    requires CheckRefs(prior, s, r.space, r.refs).None?
    ensures CausesKnown(prior, r)
  {
    hide CheckRefs;
    forall x | Ref(Cause, x) in r.refs
      ensures Find(prior, x).Some?
    {
      Facts.RefsResolve(prior, s, r.space, r.refs, Ref(Cause, x));
    }
  }

  /** Over any index and state that say what the log says, the battery is the rulebook. */
  lemma BatteryIsRulebook(c: Crypto, rules: Rules, p: Past, prior: Prior, s: State, r: Record)
    requires Reflects(p, prior, s)
    ensures CheckSubject(c, rules, prior, s, r, CarriesCycle(r)) == AsFinding(RulingOn(c, rules, p, r))
  {
    hide Reflects, CausesKnown, Replacement, CarriesCycle, Identity, Authorship, References, Evidenced, ByKind,
         CheckIdentity, CheckAuthor, CheckRefs, CheckReplacement, CheckEvidence, CheckKind, DecodesAs, SchemasFor;
    EnvelopeRuled(c, rules, p, prior, s, r);
    DecodingMeans(r);
    if Identity(c, rules, r).Fine? {
      IdentifiedSchema(c, rules, r);
    }
    if CheckRefs(prior, s, r.space, r.refs).None? {
      ResolvedCauses(prior, s, r);
    }
    if CausesKnown(prior, r) && Replacement(p, r).Fine? && r.schema in SchemasOf(r.kind)
        && DecodesAs(r.schema, r.data) {
      KindRuled(rules, p, prior, s, r);
    }
  }

  lemma EnvelopeRuled(c: Crypto, rules: Rules, p: Past, prior: Prior, s: State, r: Record)
    requires Reflects(p, prior, s)
    ensures AsFinding(Identity(c, rules, r)) == CheckIdentity(c, rules, r)
    ensures AsFinding(Authorship(c, rules, r)) == CheckAuthor(c, rules, r)
    ensures AsFinding(References(p, r.space, r.refs)) == CheckRefs(prior, s, r.space, r.refs)
    ensures AsFinding(Replacement(p, r)) == CheckReplacement(prior, s, r)
    ensures AsFinding(Evidenced(rules, p, r)) == CheckEvidence(rules, prior, s, r)
  {
    hide SameNames, SameStanding, SameWork, SameKeys, SameApprovals, SameClassApprovals, SameCapabilities, AcceptedFit,
         Replacement, Identity, Authorship, References, Evidenced, CheckIdentity, CheckAuthor, CheckRefs,
         CheckReplacement, CheckEvidence;
    IdentityRuled(c, rules, r);
    AuthorshipRuled(c, rules, r);
    ReferencesRuled(p, prior, s, r.space, r.refs);
    ReplacementRuled(p, prior, s, r);
    EvidenceRuled(rules, p, prior, s, r);
  }

  lemma IdentifiedSchema(c: Crypto, rules: Rules, r: Record)
    requires Identity(c, rules, r).Fine?
    ensures r.schema in SchemasOf(r.kind)
  {
    hide InOrder, SchemasOf;
  }
}
