// What stands behind every accepted action and approved selection of a verified log, said
// of the history alone.
module Authority {
  import opened Records
  import opened LedgerState
  import opened Rules
  import opened Checks
  import opened Ledger
  import opened Replay
  import opened Facts
  import opened Histories
  import opened Reachability
  import opened Taint
  import opened Slots
  import opened Approvals

  /** Neither retracted nor resting on anything retracted. */
  ghost predicate Untouched(h: seq<Record>, x: Id) {
    !IsRetracted(h, x) && !RestsOnRetracted(h, x)
  }

  /** The capability in force for an action's actor, class and scope: the latest one, which
      stands, has not expired, does not deny, and is named as authority. */
  ghost predicate GrantedBy(h: seq<Record>, prior: Prior, r: Record, cap: Id)
    requires r.data.ActionData?
  {
    && Latest(h, CapabilityKeyOf, (r.author.id, r.data.actionClass, r.data.scope), cap)
    && Untouched(h, cap) && HasRef(r, Require, cap)
    && cap in prior.byId && prior.byId[cap].data.CapabilityData?
    && !Expired(prior.byId[cap].data.expiry, r.time) && prior.byId[cap].data.mode != Deny
  }

  /** An approval in force for an action: standing, not expired, named as authority, and
      either exact and unspent or of its class. */
  ghost predicate ApprovedBy(h: seq<Record>, prior: Prior, r: Record, approval: Id)
    requires r.data.ActionData?
  {
    && Untouched(h, approval) && HasId(h, approval) && HasRef(r, Require, approval)
    && approval in prior.byId && prior.byId[approval].data.ApprovalData?
    && !Expired(prior.byId[approval].data.expiry, r.time)
    && (|| (Latest(h, ExactSubjectOf, ActionSubject(r.author.id, r.data), approval) && !Spent(h, approval)
            && prior.byId[approval].data.approvedActor == Some(r.author.id)
            && prior.byId[approval].data.scope == r.data.scope)
        || Latest(h, ClassKeyOf, (r.data.actionClass, r.data.scope, Some(r.author.id)), approval)
        || Latest(h, ClassKeyOf, (r.data.actionClass, r.data.scope, None), approval))
  }

  lemma StandsIsUntouched(h: seq<Record>, s: State, x: Id)
    requires s.retracted == Fold(h).retracted && s.tainted == Fold(h).tainted
    ensures !Withdrawn(s, x) <==> Untouched(h, x)
  {
    hide Fold;
    IndexIsExact(h);
    TaintIsExact(h, x);
  }

  /** An approval resolved for an action is one in force. */
  lemma ResolvedIsInForce(prior: Prior, s: State, r: Record, approval: Id)
    requires r.data.ActionData? && ResolveApproval(prior, s, r) == By(approval)
    ensures Usable(s, approval)
    ensures approval in prior.byId && prior.byId[approval].data.ApprovalData?
    ensures !Expired(prior.byId[approval].data.expiry, r.time)
    ensures || (var k := ActionSubject(r.author.id, r.data);
                && k in s.validApprovals && s.validApprovals[k] == approval
                && prior.byId[approval].data.approvedActor == Some(r.author.id)
                && prior.byId[approval].data.scope == r.data.scope)
            || (var k := (r.data.actionClass, r.data.scope, Some(r.author.id));
                k in s.classApprovals && s.classApprovals[k] == approval)
            || (var k := (r.data.actionClass, r.data.scope, None);
                k in s.classApprovals && s.classApprovals[k] == approval)
  {
  }

  lemma CapabilityChecked(prior: Prior, s: State, r: Record)
    requires CheckAction(prior, s, r).None?
    ensures r.data.ActionData?
    ensures var k := (r.author.id, r.data.actionClass, r.data.scope);
            && k in s.activeCapabilities
            && var cap := s.activeCapabilities[k];
            && cap in prior.byId && !Withdrawn(s, cap) && prior.byId[cap].data.CapabilityData?
            && !Expired(prior.byId[cap].data.expiry, r.time) && prior.byId[cap].data.mode != Deny
            && HasRef(r, Require, cap)
            && (prior.byId[cap].data.mode == Ask ==>
                  ResolveApproval(prior, s, r).By? && HasRef(r, Require, ResolveApproval(prior, s, r).approval))
  {
    hide ResolveApproval, LiveRequest, CheckScope;
  }

  /** No action is ever accepted on authority that is retracted, tainted, superseded,
      expired or spent where it is accepted. */
  lemma ActionsAreAuthorized(c: Crypto, rules: Rules, log: seq<Record>, i: nat) returns (cap: Id)
    requires LawfulLog(c, rules, log) && AcceptedAt(log, i) && log[i].kind == Action
    ensures log[i].data.ActionData?
    ensures GrantedBy(AcceptedOf(log[..i]), PriorOf(log[..i]), log[i], cap)
    ensures PriorOf(log[..i]).byId[cap].data.mode == Ask ==>
              exists approval :: ApprovedBy(AcceptedOf(log[..i]), PriorOf(log[..i]), log[i], approval)
  {
    hide Lawful, StateOf, PriorOf, RegimeOf, Fold, GoodStep, CheckAction, Latest, Spent, ResolveApproval, ApprovedBy,
         Untouched, HasId;
    var r, prior, s, h := log[i], PriorOf(log[..i]), StateOf(log[..i]), AcceptedOf(log[..i]);
    AcceptedPassedAt(c, rules, log, i);
    ActionChecked(rules, prior, s, r);
    CapabilityChecked(prior, s, r);
    cap := s.activeCapabilities[(r.author.id, r.data.actionClass, r.data.scope)];
    PrefixVerified(RegimeOf(c, rules), log, i);
    VerifiedIsReachable(c, rules, log[..i]);
    StateIsFold(log[..i]);
    CapabilitiesAreDeclarative(h);
    StandsIsUntouched(h, s, cap);
    if prior.byId[cap].data.mode == Ask {
      var approval := ResolveApproval(prior, s, r).approval;
      ResolvedIsInForce(prior, s, r, approval);
      ApprovalsAreDeclarative(h);
      ClassApprovalsAreDeclarative(h);
      StandsIsUntouched(h, s, approval);
      AcceptedIds(h, approval);
      assert ApprovedBy(h, prior, r, approval) by {
        Unfolds(h, prior, r, approval);
      }
    }
  }

  lemma Unfolds(h: seq<Record>, prior: Prior, r: Record, approval: Id)
    requires r.data.ActionData?
    requires Untouched(h, approval) && HasId(h, approval) && HasRef(r, Require, approval)
    requires approval in prior.byId && prior.byId[approval].data.ApprovalData?
    requires !Expired(prior.byId[approval].data.expiry, r.time)
    requires || (Latest(h, ExactSubjectOf, ActionSubject(r.author.id, r.data), approval) && !Spent(h, approval)
                 && prior.byId[approval].data.approvedActor == Some(r.author.id)
                 && prior.byId[approval].data.scope == r.data.scope)
             || Latest(h, ClassKeyOf, (r.data.actionClass, r.data.scope, Some(r.author.id)), approval)
             || Latest(h, ClassKeyOf, (r.data.actionClass, r.data.scope, None), approval)
    ensures ApprovedBy(h, prior, r, approval)
  {
  }

  lemma ActionChecked(rules: Rules, prior: Prior, s: State, r: Record)
    requires BatteryHolds(rules, prior, s, r)
    ensures r.kind == Action ==> CheckAction(prior, s, r).None?
    ensures r.kind == Selection ==> CheckSelection(rules, prior, s, r).None?
  {
    hide CheckAction, CheckSelection, CheckReplacement, CheckRefs, ExpectedEvidence, DecodesAs, CarriesCycle;
  }

  // ----- The exact path always consumes ----------------------------------------------------------

  /** The capability in force for an action asks for an approval. */
  predicate Asks(prior: Prior, s: State, r: Record)
    requires r.data.ActionData?
  {
    var k := (r.author.id, r.data.actionClass, r.data.scope);
    && k in s.activeCapabilities && s.activeCapabilities[k] in prior.byId
    && prior.byId[s.activeCapabilities[k]].data.CapabilityData?
    && prior.byId[s.activeCapabilities[k]].data.mode == Ask
  }

  /** An ask-mode action whose approval was found by its exact subject uses it up. */
  lemma ExactActionConsumes(prior: Prior, s: State, r: Record, x: Id)
    requires r.kind == Action && CheckAction(prior, s, r).None?
    requires r.data.ActionData? && Asks(prior, s, r) && ExactApproval(prior, s, r) == Some(By(x))
    ensures Consumes(s.validApprovals, r) == Some(x)
  {
    CapabilityChecked(prior, s, r);
    hide CheckAction, ClassApproval, Targets;
  }

  /** So does a selection accepted under rules that demand approval. */
  lemma ApprovedSelectionConsumes(rules: Rules, prior: Prior, s: State, r: Record)
    requires r.kind == Selection && CheckSelection(rules, prior, s, r).None? && rules.selectionRequiresApproval
    ensures r.data.SelectionData? && ResolveSelectionApproval(prior, s, r).By?
    ensures Consumes(s.validApprovals, r) == Some(ResolveSelectionApproval(prior, s, r).approval)
  {
    hide CheckUsedEvaluations, CheckWinners, CheckReaffirmation, ResolvesToCandidate, Distinct, Targets;
  }

  // ----- Over a verified log -----------------------------------------------------------------------

  /** Position `i` was accepted on an exact approval: an action that had to ask and found
      one for its very subject, or a selection under rules that demand one. */
  ghost predicate ExactlyApproved(rules: Rules, log: seq<Record>, i: nat, x: Id) {
    && AcceptedAt(log, i)
    && var r, prior, s := log[i], PriorOf(log[..i]), StateOf(log[..i]);
       || (r.kind == Action && r.data.ActionData? && Asks(prior, s, r) && ExactApproval(prior, s, r) == Some(By(x)))
       || (r.kind == Selection && r.data.SelectionData? && rules.selectionRequiresApproval
           && ResolveSelectionApproval(prior, s, r) == By(x))
  }

  lemma ExactlyApprovedAt(rules: Rules, log: seq<Record>, i: nat, x: Id)
    requires ExactlyApproved(rules, log, i, x)
    ensures AcceptedAt(log, i)
  {
    hide StateOf, PriorOf;
  }

  /** Such a record consumed the approval where it was accepted. */
  lemma ExactlyApprovedConsumes(c: Crypto, rules: Rules, log: seq<Record>, i: nat, x: Id)
    requires LawfulLog(c, rules, log) && ExactlyApproved(rules, log, i, x)
    ensures Consumes(StateOf(log[..i]).validApprovals, log[i]) == Some(x)
  {
    hide Lawful, StateOf, PriorOf, RegimeOf, CheckAction, CheckSelection, Consumes, ExactApproval, Asks,
         ResolveSelectionApproval;
    var r, prior, s := log[i], PriorOf(log[..i]), StateOf(log[..i]);
    AcceptedPassedAt(c, rules, log, i);
    ActionChecked(rules, prior, s, r);
    if r.kind == Action {
      ExactActionConsumes(prior, s, r, x);
    } else {
      ApprovedSelectionConsumes(rules, prior, s, r);
    }
  }

  /** Where in the history of accepted records a position of the log is. */
  lemma ConsumedInHistory(c: Crypto, rules: Rules, log: seq<Record>, i: nat, x: Id)
    requires LawfulLog(c, rules, log) && ExactlyApproved(rules, log, i, x)
    ensures ConsumedAt(AcceptedOf(log), x, |AcceptedOf(log[..i])|)
  {
    hide Lawful, StateOf, PriorOf, RegimeOf, Consumes, ExactlyApproved, AcceptedOf, Fold;
    VerifiedIsPaired(RegimeOf(c, rules), log);
    ExactlyApprovedAt(rules, log, i, x);
    ExactlyApprovedConsumes(c, rules, log, i, x);
    HistoryAt(log, i);
    StateIsFold(log[..i]);
  }

  /** An exact approval that authorized a record is spent from then on: it is in force for
      no subject at any later point of the log. */
  lemma ExactApprovalIsSpent(c: Crypto, rules: Rules, log: seq<Record>, i: nat, x: Id, j: nat, k: Subject)
    requires LawfulLog(c, rules, log) && ExactlyApproved(rules, log, i, x)
    requires i < j <= |log| && j % 2 == 0
    ensures Spent(AcceptedOf(log[..j]), x)
    ensures k in StateOf(log[..j]).validApprovals ==> StateOf(log[..j]).validApprovals[k] != x
  {
    hide Lawful, StateOf, PriorOf, RegimeOf, ExactlyApproved, AcceptedOf, Fold, Reachable, ConsumedAt, SpentAt;
    VerifiedIsPaired(RegimeOf(c, rules), log);
    VerifiedIsReachable(c, rules, log);
    var h, at, m := AcceptedOf(log), |AcceptedOf(log[..i])|, |AcceptedOf(log[..j])|;
    ExactlyApprovedAt(rules, log, i, x);
    ConsumedInHistory(c, rules, log, i, x);
    HistoryAt(log, i);
    HistoryPrefix(log, i, j);
    HistoryPrefix(log, j, |log|);
    assert log[..|log|] == log && h[..m] == AcceptedOf(log[..j]);
    ConsumedIsSpent(h, x, at);
    SpentStays(h, x, at, m);
    UsedNeverReturns(h, x, at, m, k);
    StateIsFold(log[..j]);
  }

  /** No exact approval ever authorizes two accepted records of one verified log. */
  lemma ExactApprovalsAuthorizeOnce(c: Crypto, rules: Rules, log: seq<Record>, i: nat, j: nat, x: Id)
    requires LawfulLog(c, rules, log)
    requires ExactlyApproved(rules, log, i, x) && ExactlyApproved(rules, log, j, x)
    ensures i == j
  {
    hide Lawful, StateOf, PriorOf, RegimeOf, ExactlyApproved, AcceptedOf, Fold, Reachable, ConsumedAt;
    VerifiedIsPaired(RegimeOf(c, rules), log);
    VerifiedIsReachable(c, rules, log);
    ConsumedInHistory(c, rules, log, i, x);
    ConsumedInHistory(c, rules, log, j, x);
    ExactlyApprovedAt(rules, log, i, x);
    ExactlyApprovedAt(rules, log, j, x);
    ApprovalsAreSingleUse(AcceptedOf(log), x, |AcceptedOf(log[..i])|, |AcceptedOf(log[..j])|);
    if i < j {
      HistoryPrefix(log, i, j);
    } else if j < i {
      HistoryPrefix(log, j, i);
    }
  }
}
