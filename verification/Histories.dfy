// The accepted records of a verified log, and what one more pair does to the state.
module Histories {
  import opened Records
  import opened LedgerState
  import opened Rules
  import opened Checks
  import opened Ledger
  import opened Replay
  import opened Facts
  import opened Taint

  /** The accepted records are the subjects whose verdict accepts. */
  lemma {:induction false} HistoryMember(log: seq<Record>, r: Record)
    requires |log| % 2 == 0
    ensures r in AcceptedOf(log) <==> exists i: nat :: AcceptedAt(log, i) && log[i] == r
  {
    hide AcceptedOf, AcceptedAt;
    if log != [] {
      HistoryMember(log[..|log| - 2], r);
      HistoryStep(log, r);
      AcceptedStep(log, r);
    } else {
      NoHistory(log);
    }
  }

  lemma HistoryStep(log: seq<Record>, r: Record)
    requires |log| >= 2
    ensures r in AcceptedOf(log) <==>
      r in AcceptedOf(log[..|log| - 2]) || (JudgmentOf(log[|log| - 1]).Accept? && r == log[|log| - 2])
  {
    hide JudgmentOf;
  }

  lemma AcceptedStep(log: seq<Record>, r: Record)
    requires |log| >= 2 && |log| % 2 == 0
    ensures var n, g := |log| - 2, log[..|log| - 2];
            (exists i: nat :: AcceptedAt(log, i) && log[i] == r) <==>
              || (exists i: nat :: AcceptedAt(g, i) && g[i] == r)
              || (JudgmentOf(log[n + 1]).Accept? && r == log[n])
  {
    hide JudgmentOf;
    var n, g := |log| - 2, log[..|log| - 2];
    if i: nat :| AcceptedAt(g, i) && g[i] == r {
      assert AcceptedAt(log, i) && log[i] == r;
    }
    if i: nat :| AcceptedAt(log, i) && log[i] == r {
      if i < n {
        assert AcceptedAt(g, i) && g[i] == r;
      }
    }
    if JudgmentOf(log[n + 1]).Accept? {
      assert AcceptedAt(log, n);
    }
  }

  lemma NoHistory(log: seq<Record>)
    requires log == []
    ensures AcceptedOf(log) == [] && !exists i: nat :: AcceptedAt(log, i)
  {
  }

  /** The history up to a point of the log, later on: one record longer past each accepted
      subject. */
  lemma {:induction false} HistoryPrefix(log: seq<Record>, i: nat, j: nat)
    requires i <= j <= |log| && i % 2 == 0 && j % 2 == 0
    ensures AcceptedOf(log[..i]) <= AcceptedOf(log[..j])
    ensures AcceptedAt(log, i) && i < j ==> AcceptedOf(log[..i]) + [log[i]] <= AcceptedOf(log[..j])
    decreases j - i
  {
    if i < j {
      var g := log[..j];
      HistoryPrefix(log, i, j - 2);
      assert g[..j - 2] == log[..j - 2] && g[j - 2] == log[j - 2] && g[j - 1] == log[j - 1];
    }
  }

  /** Where an accepted subject is in the history. */
  lemma HistoryAt(log: seq<Record>, i: nat)
    requires |log| % 2 == 0 && AcceptedAt(log, i)
    ensures var h, k := AcceptedOf(log), |AcceptedOf(log[..i])|;
            k < |h| && h[k] == log[i] && h[..k] == AcceptedOf(log[..i])
  {
    hide AcceptedOf;
    HistoryPrefix(log, i, |log|);
    assert log[..|log|] == log;
    var g := AcceptedOf(log[..i]) + [log[i]];
    assert g[..|g| - 1] == AcceptedOf(log[..i]);
  }

  /** What the next pair must be. */
  lemma NextPair(c: Crypto, rules: Rules, log: seq<Record>, s: Record, v: Record)
    requires LawfulLog(c, rules, log + [s, v])
    ensures LawfulLog(c, rules, log) && |log| % 2 == 0
    ensures PairOk(RegimeOf(c, rules), log, s, v)
    ensures s.id !in PriorOf(log).byId && s.id !in StateOf(log).accepted && s.kind != Verdict
    ensures JudgmentOf(v).Accept? ==> BatteryHolds(rules, PriorOf(log), StateOf(log), s) && s.space == rules.space
  {
    hide Lawful, StateOf, PriorOf, Judge, BatteryHolds;
    PairAppends(RegimeOf(c, rules), log, s, v);
    VerifiedIsPaired(RegimeOf(c, rules), log);
    NextIsFresh(RegimeOf(c, rules), log, s);
    if s.id in StateOf(log).accepted {
      AcceptedIsPrior(RegimeOf(c, rules), log, s.id);
    }
    if JudgmentOf(v).Accept? {
      BatteryPassed(c, rules, PriorOf(log), StateOf(log), s);
    }
  }

  /** Every ref of an accepted record names a record before it. */
  lemma TargetsArePrior(rules: Rules, prior: Prior, s: State, r: Record, t: Id)
    requires BatteryHolds(rules, prior, s, r) && t in EpistemicTargets(r)
    ensures t in prior.byId
  {
    hide CheckKind, CheckReplacement, ExpectedEvidence, CheckRefs;
    var i :| 0 <= i < |r.refs| && Epistemic(r.refs[i].kind) && r.refs[i].target == t;
    RefsResolve(prior, s, r.space, r.refs, r.refs[i]);
  }

  /** Nothing rests on a record that is not there yet. */
  lemma NothingRestsOnNew(c: Crypto, rules: Rules, log: seq<Record>, s: Record, v: Record)
    requires LawfulLog(c, rules, log + [s, v]) && JudgmentOf(v).Accept?
    ensures Members(DependentsAfter(StateOf(log).dependents, s), s.id) == {}
  {
    hide Lawful, StateOf, PriorOf, RegimeOf, BatteryHolds, Fold;
    NextPair(c, rules, log, s, v);
    StateIsFold(log);
    var h := AcceptedOf(log);
    IndexIsExact(h);
    forall y
      ensures y !in Members(DependentsAfter(StateOf(log).dependents, s), s.id)
    {
      if s.id in EpistemicTargets(s) {
        TargetsArePrior(rules, PriorOf(log), StateOf(log), s, s.id);
      }
      if Rests(h, y, s.id) {
        OldTargetsAreOld(c, rules, log, y, s.id);
      }
    }
  }

  lemma OldTargetsAreOld(c: Crypto, rules: Rules, log: seq<Record>, y: Id, t: Id)
    requires LawfulLog(c, rules, log) && |log| % 2 == 0 && Rests(AcceptedOf(log), y, t)
    ensures t in PriorOf(log).byId
  {
    hide Lawful, StateOf, PriorOf, RegimeOf, BatteryHolds;
    var h := AcceptedOf(log);
    var k :| 0 <= k < |h| && h[k].id == y && t in EpistemicTargets(h[k]);
    HistoryMember(log, h[k]);
    var i: nat :| AcceptedAt(log, i) && log[i] == h[k];
    AcceptedPassedAt(c, rules, log, i);
    TargetsArePrior(rules, PriorOf(log[..i]), StateOf(log[..i]), log[i], t);
    var j := PriorIsEarlier(c, rules, log, i, t);
    PriorFindsFirst(log, t);
  }

  lemma LoneSpread(dep: map<Id, set<Id>>, blocked: set<Id>, id: Id)
    requires Members(dep, id) == {}
    ensures Spread(dep, blocked, {id}) <= {id}
  {
    forall x | x in Spread(dep, blocked, {id})
      ensures x == id
    {
      SpreadMember(dep, blocked, {id}, x);
      var p :| SpreadWalk(dep, blocked, p) && p[0] in {id} && p[|p| - 1] == x;
      LoneWalk(dep, blocked, p, id);
    }
  }

  lemma LoneWalk(dep: map<Id, set<Id>>, blocked: set<Id>, p: seq<Id>, id: Id)
    requires SpreadWalk(dep, blocked, p) && p[0] == id
    ensures |p| > 1 ==> p[1] in Members(dep, id)
  {
    if |p| > 1 {
      assert p[0 + 1] in Members(dep, p[0]);
    }
  }

  /** A record that is not a retraction taints at most itself. */
  lemma OnlyRetractionsTaint(c: Crypto, rules: Rules, log: seq<Record>, s: Record, v: Record)
    requires LawfulLog(c, rules, log + [s, v])
    ensures s.kind != Retraction || JudgmentOf(v).Reject? ==>
      && StateOf(log + [s, v]).retracted == StateOf(log).retracted
      && StateOf(log + [s, v]).tainted <= StateOf(log).tainted + {s.id}
  {
    hide Lawful, StateOf, PriorOf, RegimeOf, BatteryHolds;
    NextPair(c, rules, log, s, v);
    PairAppends(RegimeOf(c, rules), log, s, v);
    if JudgmentOf(v).Accept? {
      NothingRestsOnNew(c, rules, log, s, v);
      LoneSpread(DependentsAfter(StateOf(log).dependents, s), StateOf(log).tainted, s.id);
    }
  }
}
