// The full state build: one pass collects verdicts by subject, a second folds subjects
// in log order. On paired logs it is the pair-by-pair fold.
module Build {
  import opened Records
  import opened LedgerState
  import opened LiveStates
  import opened Rules
  import opened Checks
  import opened Ledger
  import opened Replay

  /** The verdict map after the first `n` records: a later verdict overwrites. */
  function VerdictMap(records: seq<Record>, n: nat): map<Id, Judgment>
    requires n <= |records|
  {
    if n == 0 then map[]
    else
      var m, r := VerdictMap(records, n - 1), records[n - 1];
      if r.kind == Verdict && FirstTarget(r.refs, Cause).Some?
      then m[FirstTarget(r.refs, Cause).value := JudgmentOf(r)] else m
  }

  /** The second pass over the first `n` records. */
  ghost function FoldWith(verdicts: map<Id, Judgment>, records: seq<Record>, n: nat): State
    requires n <= |records|
  {
    if n == 0 then EMPTY_STATE
    else
      var s, r := FoldWith(verdicts, records, n - 1), records[n - 1];
      if r.kind == Verdict || r.id !in verdicts then s else ApplyJudged(s, r, verdicts[r.id])
  }

  ghost function Built(records: seq<Record>): State {
    FoldWith(VerdictMap(records, |records|), records, |records|).(appliedUpTo := LastTime(records))
  }

  /** Every payload the build decodes does decode. */
  ghost predicate Decodable(records: seq<Record>) {
    forall i :: 0 <= i < |records| ==>
      && VerdictDecodes(records[i])
      && AcceptedDecodes(VerdictMap(records, |records|), records[i])
  }

  predicate VerdictDecodes(r: Record) {
    (r.kind == Verdict && FirstTarget(r.refs, Cause).Some?) ==> r.data.VerdictData?
  }

  predicate AcceptedDecodes(verdicts: map<Id, Judgment>, r: Record) {
    (r.kind != Verdict && r.id in verdicts && verdicts[r.id].Accept?) ==> FitsKind(r.kind, r.data)
  }

  /** `build_state_unchecked`: trusts the stored verdicts, fails only on undecodable payloads. */
  method BuildState(records: seq<Record>) returns (ok: bool, state: LiveState)
    ensures fresh(state)
    ensures ok <==> Decodable(records)
    ensures ok ==> state.Now() == Built(records)
  {
    hide Apply;
    state := new LiveState();
    var verdicts: map<Id, Judgment> := map[];
    var i := 0;
    while i < |records|
      invariant 0 <= i <= |records|
      invariant verdicts == VerdictMap(records, i)
      invariant forall k :: 0 <= k < i ==> VerdictDecodes(records[k])
    {
      var r := records[i];
      if r.kind == Verdict {
        var subject := FirstTarget(r.refs, Cause);
        if subject.Some? {
          if !r.data.VerdictData? {
            return false, state;
          }
          verdicts := verdicts[subject.value := r.data.judgment];
        }
      }
      i := i + 1;
    }
    i := 0;
    while i < |records|
      invariant 0 <= i <= |records|
      invariant state.Now() == FoldWith(verdicts, records, i)
      invariant forall k :: 0 <= k < i ==> AcceptedDecodes(verdicts, records[k])
    {
      var r := records[i];
      if r.kind != Verdict && r.id in verdicts {
        var fits := state.ApplyRecord(r, verdicts[r.id]);
        if !fits {
          return false, state;
        }
      }
      i := i + 1;
    }
    state.AdvanceTo(LastTime(records));
    return true, state;
  }

  // ----- On paired logs the two passes are one ------------------------------------------

  /** Subjects at even positions, each followed by the verdict that names it. */
  ghost predicate Paired(log: seq<Record>) {
    && |log| % 2 == 0
    && UniqueIds(log)
    && forall i :: 0 <= i < |log| ==> InPlace(log, i)
  }

  predicate InPlace(log: seq<Record>, i: nat)
    requires i < |log|
  {
    if i % 2 == 0 then log[i].kind != Verdict
    else log[i].kind == Verdict && log[i].refs == [Ref(Cause, log[i - 1].id)]
  }

  lemma CauseOf(v: Record, id: Id)
    requires v.refs == [Ref(Cause, id)]
    ensures FirstTarget(v.refs, Cause) == Some(id)
  {
    assert v.refs[1..] == [];
  }

  /** The map sends each subject to the judgment right after it, and nothing else. */
  lemma {:induction false} MapPairs(log: seq<Record>, n: nat, i: nat)
    requires Paired(log) && n <= |log| && i < |log| && i % 2 == 0
    ensures log[i].id in VerdictMap(log, n) <==> i + 1 < n
    ensures i + 1 < n ==> VerdictMap(log, n)[log[i].id] == JudgmentOf(log[i + 1])
  {
    if n > 0 {
      MapPairs(log, n - 1, i);
      assert InPlace(log, n - 1);
      if (n - 1) % 2 == 1 {
        CauseOf(log[n - 1], log[n - 2].id);
        if i != n - 2 {
          assert log[i].id != log[n - 2].id;
        }
      }
    }
  }

  /** Folding with the whole map over a prefix of pairs is folding the pairs. */
  lemma {:induction false} PassesAgree(log: seq<Record>, n: nat)
    requires Paired(log) && n <= |log| && n % 2 == 0
    ensures FoldWith(VerdictMap(log, |log|), log, n).(appliedUpTo := LastTime(log[..n])) == StateOf(log[..n])
  {
    hide Apply, VerdictMap, UniqueIds, FoldWith, StateOf, LastTime, Paired;
    var verdicts := VerdictMap(log, |log|);
    if n > 0 {
      PassesAgree(log, n - 2);
      FoldsPair(log, n - 2);
      StateAt(log, n - 2);
      ClockRidesAlong(FoldWith(verdicts, log, n - 2), log[n - 2], LastTime(log[..n - 2]));
      LastOfPair(log, n);
    } else {
      NothingFolded(verdicts, log);
    }
  }

  lemma LastOfPair(log: seq<Record>, n: nat)
    requires 0 < n <= |log|
    ensures LastTime(log[..n]) == log[n - 1].time
  {
  }

  lemma NothingFolded(verdicts: map<Id, Judgment>, log: seq<Record>)
    ensures FoldWith(verdicts, log, 0).(appliedUpTo := LastTime(log[..0])) == StateOf(log[..0])
  {
  }

  /** The second pass over one pair applies its subject under its verdict. */
  lemma FoldsPair(log: seq<Record>, n: nat)
    requires Paired(log) && n + 2 <= |log| && n % 2 == 0
    ensures var verdicts := VerdictMap(log, |log|);
            FoldWith(verdicts, log, n + 2) == ApplyJudged(FoldWith(verdicts, log, n), log[n], JudgmentOf(log[n + 1]))
  {
    hide Apply, VerdictMap, UniqueIds;
    MapPairs(log, |log|, n);
    assert InPlace(log, n + 1) && InPlace(log, n);
  }

  /** Full and incremental state agree on every paired log with unique ids. */
  lemma BuildIsFold(log: seq<Record>)
    requires Paired(log)
    ensures Built(log) == StateOf(log)
  {
    PassesAgree(log, |log|);
    assert log[..|log|] == log;
  }

  lemma LawfulIsPaired(reg: Regime, log: seq<Record>)
    requires Collisionless(reg.crypto) && Lawful(reg, log)
    ensures Paired(log)
  {
    hide Lawful, StateOf;
    VerifiedIsPaired(reg, log);
    IdsAreUnique(reg, log);
    forall i | 0 <= i < |log|
      ensures InPlace(log, i)
    {
      PositionFacts(reg, log, i);
    }
  }

  lemma AcceptedFits(c: Crypto, rules: Rules, p: Prior, s: State, r: Record)
    requires Judge(c, rules, p, s, r).Accept? && r.kind != Verdict
    ensures FitsKind(r.kind, r.data)
  {
    hide CheckKind, CheckAuthor, CheckRefs, CheckReplacement, CheckEvidence, CarriesCycle, ComputeId, Refs.StrictlySorted;
  }

  /** A log that replays builds, and builds the very state replay ends in. */
  lemma ReplayedLogBuilds(c: Crypto, rules: Rules, log: seq<Record>)
    requires Collisionless(c) && Lawful(RegimeOf(c, rules), log)
    ensures Decodable(log) && Built(log) == StateOf(log)
  {
    hide Lawful, StateOf, Judge, PriorOf;
    var reg := RegimeOf(c, rules);
    LawfulIsPaired(reg, log);
    BuildIsFold(log);
    forall i | 0 <= i < |log|
      ensures VerdictDecodes(log[i]) && AcceptedDecodes(VerdictMap(log, |log|), log[i])
    {
      PositionDecodes(c, rules, log, i);
    }
  }

  lemma PositionDecodes(c: Crypto, rules: Rules, log: seq<Record>, i: nat)
    requires Lawful(RegimeOf(c, rules), log) && Paired(log) && i < |log|
    ensures VerdictDecodes(log[i]) && AcceptedDecodes(VerdictMap(log, |log|), log[i])
  {
    hide Lawful, StateOf, Judge, PriorOf;
    PositionFacts(RegimeOf(c, rules), log, i);
    if i % 2 == 0 {
      MapPairs(log, |log|, i);
      if JudgmentOf(log[i + 1]).Accept? {
        AcceptedPassed(RegimeOf(c, rules), log, i);
        AcceptedFits(c, rules, PriorOf(log[..i]), StateOf(log[..i]), log[i]);
      }
    }
  }

  /** `verify_and_build_state`: the safe way to a state from records you did not commit. */
  method VerifyAndBuildState(c: Crypto, rules: Rules, records: seq<Record>) returns (reason: Option<ReasonCode>, state: LiveState)
    requires Collisionless(c)
    ensures fresh(state)
    ensures reason.None? <==> Lawful(RegimeOf(c, rules), records)
    ensures reason.None? ==> state.Now() == StateOf(records)
  {
    hide Lawful, StateOf, Decodable, Built;
    var verdict, replayed := VerifyLog(c, rules, records);
    if verdict.reason.Some? {
      return verdict.reason, replayed;
    }
    ReplayedLogBuilds(c, rules, records);
    var ok, built := BuildState(records);
    return if ok then None else Some(InvalidPayload), built;
  }
}
