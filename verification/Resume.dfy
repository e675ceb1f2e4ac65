// Replay accelerated by a trusted checkpoint: the fast form and replay from genesis agree.
module Resume {
  import opened Records
  import opened LedgerState
  import opened LiveStates
  import opened Rules
  import opened Ledger
  import opened Replay
  import opened Build
  import opened Batches

  function IdsOf(records: seq<Record>): (ids: seq<Id>)
    ensures |ids| == |records| && forall i :: 0 <= i < |records| ==> ids[i] == records[i].id
  {
    seq(|records|, i requires 0 <= i < |records| => records[i].id)
  }

  /** A summary of a log prefix. The two hashes are represented by what they are taken of:
      the ids of the prefix, and the state it folds to. */
  datatype Checkpoint = Checkpoint(logLength: nat, lastTime: nat, lastId: Id, logHash: seq<Id>, stateHash: State)

  /** A checkpoint bound to the rules its prefix passed under. */
  datatype Trusted = Trusted(checkpoint: Checkpoint, rules: Rules)

  function CheckpointOf(records: seq<Record>, s: State): Checkpoint {
    Checkpoint(|records|, LastTime(records), HeadOf(records), IdsOf(records), s)
  }

  /** The assertion a trusted checkpoint stands for: some log with its rules replayed, and
      this is the summary of that log. */
  ghost predicate Attests(c: Crypto, t: Trusted, log: seq<Record>) {
    Lawful(RegimeOf(c, t.rules), log) && t.checkpoint == CheckpointOf(log, StateOf(log))
  }

  /** The safe way to such a checkpoint: replay in full first. */
  method TrustVerified(c: Crypto, rules: Rules, records: seq<Record>) returns (t: Option<Trusted>)
    requires Collisionless(c)
    ensures t.Some? <==> Lawful(RegimeOf(c, rules), records)
    ensures t.Some? ==> t.value.rules == rules && Attests(c, t.value, records)
  {
    hide Lawful, StateOf, RegimeOf;
    var reason, state := VerifyAndBuildState(c, rules, records);
    if reason.Some? {
      return None;
    }
    return Some(Trusted(CheckpointOf(records, state.Now()), rules));
  }

  /** The checkpoint is about a prefix of these records, going by ids. */
  predicate Covers(t: Trusted, records: seq<Record>) {
    && t.checkpoint.logLength <= |records|
    && IdsOf(records[..t.checkpoint.logLength]) == t.checkpoint.logHash
  }

  /** Equal addresses are equal records, so a covered prefix whose content matches its ids
      is the attested log. */
  lemma CoveredPrefix(c: Crypto, t: Trusted, log: seq<Record>, records: seq<Record>)
    requires Collisionless(c) && Attests(c, t, log) && Covers(t, records) && Addressed(c, records)
    ensures records[..t.checkpoint.logLength] == log
  {
    hide Lawful, StateOf, RegimeOf;
    var n := t.checkpoint.logLength;
    assert |IdsOf(records[..n])| == |IdsOf(log)|;
    RegimeHolds(c, t.rules);
    forall i | 0 <= i < n
      ensures records[..n][i] == log[i]
    {
      assert IdsOf(records[..n])[i] == IdsOf(log)[i];
      PositionFacts(RegimeOf(c, t.rules), log, i);
      SameAddress(c, records[i], log[i]);
    }
  }

  lemma SameAddress(c: Crypto, a: Record, b: Record)
    requires Collisionless(c) && a.id == b.id && ComputeId(c, a) == a.id && ComputeId(c, b) == b.id
    ensures a == b
  {
    assert a.(id := 0) == b.(id := 0);
    assert a == a.(id := 0).(id := a.id) && b == b.(id := 0).(id := b.id);
  }

  /** What a lawful log covered by the checkpoint looks like at the resume point. */
  lemma LawfulResumes(c: Crypto, t: Trusted, log: seq<Record>, records: seq<Record>)
    requires Collisionless(c) && Attests(c, t, log) && Covers(t, records)
    requires Lawful(RegimeOf(c, t.rules), records)
    ensures var n := t.checkpoint.logLength;
            && records[..n] == log && Decodable(log) && Built(log) == StateOf(log)
            && StartsPair(records, n)
  {
    hide Lawful, StateOf, RegimeOf, Built, Decodable, Covers;
    RegimeHolds(c, t.rules);
    VerifiedTimes(RegimeOf(c, t.rules), records);
    CoveredPrefix(c, t, log, records);
    ReplayedLogBuilds(c, t.rules, log);
    VerifiedIsPaired(RegimeOf(c, t.rules), log);
    if t.checkpoint.logLength < |records| {
      PositionFacts(RegimeOf(c, t.rules), records, t.checkpoint.logLength);
    }
  }

  lemma PrefixReplayed(c: Crypto, t: Trusted, log: seq<Record>, records: seq<Record>, now: State)
    requires Collisionless(c) && Attests(c, t, log) && Covers(t, records) && Addressed(c, records)
    requires now == t.checkpoint.stateHash
    ensures var n := t.checkpoint.logLength;
            ReplayedTo(c, t.rules, records, n, PriorOf(records[..n]), now)
  {
    hide Lawful, StateOf, RegimeOf, PriorOf, Covers;
    CoveredFits(t, records);
    CoveredPrefix(c, t, log, records);
    VerifiedIsPaired(RegimeOf(c, t.rules), log);
  }

  /** The checkpoint against the records: same rules, a covered prefix that ends between
      pairs, and every field the one that prefix gives. Yields the rebuilt state. */
  method Rebuild(c: Crypto, rules: Rules, t: Trusted, records: seq<Record>, ghost log: seq<Record>)
    returns (reason: Option<ReasonCode>, state: LiveState)
    requires Collisionless(c) && Attests(c, t, log)
    ensures fresh(state)
    ensures reason.None? ==> rules == t.rules && Covers(t, records) && state.Now() == t.checkpoint.stateHash
    ensures rules == t.rules && log <= records && StartsPair(records, |log|) ==> reason.None?
  {
    hide Lawful, StateOf, RegimeOf, Built, Decodable, Covers, Attests, IdsOf, LiveState.Now;
    state := new LiveState();
    var n := t.checkpoint.logLength;
    AttestedLength(c, t, log);
    ExtensionIsCovered(c, t, log, records);
    if rules != t.rules || !Covers(t, records) {
      return Some(InvalidCheckpoint), state;
    }
    CoveredFits(t, records);
    AttestedBuilds(c, t, log, records);
    PrefixEnds(c, t, log, records);
    if !StartsPair(records, n) {
      return Some(InvalidCheckpoint), state;
    }
    var ok, built := BuildState(records[..n]);
    if !ok {
      return Some(InvalidPayload), built;
    }
    state := built;
    if t.checkpoint.lastTime != LastTime(records[..n]) || t.checkpoint.lastId != HeadOf(records[..n])
       || t.checkpoint.stateHash != state.Now() {
      return Some(InvalidCheckpoint), state;
    }
    return None, state;
  }

  /** No verdict is the first record to replay. */
  predicate StartsPair(records: seq<Record>, n: nat) {
    n < |records| ==> records[n].kind != Kind.Verdict
  }

  /** Replay resumed from a checkpoint attesting some log: it accepts exactly the logs that
      replay from genesis under the same rules and extend the attested one, and ends in the
      same state. Nothing it skips could have changed the outcome; where it resumes at all,
      it stops where replay from genesis would, and says the same. */
  method ResumeLog(c: Crypto, rules: Rules, t: Trusted, records: seq<Record>, ghost log: seq<Record>)
    returns (verdict: LogVerdict, state: LiveState)
    requires Collisionless(c) && Attests(c, t, log)
    ensures fresh(state)
    ensures verdict.reason.None? <==> rules == t.rules && log <= records && Lawful(RegimeOf(c, rules), records)
    ensures verdict.reason.None? ==>
      && verdict.checked == |records| - |log|
      && state.Now() == StateOf(records)
      && verdict.retracted == state.Now().retracted && verdict.tainted == state.Now().tainted
    ensures verdict.reason.Some? && Resumable(c, rules, t, records, log) ==>
      && StopsAt(c, rules, records, |log| + verdict.checked)
      && verdict.reason == FaultAt(c, rules, records, |log| + verdict.checked)
  {
    hide Lawful, StateOf, RegimeOf, PriorOf, Covers, Attests, ReplayedTo, GapFree, Addressed, LiveState.Now, StopsAt,
         FaultAt, StartsPair;
    AttestedLength(c, t, log);
    if rules == t.rules && log <= records && Lawful(RegimeOf(c, rules), records) {
      ExtensionIsCovered(c, t, log, records);
      LawfulResumes(c, t, log, records);
    }
    var reason, built := Rebuild(c, rules, t, records, log);
    state := built;
    if reason.Some? {
      return Rejected(reason.value, 0, records), state;
    }
    CoveredFits(t, records);
    if !GapFree(records) || (records != [] && records[0].time != 1) || !Addressed(c, records) {
      if Lawful(RegimeOf(c, rules), records) {
        VerifiedTimes(RegimeOf(c, rules), records);
        RegimeHolds(c, rules);
      }
      return Rejected(InvalidPayload, 0, records), state;
    }
    CoveredPrefix(c, t, log, records);
    PrefixReplayed(c, t, log, records, state.Now());
    var n := t.checkpoint.logLength;
    verdict := ReplayFrom(c, rules, records, n, PriorOf(records[..n]), state);
  }

  /** Nothing about the log keeps replay from resuming: what is wrong with it, if anything,
      is past the checkpoint. */
  ghost predicate Resumable(c: Crypto, rules: Rules, t: Trusted, records: seq<Record>, log: seq<Record>) {
    && rules == t.rules && log <= records && Sequenced(c, records)
    && StartsPair(records, |log|)
  }

  lemma AttestedBuilds(c: Crypto, t: Trusted, log: seq<Record>, records: seq<Record>)
    requires Collisionless(c) && Attests(c, t, log)
    ensures log <= records ==>
              && records[..t.checkpoint.logLength] == log && Decodable(log) && Built(log) == StateOf(log)
  {
    hide Lawful, StateOf, RegimeOf, Built, Decodable;
    ReplayedLogBuilds(c, t.rules, log);
    if log <= records {
      assert records[..|log|] == log;
    }
  }

  lemma AttestedLength(c: Crypto, t: Trusted, log: seq<Record>)
    requires Attests(c, t, log)
    ensures t.checkpoint.logLength == |log|
  {
    hide Lawful, StateOf, RegimeOf;
  }

  lemma CoveredFits(t: Trusted, records: seq<Record>)
    requires Covers(t, records)
    ensures t.checkpoint.logLength <= |records|
  {
  }

  lemma ExtensionIsCovered(c: Crypto, t: Trusted, log: seq<Record>, records: seq<Record>)
    requires Attests(c, t, log)
    ensures log <= records ==> Covers(t, records)
  {
    hide Lawful, StateOf, RegimeOf;
    if log <= records {
      assert records[..|log|] == log;
    }
  }

  /** The attested log has the end the checkpoint says. */
  lemma PrefixEnds(c: Crypto, t: Trusted, log: seq<Record>, records: seq<Record>)
    requires Attests(c, t, log)
    ensures t.checkpoint.lastTime == LastTime(log) && t.checkpoint.lastId == HeadOf(log)
    ensures t.checkpoint.stateHash == StateOf(log)
  {
    hide Lawful, StateOf, RegimeOf;
  }
}
