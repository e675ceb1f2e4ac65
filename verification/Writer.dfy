// The single writer: open with recovery, commit, and idempotent compare-and-append, over
// a disk that may fail at any durable operation.
module Writer {
  import opened Records
  import opened LedgerState
  import opened LiveStates
  import opened EvidenceRules
  import opened Refs
  import opened Rules
  import opened Checks
  import opened Ledger
  import opened Replay
  import opened Build
  import opened Commits
  import opened Frames
  import opened Storage
  import opened Batches

  /** Records are stamped 1, 2, ... and addressed by their content. */
  ghost predicate Stamped(c: Crypto, records: seq<Record>) {
    forall i :: 0 <= i < |records| ==> records[i].time == i + 1 && ComputeId(c, records[i]) == records[i].id
  }

  lemma StampedIsUnique(c: Crypto, records: seq<Record>)
    requires Collisionless(c) && Stamped(c, records)
    ensures UniqueIds(records)
  {
    forall i, j | 0 <= i < j < |records|
      ensures records[i].id != records[j].id
    {
      SameIdSameTime(c, records[i], records[j]);
    }
  }

  lemma LawfulIsStamped(reg: Regime, records: seq<Record>)
    requires Lawful(reg, records)
    ensures Stamped(reg.crypto, records)
  {
    hide Lawful;
    forall i | 0 <= i < |records|
      ensures records[i].time == i + 1 && ComputeId(reg.crypto, records[i]) == records[i].id
    {
      PositionFacts(reg, records, i);
    }
  }

  lemma PairIsStamped(c: Crypto, rules: Rules, log: seq<Record>, p: Proposal)
    requires Stamped(c, log)
    ensures Stamped(c, log + CommitPair(c, rules, log, p))
  {
    hide Judge, PriorOf, Built, Materialize, MaterializeVerdict;
    var subject := SubjectOn(c, log, p);
    SubjectShape(c, PriorOf(log), Built(log), |log| + 1, p);
    VerdictShape(c, subject, subject.time + 1, Judge(c, rules, PriorOf(log), Built(log), subject));
  }

  lemma {:induction false} RefEvidencesAppend(s: State, found: map<Id, Record>, a: seq<Ref>, b: seq<Ref>)
    ensures RefEvidences(s, found, a + b) == RefEvidences(s, found, a) + RefEvidences(s, found, b)
  {
    if a == [] {
      assert a + b == b;
    } else {
      RefEvidencesAppend(s, found, a[1..], b);
      assert (a + b)[1..] == a[1..] + b;
    }
  }

  lemma NoRefsNoEvidence(s: State, found: map<Id, Record>)
    ensures RefEvidences(s, found, []) == []
  {
  }

  datatype BatchAppend = BatchAppend(head: Id, results: seq<(Id, Judgment)>, replayed: nat)

  const TIME_MAX: nat := U64_MAX

  /** The next logical time after a log, saturating. */
  function NextTime(records: seq<Record>): nat {
    if LastTime(records) < TIME_MAX then LastTime(records) + 1 else TIME_MAX
  }

  class LogWriter {
    const c: Crypto
    const rules: Rules
    const log: FileLog
    var nextTime: nat
    /** Set before the first durable write, cleared only after the whole commit. */
    var recoveryRequired: bool

    ghost predicate Valid()
      reads this, log, log.disk
    {
      && Stamped(c, log.records)
      && |log.disk.bytes| <= log.maxBytes
      && (!recoveryRequired ==> log.Sound() && nextTime == NextTime(log.records))
    }

    constructor (c: Crypto, rules: Rules, log: FileLog)
      ensures this.c == c && this.rules == rules && this.log == log
      ensures !this.recoveryRequired && this.nextTime == NextTime(log.records)
    {
      this.c, this.rules, this.log := c, rules, log;
      this.nextTime, this.recoveryRequired := NextTime(log.records), false;
    }

    // ----- Boundaries checked before anything is written -----------------------------------

    /** Refuse drifted rules, stale or fabricated state, and a handle that needs reopening. */
    method EnsureReady(rules: Rules, state: LiveState) returns (error: Option<LogError>)
      ensures error.None? ==> !recoveryRequired && rules == this.rules
                              && Decodable(log.records) && state.Now() == Built(log.records)
      ensures error.Some? ==> !error.value.HeadConflict?
      ensures recoveryRequired ==> error == Some(RecoveryRequired)
      ensures !recoveryRequired && rules != this.rules ==> error == Some(RulesMismatch)
      ensures !recoveryRequired && rules == this.rules && Decodable(log.records) ==>
        error == if state.Now() == Built(log.records) then None else Some(StateMismatch)
    {
      if recoveryRequired {
        return Some(RecoveryRequired);
      }
      if rules != this.rules {
        return Some(RulesMismatch);
      }
      var ok, expected := BuildState(log.records);
      if !ok {
        return Some(PayloadUndecodable);
      }
      return if expected.Now() == state.Now() then None else Some(StateMismatch);
    }

    /** The classes the proposal's refs contribute, looked up one by one. */
    method GatherEvidence(refs: seq<Ref>, state: LiveState) returns (es: seq<Evidence>)
      requires Collisionless(c) && Valid() && !recoveryRequired
      ensures es == RefEvidences(state.Now(), PriorOf(log.records).byId, refs)
    {
      hide PriorOf, RefEvidences, Stamped, Indexes, Collisionless;
      ghost var found := PriorOf(log.records).byId;
      es := [];
      var i := 0;
      NoRefsNoEvidence(state.Now(), found);
      assert refs[..0] == [];
      while i < |refs|
        invariant 0 <= i <= |refs|
        invariant es == RefEvidences(state.Now(), found, refs[..i])
      {
        var ref := refs[i];
        var e := EvidenceOfRef(ref, state);
        if e.Some? {
          es := es + [e.value];
        }
        RefEvidencesAppend(state.Now(), found, refs[..i], [ref]);
        assert refs[..i + 1] == refs[..i] + [ref];
        i := i + 1;
      }
      assert refs[..i] == refs;
    }

    /** What one ref contributes, if its target is in the log at all. */
    method EvidenceOfRef(ref: Ref, state: LiveState) returns (e: Option<Evidence>)
      requires Collisionless(c) && Valid() && !recoveryRequired
      ensures RefEvidences(state.Now(), PriorOf(log.records).byId, [ref]) == if e.Some? then [e.value] else []
    {
      hide PriorOf, Stamped, RefEvidence;
      StampedIsUnique(c, log.records);
      var target := log.Get(ref.target);
      PriorFindsFirst(log.records, ref.target);
      if target.None? {
        return None;
      }
      var k :| 0 <= k < |log.records| && log.records[k] == target.value;
      PriorAt(log.records, k);
      return RefEvidence(state.Now(), ref, target.value);
    }

    // ----- One commit ---------------------------------------------------------------------

    /** Nothing changed: the refusal consumed neither storage nor time. */
    twostate predicate Untouched(state: LiveState)
      reads this, log, log.disk, state
    {
      && log.records == old(log.records) && log.disk.bytes == old(log.disk.bytes)
      && nextTime == old(nextTime) && recoveryRequired == old(recoveryRequired)
      && state.Now() == old(state.Now())
    }

    /** `commit`: materialize the pair, reserve room for both frames, then write them. */
    method Commit(p: Proposal, rules: Rules, state: LiveState) returns (outcome: Outcome<(Id, Judgment)>)
      requires Collisionless(c) && Valid()
      modifies this, log, log.disk, state
      ensures Valid()
      ensures outcome.Ok? ==>
        && var before := old(log.records);
        && var pair := CommitPair(c, this.rules, before, p);
        && !recoveryRequired && log.records == before + pair
        && outcome.value == (pair[0].id, JudgmentOf(pair[1]))
        && old(state.Now()) == Built(before) && state.Now() == ApplyPair(old(state.Now()), pair[0], pair[1])
      ensures outcome.Err? ==> !outcome.error.HeadConflict? && (Untouched(state) || recoveryRequired)
      ensures !old(recoveryRequired) ==>
        Partway(log.codec, log.disk.bytes, old(log.records) + CommitPair(c, this.rules, old(log.records), p),
                |old(log.records)|)
      ensures old(recoveryRequired) ==> outcome == Err(RecoveryRequired) && Untouched(state)
      ensures old(log.disk.fates) == [] ==> log.disk.fates == [] && (outcome.Err? ==> Untouched(state))
      ensures old(Healthy(state)) && Admissible(this.rules, p) && outcome.Ok? ==> Healthy(state)
      ensures (&& old(log.disk.fates) == [] && !old(recoveryRequired) && rules == this.rules && old(Healthy(state))
               && Completable(old(log.records) + CommitPair(c, this.rules, old(log.records), p))) ==> outcome.Ok?
    {
      hide PriorOf, Judge, Built, Decodable, ApplyPair, Partway, CommitPair, Encoded, Stamped, Lawful, RegimeOf, Admissible;
      if !recoveryRequired {
        WholeIsPartway(log.codec, log.records, log.records + CommitPair(c, this.rules, log.records, p));
      }
      if Healthy(state) {
        CommitStaysHealthy(c, this.rules, log.records, p);
      }
      var prepared := Prepare(p, rules, state);
      if prepared.Err? {
        return Err(prepared.error);
      }
      var (subject, verdict, judgment) := prepared.value;
      outcome := WritePair(subject, verdict, judgment, state);
    }

    /** Everything before the first write: boundaries, the pair, its verdict, its room. */
    method Prepare(p: Proposal, rules: Rules, state: LiveState) returns (prepared: Outcome<(Record, Record, Judgment)>)
      requires Collisionless(c) && Valid()
      ensures prepared.Ok? ==>
        && var (subject, verdict, judgment) := prepared.value;
        && !recoveryRequired && rules == this.rules && nextTime < TIME_MAX - 1 && state.Now() == Built(log.records)
        && [subject, verdict] == CommitPair(c, rules, log.records, p)
        && Stamped(c, log.records + [subject, verdict]) && Fits(log.records + [subject, verdict])
        && JudgmentOf(verdict) == judgment && (judgment.Accept? ==> FitsKind(subject.kind, subject.data))
      ensures prepared.Err? ==> !prepared.error.HeadConflict?
      ensures recoveryRequired ==> prepared == Err(RecoveryRequired)
      ensures (&& !recoveryRequired && rules == this.rules
               && Decodable(log.records) && state.Now() == Built(log.records)
               && Completable(log.records + CommitPair(c, this.rules, log.records, p))) ==> prepared.Ok?
    {
      hide Judge, Built, Decodable, CommitPair, Encoded, Stamped, RegimeOf, AllFramable, Indexes, PriorOf;
      var error := EnsureReady(rules, state);
      if error.Some? {
        return Err(error.value);
      }
      StampedTime(c, log.records);
      if nextTime >= TIME_MAX - 1 {
        return Err(TimeExhausted);
      }
      var subject, verdict, judgment := MaterializePair(p, rules, state);
      var full := log.EnsureCapacityFor([subject, verdict]);
      if full.Some? {
        return Err(full.value);
      }
      return Ok((subject, verdict, judgment));
    }

    /** The subject, its verdict record, and the judgment in it. */
    method MaterializePair(p: Proposal, rules: Rules, state: LiveState)
      returns (subject: Record, verdict: Record, judgment: Judgment)
      requires Collisionless(c) && Valid() && !recoveryRequired && nextTime == |log.records| + 1
      requires rules == this.rules && state.Now() == Built(log.records)
      ensures [subject, verdict] == CommitPair(c, rules, log.records, p)
      ensures Stamped(c, log.records + [subject, verdict])
      ensures JudgmentOf(verdict) == judgment && (judgment.Accept? ==> FitsKind(subject.kind, subject.data))
    {
      hide PriorOf, Judge, Built, Materialize, MaterializeVerdict, CommitPair, RegimeOf, Indexes, AllFramable;
      ghost var before := log.records;
      subject := MaterializeSubject(p, state);
      var prior := PriorOf(log.records);
      judgment := VerifyRecord(c, rules, prior, state.Now(), subject);
      verdict := MaterializeVerdict(c, subject, nextTime + 1, judgment);
      SubjectShape(c, prior, Built(before), nextTime, p);
      VerdictShape(c, subject, nextTime + 1, judgment);
      PairIsStamped(c, rules, before, p);
      IsCommitPair(c, rules, before, p, subject, verdict, judgment);
      AcceptedSubjectFits(c, rules, prior, state.Now(), subject);
    }

    ghost predicate Fits(records: seq<Record>)
      reads {}
    {
      AllFramable(log.codec, records) && |Encoded(log.codec, records)| <= log.maxBytes
    }

    /** Assign evidence, time and id without touching the clock or the file. */
    method MaterializeSubject(p: Proposal, state: LiveState) returns (subject: Record)
      requires Collisionless(c) && Valid() && !recoveryRequired
      ensures subject == Materialize(c, PriorOf(log.records), state.Now(), nextTime, p)
    {
      hide PriorOf;
      var es := GatherEvidence(p.refs, state);
      var refs := SortAndDedup(p.refs);
      subject := WithId(c, Record(0, p.space, p.thread, nextTime, p.author, p.kind, p.schema, p.data, refs,
                                  DeriveEvidence(p.schema, es)));
    }

    /** The durable part: intent, subject, intent, verdict, clear. From the first intent on
        the handle requires recovery. */
    method WriteFrames(subject: Record, verdict: Record) returns (ok: bool)
      requires Valid() && !recoveryRequired
      requires Stamped(c, log.records + [subject, verdict]) && Fits(log.records + [subject, verdict])
      modifies this`recoveryRequired, log, log.disk
      ensures Stamped(c, log.records) && |log.disk.bytes| <= log.maxBytes
      ensures ok ==> recoveryRequired && log.Sound() && log.records == old(log.records) + [subject, verdict]
      ensures !ok && !recoveryRequired ==>
        log.Sound() && log.records == old(log.records) && log.disk.bytes == old(log.disk.bytes)
      ensures Partway(log.codec, log.disk.bytes, old(log.records) + [subject, verdict], |old(log.records)|)
      ensures old(log.disk.fates) == [] ==> log.disk.fates == [] && ok
    {
      hide Holds, Partway;
      ghost var before, after := log.records, log.records + [subject, verdict];
      PairPrefixes(c, log.codec, before, subject, verdict);
      WholeIsPartway(log.codec, before, after);
      ok := log.disk.SetIntent(CommitIntent(subject.id, false));
      if !ok {
        return;
      }
      recoveryRequired := true;
      var error := log.Append(subject);
      PartwayGrows(log.codec, log.disk.bytes, before + [subject], |before|, after, |before|);
      if error.Some? {
        return false;
      }
      ok := log.disk.SetIntent(CommitIntent(subject.id, true));
      if !ok {
        return;
      }
      error := log.Append(verdict);
      PartwayGrows(log.codec, log.disk.bytes, after, |before| + 1, after, |before|);
      if error.Some? {
        return false;
      }
      ok := log.disk.ClearIntent();
    }

    /** Fold the durable pair into the caller's state, then publish the two times it used. */
    method Publish(subject: Record, verdict: Record, judgment: Judgment, state: LiveState)
      requires Collisionless(c) && Stamped(c, log.records) && log.Sound()
      requires |log.records| >= 2 && log.records[|log.records| - 2] == subject
      requires JudgmentOf(verdict) == judgment && (judgment.Accept? ==> FitsKind(subject.kind, subject.data))
      modifies this, state
      ensures !recoveryRequired && nextTime == old(nextTime) + 2
      ensures state.Now() == ApplyPair(old(state.Now()), subject, verdict)
    {
      hide Apply, LiveState.Now, FitsKind, Encoded;
      var found := log.Get(subject.id);
      SubjectIsFound(c, log.records, |log.records| - 2, found.value);
      var _ := state.ApplyRecord(found.value, judgment);
      state.AdvanceTo(verdict.time);
      nextTime := nextTime + 2;
      recoveryRequired := false;
    }

    /** Write the pair, then publish it. */
    method WritePair(subject: Record, verdict: Record, judgment: Judgment, state: LiveState)
      returns (outcome: Outcome<(Id, Judgment)>)
      requires Collisionless(c) && Valid() && !recoveryRequired
      requires Stamped(c, log.records + [subject, verdict]) && nextTime < TIME_MAX - 1
      requires Fits(log.records + [subject, verdict])
      requires JudgmentOf(verdict) == judgment && (judgment.Accept? ==> FitsKind(subject.kind, subject.data))
      modifies this, log, log.disk, state
      ensures Valid()
      ensures outcome.Ok? ==>
        && !recoveryRequired && log.records == old(log.records) + [subject, verdict]
        && outcome.value == (subject.id, judgment)
        && state.Now() == ApplyPair(old(state.Now()), subject, verdict)
      ensures outcome.Err? ==> outcome.error == Io && (Untouched(state) || recoveryRequired)
      ensures Partway(log.codec, log.disk.bytes, old(log.records) + [subject, verdict], |old(log.records)|)
      ensures old(log.disk.fates) == [] ==> log.disk.fates == [] && outcome.Ok?
    {
      hide Partway, ApplyPair, Encoded;
      var ok := WriteFrames(subject, verdict);
      if !ok {
        return Err(Io);
      }
      StampedTime(c, log.records);
      Publish(subject, verdict, judgment, state);
      return Ok((subject.id, judgment));
    }

    // ----- Batches --------------------------------------------------------------------------

    /** Match the longest prefix of the batch already in the log after a position. */
    method MatchLanded(batch: seq<Proposal>, start: nat) returns (outcome: Outcome<nat>, results: seq<(Id, Judgment)>)
      requires start <= |log.records|
      ensures outcome.Ok? ==>
        && var n := outcome.value;
        && Landed(log.records, start, batch, n) && results == Results(log.records, start, n)
        && (n == |batch| || start + 2 * n >= |log.records|
            || ProposalOf(log.records[start + 2 * n]) != Settled(batch[n]))
      ensures outcome.Err? ==> outcome.error in {CorruptedRecovery, PayloadUndecodable}
      ensures outcome.Err? && Lawful(RegimeOf(c, rules), log.records) ==>
        exists i :: 0 <= i < |batch| && batch[i].kind == Verdict
    {
      hide Lawful, Matches, ProposalOf, Settled;
      var landed, pos := 0, start;
      results := [];
      forall p, r
        ensures Matches(p, r) <==> ProposalOf(r) == Settled(p)
      {
        MatchingIsSameContent(p, r);
      }
      while landed < |batch| && pos < |log.records| && Matches(batch[landed], log.records[pos])
        invariant 0 <= landed <= |batch| && pos == start + 2 * landed <= |log.records|
        invariant Landed(log.records, start, batch, landed)
        invariant results == Results(log.records, start, landed)
      {
        OnlyVerdictsMisalign(RegimeOf(c, rules), log.records, pos, batch[landed]);
        if pos + 1 >= |log.records| {
          return Err(CorruptedRecovery), results;
        }
        if !log.records[pos + 1].data.VerdictData? {
          return Err(PayloadUndecodable), results;
        }
        results := results + [(log.records[pos].id, JudgmentOf(log.records[pos + 1]))];
        landed, pos := landed + 1, pos + 2;
      }
      return Ok(landed), results;
    }

    /** The log replays, and the caller's state is the one it replays to. */
    ghost predicate Healthy(state: LiveState)
      reads this, log, state
    {
      Lawful(RegimeOf(c, rules), log.records) && state.Now() == Built(log.records)
    }

    /** Commit the rest of a batch whose first `from` pairs already end the log. */
    method CommitRest(batch: seq<Proposal>, from: nat, start: nat, done: seq<(Id, Judgment)>, state: LiveState)
      returns (outcome: Outcome<seq<(Id, Judgment)>>)
      requires Collisionless(c) && Valid() && !recoveryRequired
      requires from <= |batch| && start + 2 * from == |log.records|
      requires done == Results(log.records, start, from)
      modifies this, log, log.disk, state
      ensures Valid()
      ensures var full := CommitAll(c, rules, old(log.records), batch[from..]);
        && Partway(log.codec, log.disk.bytes, full, |old(log.records)|)
        && (outcome.Ok? ==>
             !recoveryRequired && log.records == full && outcome.value == Results(full, start, |batch|))
      ensures outcome.Err? ==> !outcome.error.HeadConflict?
      ensures old(Healthy(state)) && AllAdmissible(rules, batch) && outcome.Ok? ==> Healthy(state)
      ensures old(log.disk.fates) == [] ==> log.disk.fates == []
      ensures (&& old(log.disk.fates) == [] && old(Healthy(state)) && AllAdmissible(rules, batch)
               && Completable(CommitAll(c, rules, old(log.records), batch[from..]))) ==> outcome.Ok?
    {
      hide Partway, CommitPair, ApplyPair, Results, Lawful, Built, Fits, Decodable, Encoded, Stamped, Completable,
           CommitAll, RegimeOf, Indexes, NextTime, Admissible, AllFramable, Collisionless, AllAdmissible;
      ghost var before, rest := log.records, batch[from..];
      ghost var full := CommitAll(c, rules, before, rest);
      ghost var healthy := Healthy(state) && AllAdmissible(rules, batch);
      ghost var quiet := log.disk.fates == [];
      ghost var able := quiet && healthy && Completable(full);
      var results, i := done, from;
      WholeIsPartway(log.codec, before, full);
      EmptyBatch(c, rules, before);
      assert rest[..0] == [];
      while i < |batch|
        invariant from <= i <= |batch| && Valid() && !recoveryRequired
        invariant log.records == CommitAll(c, rules, before, rest[..i - from])
        invariant |log.records| == start + 2 * i
        invariant results == Results(log.records, start, i)
        invariant healthy ==> Healthy(state)
        invariant quiet ==> log.disk.fates == []
        invariant Partway(log.codec, log.disk.bytes, full, |before|)
      {
        ghost var g := log.records;
        BatchStep(c, rules, before, rest, i - from);
        AdmissibleHere(rules, batch, i);
        if able {
          PrefixCompletes(g + CommitPair(c, rules, g, batch[i]), full);
        }
        var one := Commit(batch[i], rules, state);
        PartwayGrows(log.codec, log.disk.bytes, g + CommitPair(c, rules, g, batch[i]), |g|, full, |before|);
        if one.Err? {
          return Err(one.error);
        }
        ResultsNext(g, CommitPair(c, rules, g, batch[i]), start, i);
        results := results + [one.value];
        i := i + 1;
      }
      assert rest[..i - from] == rest;
      return Ok(results);
    }

    /** `checked_batch_commit`: compare the head, recognize what landed, append the rest. */
    method CheckedBatchCommit(expectedHead: Id, proposals: seq<Proposal>, rules: Rules, state: LiveState)
      returns (outcome: Outcome<BatchAppend>)
      requires Collisionless(c) && Valid()
      modifies this, log, log.disk, state
      ensures Valid()
      ensures outcome.Ok? ==>
        && !recoveryRequired
        && Appended(c, this.rules, old(log.records), log.records, expectedHead, SortBatch(c, proposals), outcome.value)
        && (outcome.value.replayed == |proposals| ==> Untouched(state))
        && Answers(log.records, expectedHead, SortBatch(c, proposals), outcome.value)
      ensures outcome.Err? ==>
        || Untouched(state)
        || Interrupted(old(log.records), expectedHead, SortBatch(c, proposals), log.disk.bytes)
      ensures outcome.Err? && outcome.error.HeadConflict? ==>
        && Untouched(state) && Conflicts(old(log.records), expectedHead, SortBatch(c, proposals))
        && outcome.error == HeadConflict(expectedHead, HeadOf(old(log.records)))
      ensures (&& !old(recoveryRequired) && rules == this.rules && old(Healthy(state))
               && AllAdmissible(this.rules, SortBatch(c, proposals))
               && Conflicts(old(log.records), expectedHead, SortBatch(c, proposals))) ==>
              outcome.Err? && outcome.error.HeadConflict?
      ensures old(Healthy(state)) && AllAdmissible(this.rules, SortBatch(c, proposals)) && outcome.Ok? ==> Healthy(state)
      ensures old(log.disk.fates) == [] ==> log.disk.fates == []
      ensures (&& old(log.disk.fates) == [] && !old(recoveryRequired) && rules == this.rules
               && old(Healthy(state)) && AllAdmissible(this.rules, SortBatch(c, proposals))
               && !Conflicts(old(log.records), expectedHead, SortBatch(c, proposals))
               && HasRoom(old(log.records), expectedHead, SortBatch(c, proposals))) ==> outcome.Ok?
    {
      hide Partway, Lawful, Built, Decodable, Encoded, Stamped, Completable, SortBatch, Results, CommitAll, AllAdmissible,
           Landed, Matches, StartAfter, RegimeOf, Indexes, NextTime, Collisionless, Appended, Conflicts, Remainder,
           Interrupted, HasRoom, Answers;
      var error := EnsureReady(rules, state);
      if Lawful(RegimeOf(c, this.rules), log.records) {
        ReplayedLogBuilds(c, this.rules, log.records);
      }
      if error.Some? {
        return Err(error.value);
      }
      var batch := SortBatch(c, proposals);
      var start := StartAfter(log.records, expectedHead);
      if start.None? {
        UnknownHeadConflicts(log.records, expectedHead, batch);
        return Err(HeadConflict(expectedHead, HeadOf(log.records)));
      }
      var matched, results := MatchLanded(batch, start.value);
      if matched.Err? {
        AdmissibleAligns(rules, batch);
        return Err(matched.error);
      }
      var landed := matched.value;
      var pos := start.value + 2 * landed;
      LongestLanded(log.records, expectedHead, batch, landed);
      if landed == |batch| {
        var answer := BatchAppend(HeadOf(log.records[..pos]), results, landed);
        AppendedNothing(c, rules, log.records, expectedHead, batch, answer);
        AnswersBatch(c, rules, log.records, log.records, expectedHead, batch, answer);
        return Ok(answer);
      }
      if pos != |log.records| {
        return Err(HeadConflict(expectedHead, HeadOf(log.records)));
      }
      ghost var before := log.records;
      LandedRemains(before, expectedHead, batch, landed);
      RoomForRest(before, expectedHead, batch, landed);
      var rest := CommitRest(batch, landed, start.value, results, state);
      if rest.Err? {
        StopsInterrupted(before, expectedHead, batch, landed, log.disk.bytes);
        return Err(rest.error);
      }
      var answer := BatchAppend(HeadOf(log.records), rest.value, landed);
      AppendedRest(c, rules, before, log.records, expectedHead, batch, answer);
      AnswersBatch(c, rules, before, log.records, expectedHead, batch, answer);
      return Ok(answer);
    }

    lemma StopsInterrupted(before: seq<Record>, head: Id, batch: seq<Proposal>, k: nat, bytes: seq<Byte>)
      requires Remainder(before, head, batch, k)
      requires Partway(log.codec, bytes, CommitAll(c, rules, before, batch[k..]), |before|)
      ensures Interrupted(before, head, batch, bytes)
    {
    }

    lemma RoomForRest(before: seq<Record>, head: Id, batch: seq<Proposal>, k: nat)
      requires Remainder(before, head, batch, k)
      ensures k <= |batch|
      ensures HasRoom(before, head, batch) ==> Completable(CommitAll(c, rules, before, batch[k..]))
    {
    }

    /** The file stopped somewhere while the rest of a batch was being appended. */
    ghost predicate Interrupted(before: seq<Record>, head: Id, batch: seq<Proposal>, bytes: seq<Byte>)
      reads {}
    {
      exists k: nat :: Remainder(before, head, batch, k)
        && Partway(log.codec, bytes, CommitAll(c, rules, before, batch[k..]), |before|)
    }

    ghost predicate HasRoom(before: seq<Record>, head: Id, batch: seq<Proposal>)
      reads {}
    {
      forall k: nat :: Remainder(before, head, batch, k) ==> Completable(CommitAll(c, rules, before, batch[k..]))
    }

    /** A log that fits the file and leaves the clock room. */
    ghost predicate Completable(full: seq<Record>)
      reads {}
    {
      Fits(full) && |full| < TIME_MAX
    }

    lemma PrefixCompletes(records: seq<Record>, full: seq<Record>)
      requires records <= full && Completable(full)
      ensures Completable(records)
    {
      var rest := full[|records|..];
      assert full == records + rest;
      assert forall r :: r in records ==> r in full;
      EncodedSplits(log.codec, records, rest);
    }
  }

  /** The log ends after exactly `k` landed proposals of the batch. */
  ghost predicate Remainder(records: seq<Record>, head: Id, batch: seq<Proposal>, k: nat) {
    && StartAfter(records, head).Some?
    && StartAfter(records, head).value + 2 * k == |records|
    && Landed(records, StartAfter(records, head).value, batch, k)
  }

  /** The log never had the expected head, or went on after it with a record that says
      something else than the batch does there. */
  ghost predicate Conflicts(records: seq<Record>, head: Id, batch: seq<Proposal>) {
    forall at: nat :: FollowsHead(records, head, at) ==> exists k: nat :: Diverges(records, at, batch, k)
  }

  /** The first `k` proposals are there, and the record where the next would be differs. */
  ghost predicate Diverges(records: seq<Record>, at: nat, batch: seq<Proposal>, k: nat) {
    && k < |batch| && at + 2 * k < |records|
    && (forall i :: 0 <= i < k ==> ProposalOf(records[at + 2 * i]) == Settled(batch[i]))
    && ProposalOf(records[at + 2 * k]) != Settled(batch[k])
  }

  /** What a successful compare-and-append did: `k` proposals were already there, the
      others were committed after them, and the answer covers them all alike. */
  ghost predicate Appended(c: Crypto, rules: Rules, before: seq<Record>, after: seq<Record>, head: Id,
                           batch: seq<Proposal>, out: BatchAppend)
  {
    var at, k := StartAfter(before, head), out.replayed;
    && at.Some? && Landed(before, at.value, batch, k)
    && (k < |batch| ==> at.value + 2 * k == |before|)
    && after == CommitAll(c, rules, before, batch[k..])
    && at.value + 2 * |batch| <= |after|
    && out.results == Results(after, at.value, |batch|)
    && out.head == HeadOf(after[..at.value + 2 * |batch|])
  }

  /** An answer covers exactly the batch: right after the expected head the log says what
      each proposal says, in order, and the answer gives those records' ids and verdicts. */
  ghost predicate Answers(records: seq<Record>, head: Id, batch: seq<Proposal>, out: BatchAppend) {
    exists at: nat :: FollowsHead(records, head, at) && AnswersFrom(records, at, batch, out)
  }

  ghost predicate AnswersFrom(records: seq<Record>, at: nat, batch: seq<Proposal>, out: BatchAppend) {
    var n := at + 2 * |batch|;
    && n <= |records| && |out.results| == |batch|
    && (forall i :: 0 <= i < |batch| ==>
          && ProposalOf(records[at + 2 * i]) == Settled(batch[i])
          && out.results[i].0 == records[at + 2 * i].id
          && out.results[i].1 == JudgmentOf(records[at + 2 * i + 1]))
    && out.head == if n == 0 then EMPTY_HEAD else records[n - 1].id
  }

  lemma AnswersBatch(c: Crypto, rules: Rules, before: seq<Record>, after: seq<Record>, head: Id, batch: seq<Proposal>,
                     out: BatchAppend)
    requires Appended(c, rules, before, after, head, batch, out)
    ensures Answers(after, head, batch, out)
  {
    hide StartAfter, ProposalOf, Settled, CommitAll, Results, FollowsHead;
    var at, k := StartAfter(before, head).value, out.replayed;
    StartFollowsHead(before, head, at);
    HeadStays(before, after, head, at);
    forall i | 0 <= i < |batch|
      ensures ProposalOf(after[at + 2 * i]) == Settled(batch[i])
      ensures out.results[i] == (after[at + 2 * i].id, JudgmentOf(after[at + 2 * i + 1]))
    {
      ResultAt(after, at, |batch|, i);
      if i < k {
        assert after[at + 2 * i] == before[at + 2 * i];
      } else {
        CommittedAt(c, rules, before, batch[k..], i - k);
      }
    }
    assert AnswersFrom(after, at, batch, out);
  }

  lemma HeadStays(before: seq<Record>, after: seq<Record>, head: Id, at: nat)
    requires before <= after && FollowsHead(before, head, at)
    ensures FollowsHead(after, head, at)
  {
  }

  lemma {:induction false} ResultAt(records: seq<Record>, start: nat, n: nat, i: nat)
    requires start + 2 * n <= |records| && i < n
    ensures Results(records, start, n)[i] == (records[start + 2 * i].id, JudgmentOf(records[start + 2 * i + 1]))
  {
    if i < n - 1 {
      ResultAt(records, start, n - 1, i);
    }
  }

  /** What a batch committed after a log says there. */
  lemma CommittedAt(c: Crypto, rules: Rules, base: seq<Record>, batch: seq<Proposal>, i: nat)
    requires i < |batch|
    ensures ProposalOf(CommitAll(c, rules, base, batch)[|base| + 2 * i]) == Settled(batch[i])
  {
    hide CommitAll, ProposalOf, Settled;
    PrefixLanded(c, rules, base, batch, |batch|);
    assert batch[..|batch|] == batch;
  }

  /** A prefix that cannot be extended is the only one that can end the log. */
  lemma LongestLanded(records: seq<Record>, head: Id, batch: seq<Proposal>, landed: nat)
    requires StartAfter(records, head).Some?
    requires Landed(records, StartAfter(records, head).value, batch, landed)
    requires var at := StartAfter(records, head).value + 2 * landed;
             landed == |batch| || at >= |records| || ProposalOf(records[at]) != Settled(batch[landed])
    ensures landed <= |batch| && StartAfter(records, head).value + 2 * landed <= |records|
    ensures landed < |batch| && StartAfter(records, head).value + 2 * landed < |records| <==>
              Conflicts(records, head, batch)
  {
    hide ProposalOf, Settled, StartAfter, FollowsHead;
    var at := StartAfter(records, head).value;
    forall x: nat
      ensures FollowsHead(records, head, x) <==> x == at
    {
      StartFollowsHead(records, head, x);
    }
    if landed < |batch| && at + 2 * landed < |records| {
      assert Diverges(records, at, batch, landed);
    } else {
      assert FollowsHead(records, head, at);
    }
  }

  lemma UnknownHeadConflicts(records: seq<Record>, head: Id, batch: seq<Proposal>)
    requires StartAfter(records, head).None?
    ensures Conflicts(records, head, batch)
  {
    hide StartAfter, FollowsHead;
    forall at: nat
      ensures !FollowsHead(records, head, at)
    {
      StartFollowsHead(records, head, at);
    }
  }

  /** A prefix that ends the log leaves the rest to append, and is no conflict. */
  lemma LandedRemains(records: seq<Record>, head: Id, batch: seq<Proposal>, k: nat)
    requires StartAfter(records, head).Some? && Landed(records, StartAfter(records, head).value, batch, k)
    requires StartAfter(records, head).value + 2 * k == |records|
    ensures Remainder(records, head, batch, k) && !Conflicts(records, head, batch)
  {
    hide StartAfter, ProposalOf, Settled;
    LongestLanded(records, head, batch, k);
  }

  lemma AppendedNothing(c: Crypto, rules: Rules, before: seq<Record>, head: Id, batch: seq<Proposal>, out: BatchAppend)
    requires StartAfter(before, head).Some? && out.replayed == |batch|
    requires Landed(before, StartAfter(before, head).value, batch, |batch|)
    requires StartAfter(before, head).value + 2 * |batch| <= |before|
    requires out.results == Results(before, StartAfter(before, head).value, |batch|)
    requires out.head == HeadOf(before[..StartAfter(before, head).value + 2 * |batch|])
    ensures Appended(c, rules, before, before, head, batch, out) && !Conflicts(before, head, batch)
  {
    hide StartAfter, Landed, Results, HeadOf, CommitAll, Conflicts;
    LongestLanded(before, head, batch, |batch|);
    AppendsNothing(c, rules, before, batch);
  }

  lemma AppendedRest(c: Crypto, rules: Rules, before: seq<Record>, after: seq<Record>, head: Id, batch: seq<Proposal>,
                     out: BatchAppend)
    requires Remainder(before, head, batch, out.replayed) && out.replayed <= |batch|
    requires after == CommitAll(c, rules, before, batch[out.replayed..])
    requires |after| == StartAfter(before, head).value + 2 * |batch|
    requires out.results == Results(after, StartAfter(before, head).value, |batch|) && out.head == HeadOf(after)
    ensures Appended(c, rules, before, after, head, batch, out)
  {
    hide StartAfter, Landed, Results, HeadOf, CommitAll;
    assert after[..|after|] == after;
  }

  lemma AdmissibleHere(rules: Rules, batch: seq<Proposal>, i: nat)
    requires i < |batch|
    ensures AllAdmissible(rules, batch) ==> Admissible(rules, batch[i])
  {
  }

  lemma AdmissibleAligns(rules: Rules, batch: seq<Proposal>)
    ensures AllAdmissible(rules, batch) ==> !exists i :: 0 <= i < |batch| && batch[i].kind == Verdict
  {
  }

  lemma EmptyBatch(c: Crypto, rules: Rules, log: seq<Record>)
    ensures CommitAll(c, rules, log, []) == log
  {
  }

  lemma AppendsNothing(c: Crypto, rules: Rules, before: seq<Record>, batch: seq<Proposal>)
    ensures CommitAll(c, rules, before, batch[|batch|..]) == before
  {
  }

  lemma BatchStep(c: Crypto, rules: Rules, before: seq<Record>, rest: seq<Proposal>, n: nat)
    requires n < |rest|
    ensures var g := CommitAll(c, rules, before, rest[..n]);
            && |before| <= |g|
            && g + CommitPair(c, rules, g, rest[n]) == CommitAll(c, rules, before, rest[..n + 1])
            && g + CommitPair(c, rules, g, rest[n]) <= CommitAll(c, rules, before, rest)
  {
    hide CommitPair;
    CommitNext(c, rules, before, rest, n);
    CommitPrefix(c, rules, before, rest, n + 1);
  }

  /** Committing into a replayable log keeps it so, and the fold stays the built state. */
  lemma CommitStaysHealthy(c: Crypto, rules: Rules, g: seq<Record>, p: Proposal)
    requires Collisionless(c) && Lawful(RegimeOf(c, rules), g)
    ensures Decodable(g)
    ensures var pair := CommitPair(c, rules, g, p);
            Admissible(rules, p) ==>
              && Lawful(RegimeOf(c, rules), g + pair)
              && Built(g + pair) == ApplyPair(Built(g), pair[0], pair[1])
  {
    hide Lawful, Built, Decodable, ApplyPair, CommitPair, StateOf;
    var pair := CommitPair(c, rules, g, p);
    ReplayedLogBuilds(c, rules, g);
    CommitReplays(c, rules, g, p);
    if Admissible(rules, p) {
      ReplayedLogBuilds(c, rules, g + pair);
      VerifiedIsPaired(RegimeOf(c, rules), g);
      assert pair == [pair[0], pair[1]];
      PairAppends(RegimeOf(c, rules), g, pair[0], pair[1]);
    }
  }

  lemma ResultsNext(g: seq<Record>, pair: seq<Record>, start: nat, n: nat)
    requires start + 2 * n == |g| && |pair| == 2
    ensures Results(g + pair, start, n + 1) == Results(g, start, n) + [(pair[0].id, JudgmentOf(pair[1]))]
  {
    ResultsOfPrefix(g, g + pair, start, n);
  }

  /** In a lawful log a matched record has its verdict next, unless it is one itself. */
  lemma OnlyVerdictsMisalign(reg: Regime, records: seq<Record>, pos: nat, p: Proposal)
    requires pos < |records| && Matches(p, records[pos])
    ensures Lawful(reg, records) && p.kind != Verdict ==>
              pos + 1 < |records| && records[pos + 1].data.VerdictData?
  {
    hide Lawful;
    if Lawful(reg, records) && p.kind != Verdict {
      VerifiedIsPaired(reg, records);
      PositionFacts(reg, records, pos);
      if pos + 1 < |records| {
        PositionFacts(reg, records, pos + 1);
      }
    }
  }

  lemma StampedTime(c: Crypto, records: seq<Record>)
    requires Stamped(c, records)
    ensures LastTime(records) == |records|
  {
  }

  lemma IsCommitPair(c: Crypto, rules: Rules, log: seq<Record>, p: Proposal, s: Record, v: Record, j: Judgment)
    requires s == SubjectOn(c, log, p) && s.time == |log| + 1
    requires j == Judge(c, rules, PriorOf(log), Built(log), s)
    requires v == MaterializeVerdict(c, s, |log| + 2, j)
    ensures [s, v] == CommitPair(c, rules, log, p)
  {
    hide PriorOf, Judge, Built, Materialize, MaterializeVerdict;
  }

  lemma WholeIsPartway(k: Codec, records: seq<Record>, longer: seq<Record>)
    requires records <= longer && AllFramable(k, records)
    ensures Partway(k, Encoded(k, records), longer, |records|)
  {
    assert longer[..|records|] == records;
    WholeHolds(k, longer, |records|);
  }

  lemma PairPrefixes(c: Crypto, k: Codec, before: seq<Record>, s: Record, v: Record)
    requires AllFramable(k, before + [s, v])
    ensures var after := before + [s, v];
            && before + [s] <= after && AllFramable(k, before + [s]) && AllFramable(k, before + [s] + [v])
            && |Encoded(k, before + [s])| <= |Encoded(k, after)|
            && before + [s] + [v] == after
            && (Stamped(c, after) ==> Stamped(c, before + [s]))
  {
    var after := before + [s, v];
    assert before + [s] + [v] == after;
    EncodedSplits(k, before + [s], [v]);
  }

  lemma SubjectIsFound(c: Crypto, records: seq<Record>, i: nat, found: Record)
    requires Collisionless(c) && Stamped(c, records) && i < |records|
    requires found in records && found.id == records[i].id
    ensures found == records[i]
  {
    StampedIsUnique(c, records);
    var j :| 0 <= j < |records| && records[j] == found;
    SameIdSamePlace(records, i, j);
  }

  lemma AcceptedSubjectFits(c: Crypto, rules: Rules, p: Prior, s: State, r: Record)
    ensures Judge(c, rules, p, s, r).Accept? ==> FitsKind(r.kind, r.data)
  {
    hide Judge;
    if r.kind != Kind.Verdict && Judge(c, rules, p, s, r).Accept? {
      AcceptedFits(c, rules, p, s, r);
    }
  }
}
