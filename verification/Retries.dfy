// Exactly-once append: a client that resends one batch against one expected head, over
// any sequence of process lives that each die somewhere, gets it appended once.
module Retries {
  import opened Records
  import opened Rules
  import opened Checks
  import opened Ledger
  import opened Replay
  import opened Build
  import opened Commits
  import opened Frames
  import opened Storage
  import opened Batches
  import opened Writer
  import opened Recovery

  lemma {:induction false} CommitAllSplits(c: Crypto, rules: Rules, base: seq<Record>, batch: seq<Proposal>, n: nat)
    requires n <= |batch|
    ensures CommitAll(c, rules, CommitAll(c, rules, base, batch[..n]), batch[n..]) == CommitAll(c, rules, base, batch)
    decreases |batch|
  {
    hide CommitPair;
    if n == |batch| {
      assert batch[..n] == batch && batch[n..] == [];
    } else {
      var front, rest := batch[..|batch| - 1], batch[n..];
      assert front[..n] == batch[..n] && front[n..] == rest[..|rest| - 1];
      CommitAllSplits(c, rules, base, front, n);
    }
  }

  /** In a log that stopped after `n` pairs of the batch, compare-and-append finds exactly
      those, and no conflict. */
  lemma RetryFindsItsPlace(c: Crypto, rules: Rules, base: seq<Record>, batch: seq<Proposal>, n: nat)
    requires Collisionless(c) && n <= |batch| && Lawful(RegimeOf(c, rules), CommitAll(c, rules, base, batch[..n]))
    ensures var records := CommitAll(c, rules, base, batch[..n]);
            && StartAfter(records, HeadOf(base)) == Some(|base|)
            && !Conflicts(records, HeadOf(base), batch)
            && forall k: nat :: Remainder(records, HeadOf(base), batch, k) <==> k == n
  {
    hide Lawful, CommitAll, HeadOf, StartAfter, Collisionless, Conflicts, Landed;
    var records := CommitAll(c, rules, base, batch[..n]);
    RegimeHolds(c, rules);
    BaseIsFound(RegimeOf(c, rules), base, records);
    PrefixLanded(c, rules, base, batch, n);
    LandedRemains(records, HeadOf(base), batch, n);
  }

  /** A run of compare-and-append in such a log ends in the whole batch. */
  lemma AppendedIsWhole(c: Crypto, rules: Rules, base: seq<Record>, batch: seq<Proposal>, n: nat,
                        after: seq<Record>, out: BatchAppend)
    requires Collisionless(c) && n <= |batch| && Lawful(RegimeOf(c, rules), CommitAll(c, rules, base, batch[..n]))
    requires Appended(c, rules, CommitAll(c, rules, base, batch[..n]), after, HeadOf(base), batch, out)
    ensures after == CommitAll(c, rules, base, batch) && Answered(c, rules, base, batch, after, out)
  {
    hide Lawful, CommitAll, HeadOf, StartAfter, Collisionless, Results, RegimeOf, Conflicts, Remainder, Landed;
    var before := CommitAll(c, rules, base, batch[..n]);
    RetryFindsItsPlace(c, rules, base, batch, n);
    CommitAllSplits(c, rules, base, batch, n);
    assert out.replayed == n by {
      LandedFits(before, |base|, batch, out.replayed);
    }
    assert after[..|after|] == after;
  }

  lemma LandedFits(records: seq<Record>, start: nat, batch: seq<Proposal>, n: nat)
    requires Landed(records, start, batch, n)
    ensures n <= |batch| && start + 2 * n <= |records|
  {
  }

  /** What an uninterrupted append of the batch leaves and answers. */
  ghost predicate Answered(c: Crypto, rules: Rules, base: seq<Record>, batch: seq<Proposal>,
                           records: seq<Record>, out: BatchAppend)
  {
    && records == CommitAll(c, rules, base, batch)
    && out.head == HeadOf(records)
    && out.results == Results(records, |base|, |batch|)
  }

  // ----- Logs no life can open ------------------------------------------------------------

  /** What the file reads as does not replay, even with the verdict it may owe. */
  ghost predicate LockedOut(c: Crypto, rules: Rules, codec: Codec, bytes: seq<Byte>) {
    var read := ReadFrom(codec, bytes, 0);
    read.Found? && !Lawful(RegimeOf(c, rules), Repaired(c, rules, read.records))
  }

  /** A file stopped anywhere in a batch is locked out exactly when some proposal that
      reached it, be it with its subject alone, is for another space or is a verdict. */
  lemma LockedOutExactly(c: Crypto, rules: Rules, codec: Codec, bytes: seq<Byte>, base: seq<Record>,
                         batch: seq<Proposal>)
    requires Collisionless(c) && Faithful(codec) && Lawful(RegimeOf(c, rules), base)
    requires Partway(codec, bytes, CommitAll(c, rules, base, batch), |base|)
    ensures var read := ReadFrom(codec, bytes, 0);
            && read.Found? && |base| <= |read.records| && Begun(base, read.records) <= |batch|
            && (LockedOut(c, rules, codec, bytes) <==> !AllAdmissible(rules, batch[..Begun(base, read.records)]))
  {
    hide Lawful, CommitAll, Repaired, ReadFrom, Collisionless, Faithful, RegimeOf, Partway, AllAdmissible;
    PartwayReadsBack(codec, bytes, CommitAll(c, rules, base, batch), |base|);
    PrefixesNest(base, ReadFrom(codec, bytes, 0).records, CommitAll(c, rules, base, batch));
    RepairedReplays(c, rules, base, batch, ReadFrom(codec, bytes, 0).records);
  }

  /** Repairing part of a repair changes nothing about where it ends. */
  lemma RepairIsStable(c: Crypto, rules: Rules, records: seq<Record>, later: seq<Record>)
    requires records <= later <= Repaired(c, rules, records)
    ensures Repaired(c, rules, later) == Repaired(c, rules, records)
  {
    if later != records {
      var subject := records[|records| - 1];
      assert later == Repaired(c, rules, records);
      OwedIsVerdict(c, rules, CompletePairs(records), subject);
    }
  }

  lemma OwedIsVerdict(c: Crypto, rules: Rules, log: seq<Record>, subject: Record)
    ensures VerdictOn(c, rules, log, subject).kind == Verdict
  {
    hide Judge, PriorOf, Built;
  }

  /** Whatever an attempt to open did to such a file, it is still locked out. */
  lemma StaysLockedOut(c: Crypto, rules: Rules, codec: Codec, before: seq<Byte>, after: seq<Byte>)
    requires Faithful(codec) && LockedOut(c, rules, codec, before)
    requires var found := ReadFrom(codec, before, 0).records;
             Partway(codec, after, Repaired(c, rules, found), |found|)
    ensures LockedOut(c, rules, codec, after)
  {
    hide Lawful, Repaired, ReadFrom, Faithful, RegimeOf, Partway;
    var found := ReadFrom(codec, before, 0).records;
    PartwayReadsBack(codec, after, Repaired(c, rules, found), |found|);
    PrefixesNest(found, ReadFrom(codec, after, 0).records, Repaired(c, rules, found));
    RepairIsStable(c, rules, found, ReadFrom(codec, after, 0).records);
  }

  // ----- One life -------------------------------------------------------------------------

  /** One process life: open, rebuild the state, compare and append. It may die anywhere.
      The batch may be any at all; what a lawful log cannot take, it may still commit, but
      a file so locked out only ever refuses. */
  method Attempt(c: Crypto, rules: Rules, codec: Codec, disk: Disk, maxBytes: nat, head: Id, proposals: seq<Proposal>,
                 ghost base: seq<Record>)
    returns (outcome: Outcome<BatchAppend>)
    requires Collisionless(c) && Faithful(codec) && OnlyCanonical(codec)
    requires Lawful(RegimeOf(c, rules), base) && head == HeadOf(base)
    requires Partway(codec, disk.bytes, CommitAll(c, rules, base, SortBatch(c, proposals)), |base|)
    requires |disk.bytes| <= maxBytes
    modifies disk
    ensures Partway(codec, disk.bytes, CommitAll(c, rules, base, SortBatch(c, proposals)), |base|)
    ensures |disk.bytes| <= maxBytes
    ensures outcome.Ok? ==>
      var full := CommitAll(c, rules, base, SortBatch(c, proposals));
      && AllFramable(codec, full) && disk.bytes == Encoded(codec, full)
      && Answered(c, rules, base, SortBatch(c, proposals), full, outcome.value)
    ensures outcome.Err? ==> !outcome.error.HeadConflict?
    ensures LockedOut(c, rules, codec, old(disk.bytes)) ==> outcome.Err? && LockedOut(c, rules, codec, disk.bytes)
    ensures (&& old(disk.fates) == [] && AllAdmissible(rules, SortBatch(c, proposals))
             && HasRoomFor(codec, maxBytes, CommitAll(c, rules, base, SortBatch(c, proposals)))) ==>
            outcome.Ok? && disk.fates == []
  {
    hide Lawful, CommitAll, SortBatch, HeadOf, Partway, Encoded, AllFramable, Built, Decodable, Repaired, ReadFrom,
         Collisionless, Faithful, OnlyCanonical, AllAdmissible, RegimeOf, HasRoomFor, Answered;
    ghost var batch, bytes := SortBatch(c, proposals), disk.bytes;
    ghost var full := CommitAll(c, rules, base, batch);
    ghost var found := ReadFrom(codec, bytes, 0);
    PartwayReadsBack(codec, bytes, full, |base|);
    PrefixesNest(base, found.records, full);
    RepairedReplays(c, rules, base, batch, found.records);
    ghost var n := Begun(base, found.records);
    AdmissiblePrefix(rules, batch, n);
    if HasRoomFor(codec, maxBytes, full) {
      PrefixHasRoom(codec, maxBytes, Repaired(c, rules, found.records), full);
    }
    var file := Open(c, rules, codec, disk, maxBytes);
    if LockedOut(c, rules, codec, bytes) {
      StaysLockedOut(c, rules, codec, bytes, disk.bytes);
    }
    PartwayGrows(codec, disk.bytes, Repaired(c, rules, found.records), |found.records|, full, |base|);
    if file.Err? {
      return Err(file.error);
    }
    outcome := Resend(file.value, head, proposals, base, n);
  }

  lemma AdmissiblePrefix(rules: Rules, batch: seq<Proposal>, n: nat)
    requires n <= |batch|
    ensures AllAdmissible(rules, batch) ==> AllAdmissible(rules, batch[..n])
  {
  }

  /** The same, from an opened writer whose log holds `n` pairs of the batch. */
  method Resend(w: LogWriter, head: Id, proposals: seq<Proposal>, ghost base: seq<Record>, ghost n: nat)
    returns (outcome: Outcome<BatchAppend>)
    requires Collisionless(w.c) && w.Valid() && !w.recoveryRequired
    requires head == HeadOf(base) && n <= |SortBatch(w.c, proposals)|
    requires w.log.records == CommitAll(w.c, w.rules, base, SortBatch(w.c, proposals)[..n])
    requires Lawful(RegimeOf(w.c, w.rules), w.log.records)
    modifies w, w.log, w.log.disk
    ensures w.Valid()
    ensures Partway(w.log.codec, w.log.disk.bytes, CommitAll(w.c, w.rules, base, SortBatch(w.c, proposals)), |base|)
    ensures outcome.Ok? ==>
      && !w.recoveryRequired && w.log.records == CommitAll(w.c, w.rules, base, SortBatch(w.c, proposals))
      && Answered(w.c, w.rules, base, SortBatch(w.c, proposals), w.log.records, outcome.value)
    ensures outcome.Err? ==> !outcome.error.HeadConflict?
    ensures old(w.log.disk.fates) == [] ==> w.log.disk.fates == []
    ensures (&& old(w.log.disk.fates) == [] && AllAdmissible(w.rules, SortBatch(w.c, proposals))
             && HasRoomFor(w.log.codec, w.log.maxBytes, CommitAll(w.c, w.rules, base, SortBatch(w.c, proposals))))
            ==> outcome.Ok?
  {
    hide Lawful, CommitAll, SortBatch, HeadOf, Partway, Encoded, AllFramable, Built, Decodable, Collisionless,
         AllAdmissible, RegimeOf, Answered, Appended, Conflicts, Remainder, Stamped, Indexes;
    ghost var batch := SortBatch(w.c, proposals);
    ghost var before, full := w.log.records, CommitAll(w.c, w.rules, base, batch);
    CommitPrefix(w.c, w.rules, base, batch, n);
    CommitAllSplits(w.c, w.rules, base, batch, n);
    RetryFindsItsPlace(w.c, w.rules, base, batch, n);
    WholeIsPartway(w.log.codec, before, full);
    PartwayGrows(w.log.codec, w.log.disk.bytes, full, |before|, full, |base|);
    ReplayedLogBuilds(w.c, w.rules, before);
    var _, state := BuildState(w.log.records);
    outcome := w.CheckedBatchCommit(head, proposals, w.rules, state);
    if outcome.Ok? {
      AppendedIsWhole(w.c, w.rules, base, batch, n, w.log.records, outcome.value);
      FinishedIsPartway(w, full, base);
    } else if w.log.disk.bytes != old(w.log.disk.bytes) {
      var k: nat :| Remainder(before, head, batch, k)
        && Partway(w.log.codec, w.log.disk.bytes, CommitAll(w.c, w.rules, before, batch[k..]), |before|);
      PartwayGrows(w.log.codec, w.log.disk.bytes, full, |before|, full, |base|);
    }
  }

  lemma FinishedIsPartway(w: LogWriter, full: seq<Record>, base: seq<Record>)
    requires w.log.Sound() && w.log.records == full && |base| <= |full|
    ensures Partway(w.log.codec, w.log.disk.bytes, full, |base|)
  {
    WholeIsPartway(w.log.codec, full, full);
    PartwayGrows(w.log.codec, w.log.disk.bytes, full, |full|, full, |base|);
  }

  /** What befalls one process life: the condition it finds the intent file in, and the
      fates of its durable operations up to the one it dies at. */
  datatype Life = Life(intent: Intent, fates: seq<Fate>)

  /** Resend one batch, life after life, whether or not earlier answers were heard. When
      a life at last runs undisturbed and the log can take every proposal, the log is the
      base and the batch, once, and the answer is that of an append that was never
      interrupted. No batch is ever appended otherwise or answered otherwise; but one the
      log cannot take locks the file it lands in. */
  method RetryUntilDone(c: Crypto, rules: Rules, codec: Codec, disk: Disk, maxBytes: nat, head: Id,
                        proposals: seq<Proposal>, lives: seq<Life>, ghost base: seq<Record>)
    returns (outcome: Outcome<BatchAppend>)
    requires Collisionless(c) && Faithful(codec) && OnlyCanonical(codec)
    requires Lawful(RegimeOf(c, rules), base) && head == HeadOf(base)
    requires AllFramable(codec, base) && disk.bytes == Encoded(codec, base) && |disk.bytes| <= maxBytes
    modifies disk
    ensures Partway(codec, disk.bytes, CommitAll(c, rules, base, SortBatch(c, proposals)), |base|)
    ensures outcome.Ok? ==>
      var full := CommitAll(c, rules, base, SortBatch(c, proposals));
      && AllFramable(codec, full) && disk.bytes == Encoded(codec, full)
      && Answered(c, rules, base, SortBatch(c, proposals), full, outcome.value)
      && (LockedOut(c, rules, codec, disk.bytes) <==> !AllAdmissible(rules, SortBatch(c, proposals)))
    ensures outcome.Err? ==> !outcome.error.HeadConflict?
    ensures (&& AllAdmissible(rules, SortBatch(c, proposals))
             && HasRoomFor(codec, maxBytes, CommitAll(c, rules, base, SortBatch(c, proposals)))) ==>
            outcome.Ok?
  {
    hide Lawful, CommitAll, SortBatch, HeadOf, Partway, Encoded, AllFramable, Collisionless, Faithful, OnlyCanonical,
         AllAdmissible, RegimeOf, HasRoomFor, Answered, LockedOut;
    ghost var full := CommitAll(c, rules, base, SortBatch(c, proposals));
    WholeIsPartway(codec, base, full);
    var i := 0;
    while i < |lives|
      invariant 0 <= i <= |lives|
      invariant Partway(codec, disk.bytes, full, |base|) && |disk.bytes| <= maxBytes
    {
      disk.intent, disk.fates := lives[i].intent, lives[i].fates;
      var _ := Attempt(c, rules, codec, disk, maxBytes, head, proposals, base);
      i := i + 1;
    }
    disk.fates := [];
    outcome := Attempt(c, rules, codec, disk, maxBytes, head, proposals, base);
    if outcome.Ok? {
      LandedIsLockedOut(c, rules, codec, base, SortBatch(c, proposals));
    }
  }

  /** A batch that landed whole. */
  lemma LandedIsLockedOut(c: Crypto, rules: Rules, codec: Codec, base: seq<Record>, batch: seq<Proposal>)
    requires Collisionless(c) && Faithful(codec) && Lawful(RegimeOf(c, rules), base)
    requires AllFramable(codec, CommitAll(c, rules, base, batch))
    ensures LockedOut(c, rules, codec, Encoded(codec, CommitAll(c, rules, base, batch))) <==>
            !AllAdmissible(rules, batch)
  {
    hide Lawful, CommitAll, Encoded, AllFramable, Collisionless, Faithful, AllAdmissible, RegimeOf, LockedOut;
    var full := CommitAll(c, rules, base, batch);
    WholeIsPartway(codec, full, full);
    PartwayReadsBack(codec, Encoded(codec, full), full, |full|);
    PartwayGrows(codec, Encoded(codec, full), full, |full|, full, |base|);
    LockedOutExactly(c, rules, codec, Encoded(codec, full), base, batch);
    assert batch[..|batch|] == batch;
  }

  /** Once locked out, always: whatever befalls the lives to come, each is refused. */
  method RetryLockedOut(c: Crypto, rules: Rules, codec: Codec, disk: Disk, maxBytes: nat, head: Id,
                        proposals: seq<Proposal>, lives: seq<Life>, ghost base: seq<Record>)
    returns (outcomes: seq<Outcome<BatchAppend>>)
    requires Collisionless(c) && Faithful(codec) && OnlyCanonical(codec)
    requires Lawful(RegimeOf(c, rules), base) && head == HeadOf(base)
    requires Partway(codec, disk.bytes, CommitAll(c, rules, base, SortBatch(c, proposals)), |base|)
    requires |disk.bytes| <= maxBytes && LockedOut(c, rules, codec, disk.bytes)
    modifies disk
    ensures LockedOut(c, rules, codec, disk.bytes)
    ensures |outcomes| == |lives| && forall i :: 0 <= i < |lives| ==> outcomes[i].Err?
  {
    hide Lawful, CommitAll, SortBatch, HeadOf, Partway, Collisionless, Faithful, OnlyCanonical, RegimeOf, LockedOut,
         Answered, Encoded, AllFramable, AllAdmissible, HasRoomFor;
    ghost var full := CommitAll(c, rules, base, SortBatch(c, proposals));
    outcomes := [];
    while |outcomes| < |lives|
      invariant |outcomes| <= |lives| && forall i :: 0 <= i < |outcomes| ==> outcomes[i].Err?
      invariant Partway(codec, disk.bytes, full, |base|) && |disk.bytes| <= maxBytes
      invariant LockedOut(c, rules, codec, disk.bytes)
    {
      disk.intent, disk.fates := lives[|outcomes|].intent, lives[|outcomes|].fates;
      var outcome := Attempt(c, rules, codec, disk, maxBytes, head, proposals, base);
      outcomes := outcomes + [outcome];
    }
  }
}
