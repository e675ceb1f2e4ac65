// Opening a log after any crash, and what a client that keeps retrying one batch gets.
module Recovery {
  import opened Records
  import opened Rules
  import opened Checks
  import opened Ledger
  import opened Replay
  import opened Build
  import opened Commits
  import opened Frames
  import opened Storage
  import opened Writer

  // ----- What recovery leaves -----------------------------------------------------------

  predicate EndsUnjudged(records: seq<Record>) {
    records != [] && records[|records| - 1].kind != Verdict
  }

  /** Everything but a trailing subject whose verdict is still owed. */
  function CompletePairs(records: seq<Record>): seq<Record> {
    if EndsUnjudged(records) then records[..|records| - 1] else records
  }

  /** The log with the owed verdict, recomputed from what precedes its subject. */
  ghost function Repaired(c: Crypto, rules: Rules, records: seq<Record>): (out: seq<Record>)
    ensures records <= out
  {
    if EndsUnjudged(records)
    then records + [VerdictOn(c, rules, CompletePairs(records), records[|records| - 1])]
    else records
  }

  /** How many proposals of a batch have at least their subject in the log. */
  function Begun(base: seq<Record>, records: seq<Record>): nat
    requires |base| <= |records|
  {
    (|records| - |base| + 1) / 2
  }

  /** Wherever a batch stopped, repair completes the pair it stopped in: the verdict it
      computes is the verdict the commit would have written. The one thing it cannot
      complete is a lone subject that is itself a verdict. */
  lemma RepairCompletes(c: Crypto, rules: Rules, base: seq<Record>, batch: seq<Proposal>, records: seq<Record>)
    requires Lawful(RegimeOf(c, rules), base)
    requires base <= records <= CommitAll(c, rules, base, batch)
    ensures RepairedAt(c, rules, base, batch, records, Begun(base, records))
  {
    hide Lawful, RegimeOf, CommitAll, RepairedAt;
    if |records| == |base| {
      NothingBegun(c, rules, base, batch);
      assert records == base;
    } else {
      BegunIsRepaired(c, rules, base, batch, records);
    }
  }

  /** Repair leaves the first `n` pairs of the batch, but for a lone verdict at the end. */
  ghost predicate RepairedAt(c: Crypto, rules: Rules, base: seq<Record>, batch: seq<Proposal>, records: seq<Record>,
                             n: nat)
  {
    && n <= |batch|
    && Repaired(c, rules, records) <= CommitAll(c, rules, base, batch)
    && if n > 0 && |records| < |base| + 2 * n && batch[n - 1].kind == Verdict
       then Repaired(c, rules, records) == records
       else Repaired(c, rules, records) == CommitAll(c, rules, base, batch[..n])
  }

  lemma NothingBegun(c: Crypto, rules: Rules, base: seq<Record>, batch: seq<Proposal>)
    requires Lawful(RegimeOf(c, rules), base)
    ensures RepairedAt(c, rules, base, batch, base, 0)
  {
    hide Lawful, CommitPair, RegimeOf, CommitAll, Repaired;
    EmptyBatch(c, rules, base);
    assert batch[..0] == [];
    WholeNeedsNoRepair(c, rules, base);
  }

  lemma BegunIsRepaired(c: Crypto, rules: Rules, base: seq<Record>, batch: seq<Proposal>, records: seq<Record>)
    requires base < records <= CommitAll(c, rules, base, batch)
    ensures RepairedAt(c, rules, base, batch, records, Begun(base, records))
  {
    hide CommitPair, CommitAll, Repaired;
    var n, whole := Begun(base, records), CommitAll(c, rules, base, batch);
    BatchStep(c, rules, base, batch, n - 1);
    var before := CommitAll(c, rules, base, batch[..n - 1]);
    var after := CommitAll(c, rules, base, batch[..n]);
    assert after == before + CommitPair(c, rules, before, batch[n - 1]) && |before| == |base| + 2 * n - 2;
    PrefixesNest(before, records, whole);
    PrefixesNest(records, after, whole);
    PairIsRepaired(c, rules, before, batch[n - 1], records);
    if |records| > |before| + 1 || batch[n - 1].kind != Verdict {
      assert Repaired(c, rules, records) == after;
    }
  }

  /** So the repaired log replays exactly when every proposal of the batch that reached the
      file at all is one a log can take. */
  lemma RepairedReplays(c: Crypto, rules: Rules, base: seq<Record>, batch: seq<Proposal>, records: seq<Record>)
    requires Collisionless(c) && Lawful(RegimeOf(c, rules), base)
    requires base <= records <= CommitAll(c, rules, base, batch)
    ensures var n := Begun(base, records);
            && n <= |batch|
            && Repaired(c, rules, records) <= CommitAll(c, rules, base, batch)
            && (Lawful(RegimeOf(c, rules), Repaired(c, rules, records)) <==> AllAdmissible(rules, batch[..n]))
            && (Lawful(RegimeOf(c, rules), Repaired(c, rules, records)) ==>
                  Repaired(c, rules, records) == CommitAll(c, rules, base, batch[..n]))
  {
    hide Lawful, CommitPair, RegimeOf, CommitAll, Repaired, Collisionless;
    var n := Begun(base, records);
    RepairCompletes(c, rules, base, batch, records);
    BatchReplays(c, rules, base, batch[..n]);
    VerifiedIsPaired(RegimeOf(c, rules), base);
    if |records| < |base| + 2 * n && batch[n - 1].kind == Verdict {
      assert !Admissible(rules, batch[..n][n - 1]);
      if Lawful(RegimeOf(c, rules), records) {
        VerifiedIsPaired(RegimeOf(c, rules), records);
      }
    }
  }

  lemma PrefixesNest(a: seq<Record>, b: seq<Record>, whole: seq<Record>)
    requires a <= whole && b <= whole && |a| <= |b|
    ensures a <= b
  {
  }

  lemma WholeNeedsNoRepair(c: Crypto, rules: Rules, records: seq<Record>)
    requires Lawful(RegimeOf(c, rules), records)
    ensures Repaired(c, rules, records) == records
  {
    hide Lawful, VerdictOn, RegimeOf;
    EndsWithVerdict(RegimeOf(c, rules), records);
  }

  /** A log that stops after a subject gets that subject's verdict, unless the subject is
      a verdict; one that stops after the pair is left alone. */
  lemma PairIsRepaired(c: Crypto, rules: Rules, before: seq<Record>, p: Proposal, records: seq<Record>)
    requires before < records <= before + CommitPair(c, rules, before, p)
    ensures if |records| == |before| + 1 && p.kind == Verdict
            then Repaired(c, rules, records) == records
            else Repaired(c, rules, records) == before + CommitPair(c, rules, before, p)
  {
    hide CommitPair, VerdictOn;
    var after := before + CommitPair(c, rules, before, p);
    SubjectIsNext(c, rules, before, p);
    assert records == after[..|records|];
    if |records| == |before| + 1 {
      assert records[..|records| - 1] == before;
      assert after == records + [after[|records|]];
    }
  }

  lemma EndsWithVerdict(reg: Regime, records: seq<Record>)
    requires Lawful(reg, records)
    ensures !EndsUnjudged(records)
  {
    hide Lawful;
    VerifiedIsPaired(reg, records);
    if records != [] {
      PositionFacts(reg, records, |records| - 1);
    }
  }

  lemma SubjectIsNext(c: Crypto, rules: Rules, log: seq<Record>, p: Proposal)
    ensures var pair := CommitPair(c, rules, log, p);
            && pair[0].kind == p.kind
            && pair[1] == VerdictOn(c, rules, log, pair[0]) && pair[1].kind == Verdict
  {
    hide Judge, PriorOf, Built, Materialize;
    SubjectShape(c, PriorOf(log), Built(log), |log| + 1, p);
  }

  // ----- Recovery and open ----------------------------------------------------------------

  /** Room for a whole log: its frames fit the file and its times the clock. */
  ghost predicate HasRoomFor(codec: Codec, maxBytes: nat, full: seq<Record>) {
    AllFramable(codec, full) && |Encoded(codec, full)| <= maxBytes && |full| < TIME_MAX
  }

  lemma PrefixHasRoom(codec: Codec, maxBytes: nat, records: seq<Record>, full: seq<Record>)
    requires records <= full && HasRoomFor(codec, maxBytes, full)
    ensures HasRoomFor(codec, maxBytes, records)
  {
    var rest := full[|records|..];
    assert full == records + rest;
    assert forall r :: r in records ==> r in full;
    EncodedSplits(codec, records, rest);
  }

  /** Reserving room for the pair before the first write is enough: wherever the commit
      stops, both its appends and the one recovery may owe fit. */
  lemma PreflightCoversRecovery(c: Crypto, rules: Rules, codec: Codec, maxBytes: nat, log: seq<Record>, p: Proposal,
                                records: seq<Record>)
    requires Lawful(RegimeOf(c, rules), log)
    requires HasRoomFor(codec, maxBytes, log + CommitPair(c, rules, log, p))
    requires log <= records <= log + CommitPair(c, rules, log, p)
    ensures HasRoomFor(codec, maxBytes, records) && HasRoomFor(codec, maxBytes, Repaired(c, rules, records))
  {
    hide Lawful, RegimeOf, CommitPair, VerdictOn, HasRoomFor;
    var after := log + CommitPair(c, rules, log, p);
    PrefixHasRoom(codec, maxBytes, records, after);
    SubjectIsNext(c, rules, log, p);
    if |records| == |log| {
      WholeNeedsNoRepair(c, rules, log);
    } else if |records| == |log| + 1 {
      assert records == log + [CommitPair(c, rules, log, p)[0]];
      assert records[..|records| - 1] == log;
      if EndsUnjudged(records) {
        assert after == records + [CommitPair(c, rules, log, p)[1]];
      }
    } else {
      assert records == after;
    }
  }

  /** `recover`: the log tail alone decides; the intent file is only cleared. */
  method Recover(c: Crypto, rules: Rules, log: FileLog) returns (error: Option<LogError>)
    requires Collisionless(c) && log.Sound() && Lawful(RegimeOf(c, rules), CompletePairs(log.records))
    modifies log, log.disk
    ensures error.None? ==>
      log.Sound() && log.records == Repaired(c, rules, old(log.records)) && log.disk.intent == NoIntent
    ensures Partway(log.codec, log.disk.bytes, Repaired(c, rules, old(log.records)), |old(log.records)|)
    ensures |log.disk.bytes| <= log.maxBytes
    ensures error.Some? ==> !error.value.HeadConflict?
    ensures old(log.disk.fates) == [] ==> log.disk.fates == []
    ensures (&& old(log.disk.fates) == [] && Lawful(RegimeOf(c, rules), Repaired(c, rules, old(log.records)))
             && HasRoomFor(log.codec, log.maxBytes, Repaired(c, rules, old(log.records)))) ==> error.None?
  {
    hide Lawful, Judge, Built, PriorOf, MaterializeVerdict, Decodable, Partway, Encoded, AllFramable;
    WholeIsPartway(log.codec, log.records, Repaired(c, rules, log.records));
    if EndsUnjudged(log.records) {
      error := AppendOwedVerdict(c, rules, log);
      if error.Some? {
        return;
      }
    }
    var ok := log.disk.ClearIntent();
    return if ok then None else Some(Io);
  }

  method AppendOwedVerdict(c: Crypto, rules: Rules, log: FileLog) returns (error: Option<LogError>)
    requires Collisionless(c) && log.Sound() && Lawful(RegimeOf(c, rules), CompletePairs(log.records))
    requires EndsUnjudged(log.records)
    modifies log, log.disk
    ensures log.disk.intent == old(log.disk.intent)
    ensures error.None? ==> log.Sound() && log.records == Repaired(c, rules, old(log.records))
    ensures Partway(log.codec, log.disk.bytes, Repaired(c, rules, old(log.records)), |old(log.records)|)
    ensures |log.disk.bytes| <= log.maxBytes
    ensures error.Some? ==> !error.value.HeadConflict?
    ensures old(log.disk.fates) == [] ==> log.disk.fates == []
    ensures (&& old(log.disk.fates) == [] && Lawful(RegimeOf(c, rules), Repaired(c, rules, old(log.records)))
             && HasRoomFor(log.codec, log.maxBytes, Repaired(c, rules, old(log.records)))) ==> error.None?
  {
    hide Lawful, Partway, RegimeOf, Encoded, AllFramable, VerdictOn, CompletePairs, Indexes, Collisionless;
    ghost var before := log.records;
    WholeIsPartway(log.codec, before, Repaired(c, rules, before));
    var prior, subject := CompletePairs(log.records), log.records[|log.records| - 1];
    if Lawful(RegimeOf(c, rules), Repaired(c, rules, before)) {
      PositionFacts(RegimeOf(c, rules), Repaired(c, rules, before), |before| - 1);
      assert Repaired(c, rules, before)[|before| - 1] == subject;
    }
    if subject.time >= U64_MAX {
      return Some(TimeExhausted);
    }
    var verdict := OwedVerdict(c, rules, prior, subject);
    error := log.Append(verdict);
  }

  /** The verdict of a subject, from nothing but the records before it. */
  method OwedVerdict(c: Crypto, rules: Rules, prior: seq<Record>, subject: Record) returns (verdict: Record)
    requires Collisionless(c) && Lawful(RegimeOf(c, rules), prior)
    ensures verdict == VerdictOn(c, rules, prior, subject)
  {
    hide Lawful, Judge, Built, PriorOf, MaterializeVerdict, Decodable, RegimeOf;
    ReplayedLogBuilds(c, rules, prior);
    var _, state := BuildState(prior);
    var judgment := VerifyRecord(c, rules, PriorOf(prior), state.Now(), subject);
    verdict := MaterializeVerdict(c, subject, subject.time + 1, judgment);
  }

  /** `open`: read and truncate, verify the complete pairs, repair the tail, verify it all. */
  method Open(c: Crypto, rules: Rules, codec: Codec, disk: Disk, maxBytes: nat) returns (outcome: Outcome<LogWriter>)
    requires Collisionless(c) && OnlyCanonical(codec)
    modifies disk
    ensures outcome.Ok? ==>
      && var w := outcome.value;
      && fresh(w) && fresh(w.log) && w.c == c && w.rules == rules
      && w.log.disk == disk && w.log.codec == codec && w.log.maxBytes == maxBytes
      && w.Valid() && !w.recoveryRequired && disk.intent == NoIntent
      && ReadFrom(codec, old(disk.bytes), 0).Found?
      && w.log.records == Repaired(c, rules, ReadFrom(codec, old(disk.bytes), 0).records)
      && Lawful(RegimeOf(c, rules), w.log.records)
    ensures ReadFrom(codec, old(disk.bytes), 0).Undecodable? ==> disk.bytes == old(disk.bytes)
    ensures ReadFrom(codec, old(disk.bytes), 0).Found? ==>
      var found := ReadFrom(codec, old(disk.bytes), 0).records;
      Partway(codec, disk.bytes, Repaired(c, rules, found), |found|)
    ensures |old(disk.bytes)| <= maxBytes ==> |disk.bytes| <= maxBytes
    ensures outcome.Err? ==> !outcome.error.HeadConflict?
    ensures old(disk.fates) == [] ==> disk.fates == []
    ensures (&& old(disk.fates) == [] && |old(disk.bytes)| <= maxBytes && ReadFrom(codec, old(disk.bytes), 0).Found?
             && var full := Repaired(c, rules, ReadFrom(codec, old(disk.bytes), 0).records);
             && Lawful(RegimeOf(c, rules), full) && HasRoomFor(codec, maxBytes, full)) ==> outcome.Ok?
  {
    hide Lawful, Repaired, Partway, RegimeOf, ReadFrom, Encoded, Holds, CompletePairs, HasRoomFor, OnlyCanonical,
         Collisionless, Stamped, Indexes, AllFramable, StopsAt, FaultAt, Sequenced, Rejected;
    ghost var bytes := disk.bytes;
    ghost var found := ReadFrom(codec, bytes, 0);
    if found.Found? {
      ReadableIsPartway(codec, bytes, Repaired(c, rules, found.records));
      if Lawful(RegimeOf(c, rules), Repaired(c, rules, found.records)) {
        CompleteIsLawful(c, rules, found.records);
      }
    }
    var file := FileLog.Open(codec, disk, maxBytes);
    if found.Found? {
      WholeIsPartway(codec, found.records, Repaired(c, rules, found.records));
    }
    if file.Err? {
      return Err(file.error);
    }
    var log := file.value;
    var complete, _ := VerifyLog(c, rules, CompletePairs(log.records));
    if complete.reason.Some? {
      return Err(InvalidExistingLog(complete.reason));
    }
    var error := Recover(c, rules, log);
    if error.Some? {
      return Err(error.value);
    }
    var whole, _ := VerifyLog(c, rules, log.records);
    if whole.reason.Some? {
      return Err(InvalidExistingLog(whole.reason));
    }
    RegimeHolds(c, rules);
    LawfulIsStamped(RegimeOf(c, rules), log.records);
    var w := new LogWriter(c, rules, log);
    return Ok(w);
  }

  lemma ReadableIsPartway(codec: Codec, bytes: seq<Byte>, longer: seq<Record>)
    requires OnlyCanonical(codec) && ReadFrom(codec, bytes, 0).Found? && ReadFrom(codec, bytes, 0).records <= longer
    ensures var read := ReadFrom(codec, bytes, 0);
            && AllFramable(codec, read.records) && read.valid <= |bytes|
            && bytes[..read.valid] == Encoded(codec, read.records)
            && Partway(codec, bytes, longer, |read.records|)
  {
    ReadableHolds(codec, bytes, longer);
  }

  lemma CompleteIsLawful(c: Crypto, rules: Rules, records: seq<Record>)
    requires Lawful(RegimeOf(c, rules), Repaired(c, rules, records))
    ensures Lawful(RegimeOf(c, rules), CompletePairs(records))
  {
    hide Lawful, RegimeOf, VerdictOn;
    var full := Repaired(c, rules, records);
    VerifiedIsPaired(RegimeOf(c, rules), full);
    if EndsUnjudged(records) {
      PrefixVerified(RegimeOf(c, rules), full, |records| - 1);
      assert full[..|records| - 1] == CompletePairs(records);
    }
  }
}
