// Durable storage under faults: a disk whose operations may fail part-way, the file log
// on it, and what the file can hold after any failure.
module Storage {
  import opened Records
  import opened Frames

  datatype LogError =
    | Io | SizeLimit | RecordTooLarge | TimeExhausted | RecoveryRequired | RulesMismatch | StateMismatch
    | PayloadUndecodable | CorruptedRecovery
    | HeadConflict(expected: Id, actual: Id)
    | InvalidExistingLog(reason: Option<ReasonCode>)

  datatype Outcome<T> = Ok(value: T) | Err(error: LogError)

  /** The crash marker beside the log, in whatever condition a crash left it. */
  datatype Intent = NoIntent | CommitIntent(subject: Id, written: bool) | TornIntent

  /** What becomes of one durable operation: it completes, or reports an error after
      having written some of its bytes. */
  datatype Fate = Completes | Fails(after: nat)

  class Disk {
    var bytes: seq<Byte>
    var intent: Intent
    /** The fates of the operations to come; once used up, every operation completes. */
    var fates: seq<Fate>

    method NextFate() returns (fate: Fate)
      modifies this`fates
      ensures old(fates) == [] ==> fate == Completes && fates == []
    {
      if fates == [] {
        fate := Completes;
      } else {
        fate, fates := fates[0], fates[1..];
      }
    }

    /** Append and sync; on an error any prefix of the data may have reached the file. */
    method Append(data: seq<Byte>) returns (ok: bool)
      modifies this
      ensures intent == old(intent)
      ensures ok ==> bytes == old(bytes) + data
      ensures exists n :: 0 <= n <= |data| && bytes == old(bytes) + data[..n]
      ensures old(fates) == [] ==> ok && fates == []
    {
      var fate := NextFate();
      match fate {
        case Completes =>
          assert data[..|data|] == data;
          bytes := bytes + data;
          ok := true;
        case Fails(n) =>
          var reached := if n <= |data| then n else |data|;
          bytes := bytes + data[..reached];
          ok := false;
      }
    }

    /** Cut the file and sync; an error may come before the cut or after it. */
    method Truncate(n: nat) returns (ok: bool)
      requires n <= |bytes|
      modifies this
      ensures intent == old(intent)
      ensures bytes == old(bytes)[..n] || (!ok && bytes == old(bytes))
      ensures old(fates) == [] ==> ok && fates == []
    {
      var fate := NextFate();
      ok := fate.Completes?;
      if ok || fate.after > 0 {
        bytes := bytes[..n];
      }
    }

    /** Replace the intent file atomically: afterwards it is the old one or the new one,
        also when the operation reports an error. */
    method SetIntent(i: Intent) returns (ok: bool)
      modifies this
      ensures bytes == old(bytes)
      ensures intent == i || (!ok && intent == old(intent))
      ensures old(fates) == [] ==> ok && fates == []
    {
      var fate := NextFate();
      ok := fate.Completes?;
      if ok || fate.after > 0 {
        intent := i;
      }
    }

    /** Remove the intent file, in whatever condition it is; nothing to do without one. */
    method ClearIntent() returns (ok: bool)
      modifies this
      ensures bytes == old(bytes)
      ensures ok ==> intent == NoIntent
      ensures old(fates) == [] ==> ok && fates == []
    {
      ok := true;
      if intent != NoIntent {
        ok := SetIntent(NoIntent);
      }
    }
  }

  // ----- What a file can hold -----------------------------------------------------------

  /** The first `m` records whole, then possibly a cut-short frame. */
  ghost predicate Holds(k: Codec, bytes: seq<Byte>, log: seq<Record>, m: nat) {
    && m <= |log|
    && AllFramable(k, log[..m])
    && exists tail :: bytes == Encoded(k, log[..m]) + tail && TornFrame(tail)
  }

  /** A file somewhere between the first `lo` records of a log and all of them. */
  ghost predicate Partway(k: Codec, bytes: seq<Byte>, log: seq<Record>, lo: nat) {
    exists m :: lo <= m && Holds(k, bytes, log, m)
  }

  /** Reading such a file finds exactly the whole records. */
  lemma PartwayReadsBack(k: Codec, bytes: seq<Byte>, log: seq<Record>, lo: nat)
    requires Faithful(k) && Partway(k, bytes, log, lo)
    ensures var read := ReadFrom(k, bytes, 0);
            read.Found? && lo <= |read.records| && read.records <= log
  {
    var m :| lo <= m && Holds(k, bytes, log, m);
    var tail :| bytes == Encoded(k, log[..m]) + tail && TornFrame(tail);
    TornTailIsDropped(k, log[..m], tail);
  }

  lemma WholeHolds(k: Codec, log: seq<Record>, m: nat)
    requires m <= |log| && AllFramable(k, log[..m])
    ensures Holds(k, Encoded(k, log[..m]), log, m)
  {
    EmptyTailIsTorn();
    assert Encoded(k, log[..m]) == Encoded(k, log[..m]) + [];
  }

  lemma NothingIsFramable(k: Codec)
    ensures AllFramable(k, []) && Encoded(k, []) == []
  {
  }

  /** Whatever a readable file is, it holds what is read from it. */
  lemma ReadableHolds(k: Codec, bytes: seq<Byte>, log: seq<Record>)
    requires OnlyCanonical(k) && ReadFrom(k, bytes, 0).Found? && ReadFrom(k, bytes, 0).records <= log
    ensures var read := ReadFrom(k, bytes, 0);
            && AllFramable(k, read.records) && read.valid <= |bytes|
            && bytes[..read.valid] == Encoded(k, read.records)
            && Holds(k, bytes, log, |read.records|)
  {
    hide ReadFrom, AllFramable, TornFrame, OnlyCanonical;
    var read := ReadFrom(k, bytes, 0);
    assert [] + read.records == read.records;
    NothingIsFramable(k);
    ReadIsEncoded(k, bytes, 0, []);
    LeftoverIsTorn(k, bytes, 0);
    assert bytes == bytes[..read.valid] + bytes[read.valid..];
    assert log[..|read.records|] == read.records;
  }

  lemma EncodedStep(k: Codec, log: seq<Record>, m: nat)
    requires m < |log| && AllFramable(k, log[..m]) && Framable(k, log[m])
    ensures AllFramable(k, log[..m + 1])
    ensures Encoded(k, log[..m + 1]) == Encoded(k, log[..m]) + FrameOf(k, log[m])
  {
    assert log[..m + 1] == log[..m] + [log[m]];
    assert (log[..m] + [log[m]])[..m] == log[..m];
  }

  /** However far one append got, the file holds the log up to or past that record. */
  lemma AppendHolds(k: Codec, log: seq<Record>, m: nat, n: nat)
    requires m < |log| && AllFramable(k, log[..m]) && Framable(k, log[m])
    requires n <= |FrameOf(k, log[m])|
    ensures var bytes := Encoded(k, log[..m]) + FrameOf(k, log[m])[..n];
            Holds(k, bytes, log, m) || Holds(k, bytes, log, m + 1)
  {
    var f := FrameOf(k, log[m]);
    if n == |f| {
      EncodedStep(k, log, m);
      assert f[..n] == f;
      WholeHolds(k, log, m + 1);
    } else {
      assert f[..n] < Frame(k.encode(log[m]));
      assert TornFrame(f[..n]);
    }
  }

  /** Part-way through a prefix of a log is part-way through the log. */
  lemma PartwayGrows(k: Codec, bytes: seq<Byte>, log: seq<Record>, lo: nat, longer: seq<Record>, lower: nat)
    requires Partway(k, bytes, log, lo) && log <= longer && lower <= lo
    ensures Partway(k, bytes, longer, lower)
  {
    var m :| lo <= m && Holds(k, bytes, log, m);
    assert log[..m] == longer[..m];
    assert Holds(k, bytes, longer, m);
  }

  lemma StaysPartway(k: Codec, records: seq<Record>, r: Record)
    requires AllFramable(k, records)
    ensures Partway(k, Encoded(k, records), records + [r], |records|)
  {
    assert (records + [r])[..|records|] == records;
    WholeHolds(k, records + [r], |records|);
  }

  lemma OneMoreFits(k: Codec, records: seq<Record>, r: Record)
    requires AllFramable(k, records + [r])
    ensures AllFramable(k, records) && Framable(k, r)
    ensures Encoded(k, records + [r]) == Encoded(k, records) + FrameOf(k, r)
  {
    assert r in records + [r];
    assert forall x :: x in records ==> x in records + [r];
    assert (records + [r])[..|records|] == records;
  }

  lemma OneMoreFrame(k: Codec, records: seq<Record>, r: Record)
    requires AllFramable(k, records) && Framable(k, r)
    ensures AllFramable(k, records + [r])
    ensures |Encoded(k, records + [r])| == |Encoded(k, records)| + 4 + |k.encode(r)|
  {
    assert (records + [r])[..|records|] == records;
  }

  lemma NotAllFramable(k: Codec, records: seq<Record>, r: Record)
    requires r in records && |k.encode(r)| > U32_MAX
    ensures !AllFramable(k, records)
  {
    assert !Framable(k, r);
  }

  lemma AppendIsPartway(k: Codec, records: seq<Record>, r: Record, n: nat)
    requires AllFramable(k, records) && Framable(k, r) && n <= |FrameOf(k, r)|
    ensures Partway(k, Encoded(k, records) + FrameOf(k, r)[..n], records + [r], |records|)
  {
    hide Encoded, Holds, FrameOf;
    var longer := records + [r];
    assert longer[..|records|] == records && longer[|records|] == r;
    AppendHolds(k, longer, |records|, n);
  }

  // ----- The file log -----------------------------------------------------------------------

  ghost predicate Indexes(index: map<Id, nat>, records: seq<Record>) {
    && (forall id :: id in index ==> index[id] < |records| && records[index[id]].id == id)
    && (forall i :: 0 <= i < |records| ==> records[i].id in index)
  }

  class FileLog {
    const codec: Codec
    const disk: Disk
    const maxBytes: nat
    var records: seq<Record>
    var index: map<Id, nat>

    /** The file holds exactly the records in memory, within the size bound. */
    ghost predicate Sound()
      reads this, disk
    {
      && AllFramable(codec, records)
      && disk.bytes == Encoded(codec, records)
      && |disk.bytes| <= maxBytes
      && Indexes(index, records)
    }

    constructor (codec: Codec, disk: Disk, maxBytes: nat, records: seq<Record>)
      ensures this.codec == codec && this.disk == disk && this.maxBytes == maxBytes && this.records == records
      ensures Indexes(this.index, records)
    {
      this.codec, this.disk, this.maxBytes, this.records := codec, disk, maxBytes, records;
      this.index := IndexOf(records);
    }

    /** `FileLog::open`: refuse an oversized file, read the whole frames, drop a torn tail. */
    static method Open(codec: Codec, disk: Disk, maxBytes: nat) returns (outcome: Outcome<FileLog>)
      modifies disk
      ensures disk.intent == old(disk.intent)
      ensures outcome.Err? ==> outcome.error in {SizeLimit, Io}
      ensures outcome.Err? && disk.bytes != old(disk.bytes) ==>
        && var read := ReadFrom(codec, old(disk.bytes), 0);
        && |old(disk.bytes)| <= maxBytes
        && read.Found? && read.valid <= |old(disk.bytes)| && disk.bytes == old(disk.bytes)[..read.valid]
      ensures outcome.Ok? ==>
        && var log := outcome.value;
        && fresh(log) && log.codec == codec && log.disk == disk && log.maxBytes == maxBytes
        && Indexes(log.index, log.records)
        && var read := ReadFrom(codec, old(disk.bytes), 0);
        && read.Found? && log.records == read.records
        && read.valid <= |old(disk.bytes)| <= maxBytes && disk.bytes == old(disk.bytes)[..read.valid]
      ensures old(disk.fates) == [] ==> disk.fates == []
      ensures old(disk.fates) == [] && |old(disk.bytes)| <= maxBytes && ReadFrom(codec, old(disk.bytes), 0).Found? ==>
        outcome.Ok?
    {
      if |disk.bytes| > maxBytes {
        return Err(SizeLimit);
      }
      var read := ReadAll(codec, disk.bytes);
      if read.Undecodable? {
        return Err(Io);
      }
      TruncationIsIdempotent(codec, disk.bytes, 0);
      if read.valid < |disk.bytes| {
        var ok := disk.Truncate(read.valid);
        if !ok {
          return Err(Io);
        }
      } else {
        assert disk.bytes[..read.valid] == disk.bytes;
      }
      var log := new FileLog(codec, disk, maxBytes, read.records);
      return Ok(log);
    }

    /** Whether frames for all these records fit the remaining capacity together. */
    method EnsureCapacityFor(batch: seq<Record>) returns (error: Option<LogError>)
      requires Sound()
      ensures error.None? <==> AllFramable(codec, records + batch) && |Encoded(codec, records + batch)| <= maxBytes
      ensures error.Some? ==> error.value in {RecordTooLarge, SizeLimit}
    {
      hide Encoded, AllFramable;
      var projected := |disk.bytes|;
      var i := 0;
      assert records + batch[..0] == records;
      while i < |batch|
        invariant 0 <= i <= |batch|
        invariant AllFramable(codec, records + batch[..i])
        invariant projected == |Encoded(codec, records + batch[..i])|
      {
        var r := batch[i];
        if |codec.encode(r)| > U32_MAX {
          NotAllFramable(codec, records + batch, r);
          return Some(RecordTooLarge);
        }
        assert records + batch[..i + 1] == (records + batch[..i]) + [r];
        OneMoreFrame(codec, records + batch[..i], r);
        projected := projected + 4 + |codec.encode(r)|;
        i := i + 1;
      }
      assert batch[..i] == batch;
      if projected > maxBytes {
        return Some(SizeLimit);
      }
      return None;
    }

    /** Append one record; refuses up front what does not fit. */
    method Append(r: Record) returns (error: Option<LogError>)
      requires Sound()
      modifies this, disk
      ensures disk.intent == old(disk.intent)
      ensures error.None? ==> Sound() && records == old(records) + [r]
      ensures error.Some? ==> records == old(records) && error.value in {RecordTooLarge, SizeLimit, Io}
      ensures error.Some? && error.value != Io ==> disk.bytes == old(disk.bytes) && Sound()
      ensures |disk.bytes| <= maxBytes
      ensures Partway(codec, disk.bytes, old(records) + [r], |old(records)|)
      ensures old(disk.fates) == [] ==> disk.fates == [] && error != Some(Io)
      ensures AllFramable(codec, old(records) + [r]) && |Encoded(codec, old(records) + [r])| <= maxBytes ==>
        error.None? || error == Some(Io)
    {
      hide Encoded, Holds, AllFramable, FrameOf, TornFrame;
      StaysPartway(codec, records, r);
      error := EnsureCapacityFor([r]);
      if error.Some? {
        return;
      }
      OneMoreFits(codec, records, r);
      var frame := FrameOf(codec, r);
      var ok := disk.Append(frame);
      ghost var n :| 0 <= n <= |frame| && disk.bytes == old(disk.bytes) + frame[..n];
      AppendIsPartway(codec, records, r, n);
      if !ok {
        return Some(Io);
      }
      index := index[r.id := |records|];
      records := records + [r];
    }

    /** `get`: the record the index holds for an id. */
    method Get(id: Id) returns (r: Option<Record>)
      requires Indexes(index, records)
      ensures r.Some? <==> exists i :: 0 <= i < |records| && records[i].id == id
      ensures r.Some? ==> r.value in records && r.value.id == id
    {
      if id in index {
        r := Some(records[index[id]]);
      } else {
        r := None;
      }
    }
  }

  /** Positions by id; a later record with the same id overwrites. */
  function IndexOf(records: seq<Record>): (index: map<Id, nat>)
    ensures Indexes(index, records)
  {
    if records == [] then map[]
    else
      var front := records[..|records| - 1];
      assert forall i :: 0 <= i < |front| ==> records[i] == front[i];
      IndexOf(front)[records[|records| - 1].id := |records| - 1]
  }
}
