// The log file: length-prefixed frames, and reading them back past a torn tail.
module Frames {
  import opened Records

  type Byte = b: int | 0 <= b < 256

  /** Canonical serialization of a record and its inverse. */
  datatype Codec = Codec(encode: Record -> seq<Byte>, decode: seq<Byte> -> Option<Record>)

  /** Decoding what was encoded gives it back. */
  ghost predicate Faithful(k: Codec) {
    forall r: Record :: k.decode(k.encode(r)) == Some(r)
  }

  /** Only canonical bytes decode, so a decoded body is what encoding would write. */
  ghost predicate OnlyCanonical(k: Codec) {
    forall b: seq<Byte> :: k.decode(b).Some? ==> k.encode(k.decode(b).value) == b
  }

  // ----- Frames ---------------------------------------------------------------------

  function BigEndian(n: nat): (bytes: seq<Byte>)
    requires n <= U32_MAX
    ensures |bytes| == 4
  {
    var a: int, b: int, c: int, d: int := n / 0x100_0000, n / 0x1_0000 % 256, n / 256 % 256, n % 256;
    [a, b, c, d]
  }

  /** The most significant byte first. */
  lemma MostSignificantFirst(n: nat)
    requires n <= U32_MAX
    ensures var b := BigEndian(n);
            n == ((b[0] as int * 256 + b[1] as int) * 256 + b[2] as int) * 256 + b[3] as int
  {
    var a, b, c := n / 256, n / 0x1_0000, n / 0x100_0000;
    assert n == a * 256 + n % 256 && a == b * 256 + a % 256 && b == c * 256 + b % 256;
  }

  function LengthAt(data: seq<Byte>): nat
    requires |data| >= 4
  {
    var a: int, b: int, c: int, d: int := data[0], data[1], data[2], data[3];
    a * 0x100_0000 + b * 0x1_0000 + c * 256 + d
  }

  lemma LengthRoundTrips(n: nat, rest: seq<Byte>)
    requires n <= U32_MAX
    ensures LengthAt(BigEndian(n) + rest) == n
  {
    var a, b, c := n / 256, n / 0x1_0000, n / 0x100_0000;
    assert n == a * 256 + n % 256 && a == b * 256 + a % 256 && b == c * 256 + b % 256;
  }

  predicate Framable(k: Codec, r: Record) {
    |k.encode(r)| <= U32_MAX
  }

  function Frame(body: seq<Byte>): seq<Byte>
    requires |body| <= U32_MAX
  {
    BigEndian(|body|) + body
  }

  function FrameOf(k: Codec, r: Record): (f: seq<Byte>)
    requires Framable(k, r)
    ensures |f| == 4 + |k.encode(r)|
  {
    Frame(k.encode(r))
  }

  ghost predicate AllFramable(k: Codec, records: seq<Record>) {
    forall r :: r in records ==> Framable(k, r)
  }

  /** The bytes of a log file holding exactly these records. */
  ghost function Encoded(k: Codec, records: seq<Record>): seq<Byte>
    requires AllFramable(k, records)
  {
    if records == [] then []
    else Encoded(k, records[..|records| - 1]) + FrameOf(k, records[|records| - 1])
  }

  /** A frame cut short: what a crash in the middle of an append leaves behind. */
  ghost predicate TornFrame(tail: seq<Byte>) {
    exists body: seq<Byte> :: |body| <= U32_MAX && tail < Frame(body)
  }

  // ----- Reading ----------------------------------------------------------------------

  /** What reading a file finds: the complete records and where they end, or a complete
      frame whose body is not a record. */
  datatype Read = Found(records: seq<Record>, valid: nat) | Undecodable

  /** End of the frame starting at a cursor, if the file holds all of it. */
  function FrameEnd(data: seq<Byte>, cursor: nat): Option<nat>
    requires cursor <= |data|
  {
    if |data| - cursor < 4 then None
    else
      var end := cursor + 4 + LengthAt(data[cursor..]);
      if end <= |data| then Some(end) else None
  }

  ghost function ReadFrom(k: Codec, data: seq<Byte>, cursor: nat): Read
    requires cursor <= |data|
    decreases |data| - cursor
  {
    var end := FrameEnd(data, cursor);
    if end.None? then Found([], cursor)
    else
      var r := k.decode(data[cursor + 4..end.value]);
      if r.None? then Undecodable
      else
        var rest := ReadFrom(k, data, end.value);
        if rest.Undecodable? then Undecodable else Found([r.value] + rest.records, rest.valid)
  }

  /** `read_all_records`: advance a cursor frame by frame, stopping at a torn one. */
  method ReadAll(k: Codec, data: seq<Byte>) returns (read: Read)
    ensures read == ReadFrom(k, data, 0)
  {
    var records: seq<Record> := [];
    var cursor := 0;
    while FrameEnd(data, cursor).Some?
      invariant 0 <= cursor <= |data|
      invariant ReadFrom(k, data, 0) == Continued(records, ReadFrom(k, data, cursor))
      decreases |data| - cursor
    {
      var end := FrameEnd(data, cursor).value;
      var r := k.decode(data[cursor + 4..end]);
      if r.None? {
        return Undecodable;
      }
      assert records + [r.value] + [] == records + [r.value];
      ContinuedOnce(records, r.value, ReadFrom(k, data, end));
      records := records + [r.value];
      cursor := end;
    }
    assert records + [] == records;
    read := Found(records, cursor);
  }

  ghost function Continued(before: seq<Record>, rest: Read): Read {
    if rest.Undecodable? then Undecodable else Found(before + rest.records, rest.valid)
  }

  lemma ContinuedOnce(before: seq<Record>, r: Record, rest: Read)
    ensures Continued(before, Continued([r], rest)) == Continued(before + [r], rest)
  {
    if rest.Found? {
      assert before + ([r] + rest.records) == before + [r] + rest.records;
    }
  }

  // ----- Reading back what was written ------------------------------------------------------

  lemma TornEndsReading(data: seq<Byte>, cursor: nat)
    requires cursor <= |data| && TornFrame(data[cursor..])
    ensures FrameEnd(data, cursor).None?
  {
    var tail := data[cursor..];
    var body: seq<Byte> :| |body| <= U32_MAX && tail < Frame(body);
    if |tail| >= 4 {
      LengthRoundTrips(|body|, body);
      assert tail[0] == Frame(body)[0] && tail[1] == Frame(body)[1] && tail[2] == Frame(body)[2]
          && tail[3] == Frame(body)[3];
      assert LengthAt(tail) == |body|;
    }
  }

  lemma EmptyTailIsTorn()
    ensures TornFrame([])
  {
    var none: seq<Byte> := [];
    assert [] < Frame(none);
  }

  lemma FrameIsFound(k: Codec, before: seq<Byte>, r: Record, after: seq<Byte>)
    requires Faithful(k) && Framable(k, r)
    ensures var data := before + FrameOf(k, r) + after;
            var end := |before| + |FrameOf(k, r)|;
            FrameEnd(data, |before|) == Some(end) && k.decode(data[|before| + 4..end]) == Some(r)
  {
    var body := k.encode(r);
    var data := before + FrameOf(k, r) + after;
    assert data[|before|..] == BigEndian(|body|) + (body + after);
    LengthRoundTrips(|body|, body + after);
    assert data[|before| + 4..|before| + 4 + |body|] == body;
  }

  lemma ReadsOne(k: Codec, before: seq<Byte>, r: Record, after: seq<Byte>)
    requires Faithful(k) && Framable(k, r)
    ensures var data := before + FrameOf(k, r) + after;
            ReadFrom(k, data, |before|) == Continued([r], ReadFrom(k, data, |before + FrameOf(k, r)|))
  {
    FrameIsFound(k, before, r, after);
  }

  /** Reading a log from any earlier record boundary finds everything after it. */
  lemma {:induction false} ReadsBack(k: Codec, before: seq<Record>, records: seq<Record>, tail: seq<Byte>)
    requires Faithful(k) && AllFramable(k, before + records) && AllFramable(k, before) && TornFrame(tail)
    ensures Encoded(k, before) <= Encoded(k, before + records)
    ensures ReadFrom(k, Encoded(k, before + records) + tail, |Encoded(k, before)|)
         == Found(records, |Encoded(k, before + records)|)
    decreases |records|
  {
    hide TornFrame, FrameOf, ReadFrom, Faithful;
    EncodedSplits(k, before, records);
    var data := Encoded(k, before + records) + tail;
    if records == [] {
      assert before + records == before;
      assert data[|Encoded(k, before)|..] == tail;
      TornStops(k, data, |Encoded(k, before)|);
    } else {
      var r, rest := records[0], records[1..];
      var next := before + [r];
      assert next + rest == before + records;
      assert r in before + records;
      assert AllFramable(k, next);
      ReadsBack(k, next, rest, tail);
      assert next[..|before|] == before;
      var after := Encoded(k, before + records)[|Encoded(k, next)|..];
      assert data == Encoded(k, before) + FrameOf(k, r) + (after + tail);
      ReadsOne(k, Encoded(k, before), r, after + tail);
      assert [r] + rest == records;
    }
  }

  lemma TornStops(k: Codec, data: seq<Byte>, cursor: nat)
    requires cursor <= |data| && TornFrame(data[cursor..])
    ensures ReadFrom(k, data, cursor) == Found([], cursor)
  {
    TornEndsReading(data, cursor);
  }

  /** The bytes of a longer log extend the bytes of a shorter one. */
  lemma {:induction false} EncodedSplits(k: Codec, before: seq<Record>, after: seq<Record>)
    requires AllFramable(k, before + after) && AllFramable(k, before)
    ensures Encoded(k, before) <= Encoded(k, before + after)
    decreases |after|
  {
    if after == [] {
      assert before + after == before;
    } else {
      var front, last := after[..|after| - 1], after[|after| - 1];
      assert (before + after)[..|before + after| - 1] == before + front;
      assert (before + after)[|before + after| - 1] == last;
      assert forall r :: r in before + front ==> r in before + after;
      EncodedSplits(k, before, front);
      assert Encoded(k, before + after) == Encoded(k, before + front) + FrameOf(k, last);
    }
  }

  /** A file of whole frames and a torn one reads back as exactly the whole ones. */
  lemma TornTailIsDropped(k: Codec, records: seq<Record>, tail: seq<Byte>)
    requires Faithful(k) && AllFramable(k, records) && TornFrame(tail)
    ensures ReadFrom(k, Encoded(k, records) + tail, 0) == Found(records, |Encoded(k, records)|)
  {
    assert [] + records == records;
    ReadsBack(k, [], records, tail);
  }

  /** Truncating to the valid length loses nothing and is itself fully valid, whatever
      the file holds: opening twice is opening once. */
  lemma {:induction false} TruncationIsIdempotent(k: Codec, data: seq<Byte>, cursor: nat)
    requires cursor <= |data| && ReadFrom(k, data, cursor).Found?
    ensures var n := ReadFrom(k, data, cursor).valid;
            cursor <= n <= |data| && ReadFrom(k, data[..n], cursor) == ReadFrom(k, data, cursor)
    decreases |data| - cursor
  {
    var end := FrameEnd(data, cursor);
    if end.Some? {
      TruncationIsIdempotent(k, data, end.value);
      var n := ReadFrom(k, data, cursor).valid;
      assert data[..n][cursor + 4..end.value] == data[cursor + 4..end.value];
      assert forall i :: 0 <= i < 4 ==> data[..n][cursor..][i] == data[cursor..][i];
    }
  }

  // ----- Any readable file ---------------------------------------------------------------

  lemma LengthIsBigEndian(data: seq<Byte>)
    requires |data| >= 4
    ensures LengthAt(data) <= U32_MAX && BigEndian(LengthAt(data)) == data[..4]
  {
    var a: int, b: int, c: int, d: int := data[0], data[1], data[2], data[3];
    var n := LengthAt(data);
    assert n / 256 == a * 0x1_0000 + b * 256 + c && n % 256 == d;
    assert n / 0x1_0000 == a * 256 + b && n / 256 % 256 == c;
    assert n / 0x100_0000 == a && n / 0x1_0000 % 256 == b;
  }

  lemma FoundFrame(k: Codec, data: seq<Byte>, cursor: nat)
    requires OnlyCanonical(k) && cursor <= |data| && FrameEnd(data, cursor).Some?
    requires k.decode(data[cursor + 4..FrameEnd(data, cursor).value]).Some?
    ensures var end := FrameEnd(data, cursor).value;
            var r := k.decode(data[cursor + 4..end]).value;
            Framable(k, r) && data[cursor..end] == FrameOf(k, r)
  {
    LengthIsBigEndian(data[cursor..]);
    var end := FrameEnd(data, cursor).value;
    assert data[cursor..end] == data[cursor..][..4] + data[cursor + 4..end];
  }

  /** The part of a file that reads as records is the encoding of those records. */
  lemma {:induction false} ReadIsEncoded(k: Codec, data: seq<Byte>, cursor: nat, before: seq<Record>)
    requires OnlyCanonical(k) && cursor <= |data| && ReadFrom(k, data, cursor).Found?
    requires AllFramable(k, before) && data[..cursor] == Encoded(k, before)
    ensures var read := ReadFrom(k, data, cursor);
            && AllFramable(k, before + read.records)
            && cursor <= read.valid <= |data|
            && data[..read.valid] == Encoded(k, before + read.records)
    decreases |data| - cursor
  {
    hide OnlyCanonical, FrameEnd, AllFramable, Encoded, Framable;
    var end := FrameEnd(data, cursor);
    if end.None? {
      assert before + [] == before;
    } else {
      EndFits(data, cursor);
      FoundFrame(k, data, cursor);
      var r := k.decode(data[cursor + 4..end.value]).value;
      OneMoreRead(k, data, cursor, end.value, before, r);
      ReadIsEncoded(k, data, end.value, before + [r]);
      ContinuedOnce(before, r, ReadFrom(k, data, end.value));
    }
  }

  lemma EndFits(data: seq<Byte>, cursor: nat)
    requires cursor <= |data|
    ensures FrameEnd(data, cursor).Some? ==> cursor + 4 <= FrameEnd(data, cursor).value <= |data|
  {
  }

  lemma OneMoreRead(k: Codec, data: seq<Byte>, cursor: nat, end: nat, before: seq<Record>, r: Record)
    requires cursor <= end <= |data| && AllFramable(k, before) && data[..cursor] == Encoded(k, before)
    requires Framable(k, r) && data[cursor..end] == FrameOf(k, r)
    ensures AllFramable(k, before + [r]) && data[..end] == Encoded(k, before + [r])
  {
    hide FrameOf, Framable;
    assert (before + [r])[..|before|] == before;
    assert data[..end] == data[..cursor] + data[cursor..end];
  }

  /** What reading leaves over is a frame cut short. */
  lemma {:induction false} LeftoverIsTorn(k: Codec, data: seq<Byte>, cursor: nat)
    requires cursor <= |data| && ReadFrom(k, data, cursor).Found?
    ensures var n := ReadFrom(k, data, cursor).valid; n <= |data| && TornFrame(data[n..])
    decreases |data| - cursor
  {
    var end := FrameEnd(data, cursor);
    if end.Some? {
      LeftoverIsTorn(k, data, end.value);
    } else {
      ShortIsTorn(data[cursor..]);
    }
  }

  lemma ShortIsTorn(tail: seq<Byte>)
    requires |tail| >= 4 ==> 4 + LengthAt(tail) > |tail|
    ensures TornFrame(tail)
  {
    if |tail| < 4 {
      var zeros: seq<Byte> := [0, 0, 0, 0];
      CompletedIsTorn(tail, (tail + zeros)[..4], []);
    } else {
      assert LengthAt(tail[..4]) == LengthAt(tail);
      CompletedIsTorn(tail, tail[..4], tail[4..]);
    }
  }

  /** Some frame starts with these four length bytes and this much of its body. */
  lemma CompletedIsTorn(tail: seq<Byte>, head: seq<Byte>, started: seq<Byte>)
    requires |head| == 4 && |started| <= LengthAt(head)
    requires tail <= head + started && |tail| < 4 + LengthAt(head)
    ensures TornFrame(tail)
  {
    LengthIsBigEndian(head);
    hide LengthAt, BigEndian;
    assert head[..4] == head;
    var missing := seq(LengthAt(head) - |started|, (_: nat) => 0 as Byte);
    var body: seq<Byte> := started + missing;
    assert Frame(body) == head + started + missing;
    assert tail < Frame(body);
  }
}
