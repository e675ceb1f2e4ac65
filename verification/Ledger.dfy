// What a verified log is, and the facts every position of one satisfies. Nothing here
// depends on which rules judge a subject, so the judge is a parameter.
module Ledger {
  import opened Records
  import opened LedgerState
  import opened Rules

  /** A space, its hash, and how a subject is judged against what came before. */
  datatype Regime = Regime(crypto: Crypto, space: nat, judge: (Prior, State, Record) -> Judgment)

  function JudgmentOf(v: Record): Judgment {
    if v.data.VerdictData? then v.data.judgment else Reject(InvalidPayload)
  }

  /** The state after one more subject and its verdict. */
  ghost function ApplyPair(st: State, s: Record, v: Record): State {
    ApplyJudged(st, s, JudgmentOf(v)).(appliedUpTo := v.time)
  }

  /** The state folded from a log of subject/verdict pairs, pair by pair. */
  ghost function StateOf(log: seq<Record>): State {
    if |log| < 2 then EMPTY_STATE
    else ApplyPair(StateOf(log[..|log| - 2]), log[|log| - 2], log[|log| - 1])
  }

  /** A verdict record for a subject, in the one envelope a verifier writes. */
  predicate VerdictFor(reg: Regime, s: Record, v: Record) {
    && v.kind == Verdict
    && ComputeId(reg.crypto, v) == v.id
    && v.schema == VerdictV1
    && v.author.role == Verifier
    && v.author.signature.None?
    && v.space == reg.space == s.space
    && v.thread == s.thread
    && v.evidence == Deterministic
    && v.data.VerdictData?
    && v.refs == [Ref(Cause, s.id)]
  }

  /** A subject and its verdict, appended to a log. */
  ghost predicate PairOk(reg: Regime, g: seq<Record>, s: Record, v: Record) {
    && s.kind != Verdict
    && ComputeId(reg.crypto, s) == s.id
    && s.time == |g| + 1
    && v.time == |g| + 2
    && VerdictFor(reg, s, v)
    && v.data.judgment == reg.judge(PriorOf(g), StateOf(g), s)
  }

  /** A log that is nothing but subject/verdict pairs, each verdict the one that the
      rules give the subject over everything before it. */
  ghost predicate Lawful(reg: Regime, log: seq<Record>) {
    && |log| % 2 == 0
    && (log != [] ==>
          var n := |log| - 2;
          Lawful(reg, log[..n]) && PairOk(reg, log[..n], log[n], log[n + 1]))
  }

  /** Position `i` holds an accepted subject. */
  ghost predicate AcceptedAt(log: seq<Record>, i: nat) {
    i + 1 < |log| && i % 2 == 0 && JudgmentOf(log[i + 1]).Accept?
  }

  // ----- Taking verified logs apart -------------------------------------------------

  lemma PairAppends(reg: Regime, g: seq<Record>, s: Record, v: Record)
    ensures Lawful(reg, g + [s, v]) <==> Lawful(reg, g) && PairOk(reg, g, s, v)
    ensures |g| % 2 == 0 ==> StateOf(g + [s, v]) == ApplyPair(StateOf(g), s, v)
    ensures PriorOf(g + [s, v]) == PriorOf(g).Insert(s).Insert(v)
  {
    hide ApplyPair, PriorOf, PairOk;
    var log := g + [s, v];
    assert log[..|g|] == g;
    assert log == g + [s] + [v];
    PriorStep(g, s);
    PriorStep(g + [s], v);
  }

  lemma VerifiedIsPaired(reg: Regime, log: seq<Record>)
    requires Lawful(reg, log)
    ensures |log| % 2 == 0
  {
  }

  lemma {:induction false} PrefixVerified(reg: Regime, log: seq<Record>, i: nat)
    requires Lawful(reg, log) && i <= |log| && i % 2 == 0
    ensures Lawful(reg, log[..i])
    decreases |log|
  {
    hide StateOf, PriorOf, PairOk;
    if i < |log| {
      var n := |log| - 2;
      PrefixVerified(reg, log[..n], i);
      assert log[..n][..i] == log[..i];
    } else {
      assert log[..i] == log;
    }
  }

  /** Every pair of a verified log was right where it was appended. */
  lemma PairAt(reg: Regime, log: seq<Record>, i: nat)
    requires Lawful(reg, log) && i + 1 < |log| && i % 2 == 0
    ensures Lawful(reg, log[..i]) && PairOk(reg, log[..i], log[i], log[i + 1])
  {
    hide StateOf, PriorOf, PairOk;
    PrefixVerified(reg, log, i + 2);
    var g := log[..i + 2];
    assert g[..i] == log[..i] && g[i] == log[i] && g[i + 1] == log[i + 1];
  }

  lemma StateAt(log: seq<Record>, i: nat)
    requires i + 1 < |log|
    ensures StateOf(log[..i + 2]) == ApplyPair(StateOf(log[..i]), log[i], log[i + 1])
  {
    hide ApplyPair;
    var g := log[..i + 2];
    assert g[..i] == log[..i] && g[i] == log[i] && g[i + 1] == log[i + 1];
  }

  /** Times are 1, 2, ..., subjects sit at even positions and ids are addresses. */
  lemma PositionFacts(reg: Regime, log: seq<Record>, i: nat)
    requires Lawful(reg, log) && i < |log|
    ensures log[i].time == i + 1
    ensures ComputeId(reg.crypto, log[i]) == log[i].id
    ensures log[i].kind == Verdict <==> i % 2 == 1
    ensures i % 2 == 1 ==> VerdictFor(reg, log[i - 1], log[i])
  {
    hide StateOf, PriorOf, Lawful;
    VerifiedIsPaired(reg, log);
    if i % 2 == 0 {
      PairAt(reg, log, i);
    } else {
      PairAt(reg, log, i - 1);
    }
  }

  lemma IdsAreUnique(reg: Regime, log: seq<Record>)
    requires Collisionless(reg.crypto) && Lawful(reg, log)
    ensures UniqueIds(log)
  {
    hide StateOf;
    forall i, j | 0 <= i < j < |log|
      ensures log[i].id != log[j].id
    {
      PositionFacts(reg, log, i);
      PositionFacts(reg, log, j);
      SameIdSameTime(reg.crypto, log[i], log[j]);
    }
  }

  lemma SameIdSameTime(c: Crypto, a: Record, b: Record)
    requires Collisionless(c)
    ensures ComputeId(c, a) == ComputeId(c, b) ==> a.time == b.time
  {
    if ComputeId(c, a) == ComputeId(c, b) {
      assert a.(id := 0) == b.(id := 0);
      assert a.(id := 0).time == b.(id := 0).time;
    }
  }

  /** A record at the next time is new to the log. */
  lemma NextIsFresh(reg: Regime, log: seq<Record>, r: Record)
    requires Collisionless(reg.crypto) && Lawful(reg, log)
    requires ComputeId(reg.crypto, r) == r.id && r.time > |log|
    ensures r.id !in PriorOf(log).byId
  {
    hide StateOf;
    PriorFindsFirst(log, r.id);
    forall i | 0 <= i < |log|
      ensures log[i].id != r.id
    {
      PositionFacts(reg, log, i);
      SameIdSameTime(reg.crypto, log[i], r);
    }
  }

  /** In a verified log every subject already has its verdict. */
  lemma SubjectsAreVerdicted(reg: Regime, log: seq<Record>, i: nat)
    requires Lawful(reg, log) && i < |log| && i % 2 == 0
    ensures log[i].id in PriorOf(log).verdicted
  {
    hide StateOf, PriorOf, Lawful;
    VerifiedIsPaired(reg, log);
    assert i + 1 < |log|;
    PositionFacts(reg, log, i + 1);
    PriorVerdicted(log, log[i].id);
    assert Ref(Cause, log[i].id) in log[i + 1].refs;
  }

  /** Only subjects of the log are verdicted. */
  lemma VerdictedAreSubjects(reg: Regime, log: seq<Record>, id: Id)
    requires Lawful(reg, log) && id in PriorOf(log).verdicted
    ensures exists i :: 0 <= i < |log| && i % 2 == 0 && log[i].id == id
  {
    hide StateOf, PriorOf, Lawful;
    PriorVerdicted(log, id);
    var i :| 0 <= i < |log| && log[i].kind == Verdict && id in Targets(log[i].refs, Cause);
    PositionFacts(reg, log, i);
    assert Ref(Cause, id) in log[i].refs;
    assert log[i - 1].id == id;
  }

  // ----- Acceptance --------------------------------------------------------------------

  ghost predicate AcceptedId(log: seq<Record>, id: Id) {
    exists i: nat :: AcceptedAt(log, i) && log[i].id == id
  }

  lemma AcceptedGrows(g: seq<Record>, s: Record, v: Record, id: Id)
    requires |g| % 2 == 0
    ensures AcceptedId(g + [s, v], id) <==> AcceptedId(g, id) || (JudgmentOf(v).Accept? && s.id == id)
  {
    var log := g + [s, v];
    if AcceptedId(g, id) {
      var i: nat :| AcceptedAt(g, i) && g[i].id == id;
      assert AcceptedAt(log, i) && log[i].id == id;
    }
    if JudgmentOf(v).Accept? && s.id == id {
      assert AcceptedAt(log, |g|) && log[|g|].id == id;
    }
    if AcceptedId(log, id) {
      var i: nat :| AcceptedAt(log, i) && log[i].id == id;
      if i < |g| {
        assert AcceptedAt(g, i) && g[i].id == id;
      }
    }
  }

  lemma {:induction false} AcceptedExactly(log: seq<Record>, id: Id)
    requires |log| % 2 == 0
    ensures id in StateOf(log).accepted <==> AcceptedId(log, id)
  {
    hide ActiveRequestsAfter;
    if log != [] {
        var n := |log| - 2;
      AcceptedExactly(log[..n], id);
      AcceptedGrows(log[..n], log[n], log[n + 1], id);
      assert log == log[..n] + [log[n], log[n + 1]];
    }
  }

  /** An accepted subject was accepted by the judge against the log before it. */
  lemma AcceptedPassed(reg: Regime, log: seq<Record>, i: nat)
    requires Lawful(reg, log) && AcceptedAt(log, i)
    ensures reg.judge(PriorOf(log[..i]), StateOf(log[..i]), log[i]).Accept?
    ensures log[i].kind != Verdict
  {
    hide StateOf;
    PairAt(reg, log, i);
  }

  /** What is accepted is in the prior index, under its own id. */
  lemma AcceptedIsPrior(reg: Regime, log: seq<Record>, id: Id)
    requires Collisionless(reg.crypto) && Lawful(reg, log) && id in StateOf(log).accepted
    ensures id in PriorOf(log).byId && PriorOf(log).byId[id].id == id
  {
    hide StateOf;
    AcceptedExactly(log, id);
    var i: nat :| AcceptedAt(log, i) && log[i].id == id;
    IdsAreUnique(reg, log);
    PriorAt(log, i);
  }

  // ----- Accepted records, in order ------------------------------------------------------

  ghost function AcceptedOf(log: seq<Record>): seq<Record> {
    if |log| < 2 then []
    else
      var g := AcceptedOf(log[..|log| - 2]);
      if JudgmentOf(log[|log| - 1]).Accept? then g + [log[|log| - 2]] else g
  }

  function LastTime(records: seq<Record>): nat {
    if records == [] then 0 else records[|records| - 1].time
  }

  /** The state of a log is the fold of its accepted records, at the log's last time. */
  lemma {:induction false} StateIsFold(log: seq<Record>)
    requires |log| % 2 == 0
    ensures StateOf(log) == Fold(AcceptedOf(log)).(appliedUpTo := LastTime(log))
  {
    hide Apply;
    if |log| >= 2 {
      var n := |log| - 2;
      StateIsFold(log[..n]);
      FoldStep(AcceptedOf(log[..n]), log[n]);
      ClockRidesAlong(Fold(AcceptedOf(log[..n])), log[n], LastTime(log[..n]));
    }
  }
}
