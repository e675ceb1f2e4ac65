// Batches: their deterministic order, recognizing what already landed, and what a retry
// finds in a log that stopped part-way through one.
module Batches {
  import opened Records
  import opened Refs
  import opened Rules
  import opened Checks
  import opened Ledger
  import opened Build
  import opened Commits

  // ----- Deterministic order ------------------------------------------------------------

  predicate InOrder(c: Crypto, batch: seq<Proposal>) {
    forall i :: 0 <= i < |batch| - 1 ==> c.batchKey(batch[i]) <= c.batchKey(batch[i + 1])
  }

  lemma TailInOrder(c: Crypto, batch: seq<Proposal>)
    requires InOrder(c, batch) && batch != []
    ensures InOrder(c, batch[1..])
  {
    var tail := batch[1..];
    forall i | 0 <= i < |tail| - 1
      ensures c.batchKey(tail[i]) <= c.batchKey(tail[i + 1])
    {
      assert c.batchKey(batch[i + 1]) <= c.batchKey(batch[i + 1 + 1]);
    }
  }

  lemma ConsInOrder(c: Crypto, p: Proposal, batch: seq<Proposal>)
    requires InOrder(c, batch) && (batch != [] ==> c.batchKey(p) <= c.batchKey(batch[0]))
    ensures InOrder(c, [p] + batch)
  {
    var all := [p] + batch;
    forall i | 0 <= i < |all| - 1
      ensures c.batchKey(all[i]) <= c.batchKey(all[i + 1])
    {
      if i > 0 {
        assert all[i] == batch[i - 1] && all[i + 1] == batch[i - 1 + 1];
      }
    }
  }

  lemma FirstStaysFirst(c: Crypto, batch: seq<Proposal>, p: Proposal, rest: seq<Proposal>)
    requires batch != [] && InOrder(c, batch) && c.batchKey(batch[0]) <= c.batchKey(p)
    requires InOrder(c, rest) && multiset(rest) == multiset(batch[1..]) + multiset{p}
    requires rest != [] && (rest[0] == p || (batch[1..] != [] && rest[0] == batch[1..][0]))
    ensures InOrder(c, [batch[0]] + rest)
    ensures multiset([batch[0]] + rest) == multiset(batch) + multiset{p}
  {
    assert batch == [batch[0]] + batch[1..];
    assert |batch| > 1 ==> c.batchKey(batch[0]) <= c.batchKey(batch[0 + 1]);
    ConsInOrder(c, batch[0], rest);
  }

  /** Put one proposal where its key belongs. */
  function InsertByKey(c: Crypto, batch: seq<Proposal>, p: Proposal): (out: seq<Proposal>)
    requires InOrder(c, batch)
    ensures InOrder(c, out)
    ensures multiset(out) == multiset(batch) + multiset{p}
    ensures out != [] && (out[0] == p || (batch != [] && out[0] == batch[0]))
  {
    if batch == [] then [p]
    else if c.batchKey(p) <= c.batchKey(batch[0]) then
      ConsInOrder(c, p, batch);
      [p] + batch
    else
      TailInOrder(c, batch);
      var rest := InsertByKey(c, batch[1..], p);
      FirstStaysFirst(c, batch, p, rest);
      [batch[0]] + rest
  }

  /** `sort_batch`: ascending by the hash of the canonical proposal. */
  function SortBatch(c: Crypto, batch: seq<Proposal>): (out: seq<Proposal>)
    ensures InOrder(c, out)
    ensures multiset(out) == multiset(batch)
    ensures |out| == |batch|
  {
    if batch == [] then []
    else
      assert batch == batch[..|batch| - 1] + [batch[|batch| - 1]];
      var out := InsertByKey(c, SortBatch(c, batch[..|batch| - 1]), batch[|batch| - 1]);
      assert |multiset(out)| == |multiset(batch)|;
      out
  }

  lemma {:induction false} OrderedPairs(c: Crypto, batch: seq<Proposal>, i: nat, j: nat)
    requires InOrder(c, batch) && i <= j < |batch|
    ensures c.batchKey(batch[i]) <= c.batchKey(batch[j])
    decreases j
  {
    if i < j {
      OrderedPairs(c, batch, i, j - 1);
      assert c.batchKey(batch[j - 1]) <= c.batchKey(batch[j - 1 + 1]);
    }
  }

  /** No two proposals share a key, as no two canonical forms share a hash. */
  ghost predicate DistinctKeys(c: Crypto) {
    forall p: Proposal, q: Proposal :: c.batchKey(p) == c.batchKey(q) ==> p == q
  }

  lemma FirstIsLeast(c: Crypto, batch: seq<Proposal>, p: Proposal)
    requires InOrder(c, batch) && p in batch
    ensures c.batchKey(batch[0]) <= c.batchKey(p)
  {
    var i :| 0 <= i < |batch| && batch[i] == p;
    OrderedPairs(c, batch, 0, i);
  }

  lemma FirstsAgree(c: Crypto, a: seq<Proposal>, b: seq<Proposal>)
    requires DistinctKeys(c) && InOrder(c, a) && InOrder(c, b) && multiset(a) == multiset(b) && a != []
    ensures b != [] && a[0] == b[0]
  {
    assert a[0] in multiset(a);
    assert a[0] in b;
    assert b[0] in multiset(b);
    assert b[0] in a;
    FirstIsLeast(c, a, b[0]);
    FirstIsLeast(c, b, a[0]);
  }

  lemma TailsMultiset(a: seq<Proposal>)
    requires a != []
    ensures multiset(a) == multiset{a[0]} + multiset(a[1..])
  {
    assert a == [a[0]] + a[1..];
  }

  /** With collision-free keys there is one order: any sort of any caller order agrees. */
  lemma {:induction false} OrderIsUnique(c: Crypto, a: seq<Proposal>, b: seq<Proposal>)
    requires DistinctKeys(c)
    requires InOrder(c, a) && InOrder(c, b) && multiset(a) == multiset(b)
    ensures a == b
    decreases |a|
  {
    hide InOrder, DistinctKeys;
    if a != [] {
      FirstsAgree(c, a, b);
      TailInOrder(c, a);
      TailInOrder(c, b);
      TailsMultiset(a);
      TailsMultiset(b);
      assert multiset(a[1..]) == multiset(a) - multiset{a[0]};
      assert multiset(b[1..]) == multiset(b) - multiset{b[0]};
      OrderIsUnique(c, a[1..], b[1..]);
      assert a == [a[0]] + a[1..] && b == [b[0]] + b[1..];
    } else if b != [] {
      TailsMultiset(b);
    }
  }

  /** So the commit order is independent of caller order. */
  lemma CallerOrderIsIrrelevant(c: Crypto, a: seq<Proposal>, b: seq<Proposal>)
    requires DistinctKeys(c)
    requires multiset(a) == multiset(b)
    ensures SortBatch(c, a) == SortBatch(c, b)
  {
    OrderIsUnique(c, SortBatch(c, a), SortBatch(c, b));
  }

  // ----- Recognizing a landed batch -------------------------------------------------------

  /** Content equality, ignoring only what the writer assigns. */
  predicate Matches(p: Proposal, r: Record) {
    && r.space == p.space && r.thread == p.thread && r.author == p.author
    && r.kind == p.kind && r.schema == p.schema && r.data == p.data && r.refs == Canonical(p.refs)
  }

  /** What a record says, without what the writer assigned. */
  function ProposalOf(r: Record): Proposal {
    Proposal(r.space, r.thread, r.author, r.kind, r.schema, r.data, r.refs)
  }

  /** A proposal as a record holds it. */
  function Settled(p: Proposal): Proposal {
    p.(refs := Canonical(p.refs))
  }

  lemma MatchingIsSameContent(p: Proposal, r: Record)
    ensures Matches(p, r) <==> ProposalOf(r) == Settled(p)
  {
  }

  function HeadOf(records: seq<Record>): Id {
    if records == [] then EMPTY_HEAD else records[|records| - 1].id
  }

  /** Where the record after an expected head sits, if the head is known. */
  function StartAfter(records: seq<Record>, head: Id): (at: Option<nat>)
    ensures at.Some? ==> at.value <= |records|
  {
    if head == EMPTY_HEAD then Some(0)
    else
      var at := Position(records, head);
      if at.None? then None else Some(at.value + 1)
  }

  /** The log has the expected head, and its first record after it would be here. */
  ghost predicate FollowsHead(records: seq<Record>, head: Id, at: nat) {
    if head == EMPTY_HEAD then at == 0
    else 0 < at <= |records| && records[at - 1].id == head && forall j :: 0 <= j < at - 1 ==> records[j].id != head
  }

  lemma StartFollowsHead(records: seq<Record>, head: Id, at: nat)
    ensures StartAfter(records, head) == Some(at) <==> FollowsHead(records, head, at)
  {
    PositionIsFirst(records, head);
    if head != EMPTY_HEAD && FollowsHead(records, head, at) {
      var p := Position(records, head);
      assert p.Some?;
      assert p.value == at - 1;
    }
  }

  lemma {:induction false} PositionIsFirst(records: seq<Record>, id: Id)
    ensures Position(records, id).Some? ==> forall j :: 0 <= j < Position(records, id).value ==> records[j].id != id
  {
    if records != [] {
      var front := records[..|records| - 1];
      PositionIsFirst(front, id);
      assert forall j :: 0 <= j < |front| ==> front[j] == records[j];
    }
  }

  /** First position of an id. */
  function Position(records: seq<Record>, id: Id): (at: Option<nat>)
    ensures at.Some? ==> at.value < |records| && records[at.value].id == id
    ensures at.None? ==> forall i :: 0 <= i < |records| ==> records[i].id != id
  {
    if records == [] then None
    else
      var at := Position(records[..|records| - 1], id);
      if at.Some? then at
      else
        assert forall i :: 0 <= i < |records| - 1 ==> records[i] == records[..|records| - 1][i];
        if records[|records| - 1].id == id then Some(|records| - 1) else None
  }

  /** The first `n` proposals landed, pair by pair, from a position on. */
  ghost predicate Landed(records: seq<Record>, start: nat, batch: seq<Proposal>, n: nat) {
    && n <= |batch|
    && start + 2 * n <= |records|
    && forall i :: 0 <= i < n ==> ProposalOf(records[start + 2 * i]) == Settled(batch[i])
  }

  /** What a batch reports for the pairs at a position: subject id and verdict each. */
  function Results(records: seq<Record>, start: nat, n: nat): (out: seq<(Id, Judgment)>)
    requires start + 2 * n <= |records|
    ensures |out| == n
  {
    if n == 0 then []
    else Results(records, start, n - 1) + [(records[start + 2 * n - 2].id, JudgmentOf(records[start + 2 * n - 1]))]
  }

  lemma {:induction false} ResultsOfPrefix(records: seq<Record>, longer: seq<Record>, start: nat, n: nat)
    requires records <= longer && start + 2 * n <= |records|
    ensures Results(records, start, n) == Results(longer, start, n)
  {
    if n > 0 {
      ResultsOfPrefix(records, longer, start, n - 1);
    }
  }

  // ----- A batch against the log it was built on ---------------------------------------------

  lemma CommittedMatches(c: Crypto, rules: Rules, log: seq<Record>, p: Proposal)
    ensures ProposalOf(CommitPair(c, rules, log, p)[0]) == Settled(p)
  {
    hide Judge, PriorOf, Built, Materialize, MaterializeVerdict;
    SubjectShape(c, PriorOf(log), Built(log), |log| + 1, p);
  }

  /** In a log that holds `n` pairs of the batch after its base, exactly those landed. */
  lemma {:induction false} PrefixLanded(c: Crypto, rules: Rules, base: seq<Record>, batch: seq<Proposal>, n: nat)
    requires n <= |batch|
    ensures Landed(CommitAll(c, rules, base, batch[..n]), |base|, batch, n)
  {
    hide CommitPair, ProposalOf, Settled;
    if n > 0 {
      PrefixLanded(c, rules, base, batch, n - 1);
      CommitNext(c, rules, base, batch, n - 1);
      var g := CommitAll(c, rules, base, batch[..n - 1]);
      CommittedMatches(c, rules, g, batch[n - 1]);
      var log := CommitAll(c, rules, base, batch[..n]);
      forall i | 0 <= i < n
        ensures ProposalOf(log[|base| + 2 * i]) == Settled(batch[i])
      {
        if i < n - 1 {
          assert log[|base| + 2 * i] == g[|base| + 2 * i];
        }
      }
    }
  }

  lemma SameIdSamePlace(records: seq<Record>, i: nat, j: nat)
    requires UniqueIds(records) && i < |records| && j < |records| && records[i].id == records[j].id
    ensures i == j
  {
  }

  /** The head the batch was built on is found right where its base ends. */
  lemma BaseIsFound(reg: Regime, base: seq<Record>, log: seq<Record>)
    requires Collisionless(reg.crypto) && Lawful(reg, log) && base <= log
    ensures StartAfter(log, HeadOf(base)) == Some(|base|)
  {
    hide Lawful;
    if base != [] {
      var n := |base| - 1;
      PositionFacts(reg, log, n);
      assert log[n] == base[n];
      assert HeadOf(base) == ComputeId(reg.crypto, log[n]);
      IdsAreUnique(reg, log);
      SameIdSamePlace(log, Position(log, HeadOf(base)).value, n);
    }
  }
}
