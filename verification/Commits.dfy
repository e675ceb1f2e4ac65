// What one commit appends, as a function of the log: a materialized subject and its
// verdict. And when a log with that pair on the end still replays.
module Commits {
  import opened Records
  import opened LedgerState
  import opened EvidenceRules
  import opened Refs
  import opened Rules
  import opened Checks
  import opened Ledger
  import opened Replay
  import opened Build

  const VERIFIER: string := "verifier"

  /** Give a record the address of its content. */
  function WithId(c: Crypto, r: Record): (out: Record)
    ensures ComputeId(c, out) == out.id && out.(id := 0) == r.(id := 0)
  {
    r.(id := ComputeId(c, r))
  }

  /** The subject a proposal becomes: sorted refs, the next time, derived evidence. */
  function Materialize(c: Crypto, prior: Prior, s: State, time: nat, p: Proposal): Record {
    WithId(c, Record(0, p.space, p.thread, time, p.author, p.kind, p.schema, p.data, Canonical(p.refs),
                     DeriveEvidence(p.schema, RefEvidences(s, prior.byId, p.refs))))
  }

  /** The one verdict record a verifier writes for a subject. */
  function MaterializeVerdict(c: Crypto, subject: Record, time: nat, j: Judgment): Record {
    WithId(c, Record(0, subject.space, subject.thread, time, Author(VERIFIER, Verifier, None), Verdict, VerdictV1,
                     VerdictData(j), [Ref(Cause, subject.id)], Deterministic))
  }

  ghost function SubjectOn(c: Crypto, log: seq<Record>, p: Proposal): Record {
    Materialize(c, PriorOf(log), Built(log), |log| + 1, p)
  }

  ghost function VerdictOn(c: Crypto, rules: Rules, log: seq<Record>, subject: Record): Record {
    MaterializeVerdict(c, subject, subject.time + 1, Judge(c, rules, PriorOf(log), Built(log), subject))
  }

  /** The pair a commit appends to a log. */
  ghost function CommitPair(c: Crypto, rules: Rules, log: seq<Record>, p: Proposal): (pair: seq<Record>)
    ensures |pair| == 2
  {
    var subject := SubjectOn(c, log, p);
    [subject, VerdictOn(c, rules, log, subject)]
  }

  /** The log after a whole batch. */
  ghost function CommitAll(c: Crypto, rules: Rules, log: seq<Record>, batch: seq<Proposal>): (out: seq<Record>)
    ensures |out| == |log| + 2 * |batch|
    ensures log <= out
  {
    if batch == [] then log
    else
      var g := CommitAll(c, rules, log, batch[..|batch| - 1]);
      g + CommitPair(c, rules, g, batch[|batch| - 1])
  }

  /** A batch in progress is a prefix of the batch. */
  lemma {:induction false} CommitPrefix(c: Crypto, rules: Rules, log: seq<Record>, batch: seq<Proposal>, i: nat)
    requires i <= |batch|
    ensures CommitAll(c, rules, log, batch)[..|log| + 2 * i] == CommitAll(c, rules, log, batch[..i])
    ensures CommitAll(c, rules, log, batch[..i]) <= CommitAll(c, rules, log, batch)
    decreases |batch|
  {
    hide CommitPair;
    if i < |batch| {
      var front := batch[..|batch| - 1];
      CommitPrefix(c, rules, log, front, i);
      assert front[..i] == batch[..i];
    } else {
      assert batch[..i] == batch;
    }
  }

  lemma CommitNext(c: Crypto, rules: Rules, log: seq<Record>, batch: seq<Proposal>, i: nat)
    requires i < |batch|
    ensures var g := CommitAll(c, rules, log, batch[..i]);
            CommitAll(c, rules, log, batch[..i + 1]) == g + CommitPair(c, rules, g, batch[i])
  {
    hide CommitPair;
    assert batch[..i + 1][..i] == batch[..i];
  }

  // ----- Evidence: assigned before sorting, checked after ---------------------------------

  /** The class the writer assigns is the class the verifier derives. */
  lemma EvidenceIsAsExpected(c: Crypto, prior: Prior, s: State, time: nat, p: Proposal)
    ensures var r := Materialize(c, prior, s, time, p); r.evidence == ExpectedEvidence(prior, s, r)
  {
    var r := Materialize(c, prior, s, time, p);
    assert r.refs == r.(id := 0).refs == Canonical(p.refs);
    EvidenceIgnoresRefOrder(p.schema, s, prior.byId, p.refs, Canonical(p.refs));
  }

  /** So a materialized subject can fail the evidence rule only by a threshold. */
  lemma OnlyThresholdsReject(c: Crypto, rules: Rules, prior: Prior, s: State, time: nat, p: Proposal)
    ensures var r := Materialize(c, prior, s, time, p);
            CheckEvidence(rules, prior, s, r) != Some(InvalidPayload)
    ensures var r := Materialize(c, prior, s, time, p);
            StrictlySorted(r.refs) && ComputeId(c, r) == r.id
  {
    EvidenceIsAsExpected(c, prior, s, time, p);
    hide ExpectedEvidence;
    var r := Materialize(c, prior, s, time, p);
    assert r.refs == r.(id := 0).refs == Canonical(p.refs);
  }

  // ----- Does the log still replay? ----------------------------------------------------------

  lemma VerdictShape(c: Crypto, subject: Record, time: nat, j: Judgment)
    ensures var v := MaterializeVerdict(c, subject, time, j);
            && v.time == time && v.space == subject.space && v.thread == subject.thread
            && v.author == Author(VERIFIER, Verifier, None) && v.kind == Verdict && v.schema == VerdictV1
            && v.data == VerdictData(j) && v.refs == [Ref(Cause, subject.id)] && v.evidence == Deterministic
            && ComputeId(c, v) == v.id
  {
    var v := MaterializeVerdict(c, subject, time, j);
    assert v.time == v.(id := 0).time;
    assert v.space == v.(id := 0).space;
    assert v.author == v.(id := 0).author;
    assert v.data == v.(id := 0).data;
    assert v.refs == v.(id := 0).refs;
  }

  lemma SubjectShape(c: Crypto, prior: Prior, s: State, time: nat, p: Proposal)
    ensures var r := Materialize(c, prior, s, time, p);
            && r.time == time && r.space == p.space && r.thread == p.thread && r.author == p.author
            && r.kind == p.kind && r.schema == p.schema && r.data == p.data && r.refs == Canonical(p.refs)
            && ComputeId(c, r) == r.id
  {
    var r := Materialize(c, prior, s, time, p);
    assert r.time == r.(id := 0).time;
    assert r.refs == r.(id := 0).refs;
  }

  /** A proposal the log can take and still replay. */
  predicate Admissible(rules: Rules, p: Proposal) {
    p.space == rules.space && p.kind != Verdict
  }

  /** A committed pair is one replay accepts, exactly when the proposal is for the
      verifier's own space and is not itself a verdict. The writer checks neither. */
  lemma CommitReplays(c: Crypto, rules: Rules, log: seq<Record>, p: Proposal)
    requires Collisionless(c) && Lawful(RegimeOf(c, rules), log)
    ensures Lawful(RegimeOf(c, rules), log + CommitPair(c, rules, log, p)) <==>
            Admissible(rules, p)
  {
    hide Lawful, Judge, StateOf, PriorOf, Built, Materialize, MaterializeVerdict;
    var subject := SubjectOn(c, log, p);
    var v := VerdictOn(c, rules, log, subject);
    ReplayedLogBuilds(c, rules, log);
    SubjectShape(c, PriorOf(log), StateOf(log), |log| + 1, p);
    VerdictShape(c, subject, subject.time + 1, Judge(c, rules, PriorOf(log), StateOf(log), subject));
    PairAppends(RegimeOf(c, rules), log, subject, v);
  }

  /** Only proposals a log can take. */
  ghost predicate AllAdmissible(rules: Rules, batch: seq<Proposal>) {
    forall i :: 0 <= i < |batch| ==> Admissible(rules, batch[i])
  }

  /** The log after a whole batch replays exactly when every proposal of it is such. */
  lemma {:induction false} BatchReplays(c: Crypto, rules: Rules, log: seq<Record>, batch: seq<Proposal>)
    requires Collisionless(c) && Lawful(RegimeOf(c, rules), log)
    ensures Lawful(RegimeOf(c, rules), CommitAll(c, rules, log, batch)) <==> AllAdmissible(rules, batch)
  {
    hide Lawful, CommitPair, Admissible, RegimeOf, Collisionless;
    if batch != [] {
      var front, p := batch[..|batch| - 1], batch[|batch| - 1];
      var g := CommitAll(c, rules, log, front);
      var pair := CommitPair(c, rules, g, p);
      BatchReplays(c, rules, log, front);
      assert batch == front + [p];
      if Lawful(RegimeOf(c, rules), g + pair) {
        VerifiedIsPaired(RegimeOf(c, rules), log);
        PrefixVerified(RegimeOf(c, rules), g + pair, |g|);
        assert (g + pair)[..|g|] == g;
      }
      if Lawful(RegimeOf(c, rules), g) {
        CommitReplays(c, rules, g, p);
      }
    }
  }

  // ----- What the subjects determine -------------------------------------------------------

  /** A verdict record re-signed, so to speak, by another verifier name. */
  function Renamed(c: Crypto, v: Record, name: string): Record {
    WithId(c, v.(author := v.author.(id := name)))
  }

  /** No rule looks at the name on a verdict: any name replays. */
  lemma VerdictNameIsFree(c: Crypto, rules: Rules, g: seq<Record>, s: Record, v: Record, name: string)
    requires Lawful(RegimeOf(c, rules), g + [s, v])
    ensures Lawful(RegimeOf(c, rules), g + [s, Renamed(c, v, name)])
  {
    hide Lawful, Judge, StateOf, PriorOf;
    var w := Renamed(c, v, name);
    assert w.time == w.(id := 0).time;
    assert w.data == w.(id := 0).data && w.refs == w.(id := 0).refs;
    PairAppends(RegimeOf(c, rules), g, s, v);
    PairAppends(RegimeOf(c, rules), g, s, w);
  }

  ghost predicate SameSubjects(a: seq<Record>, b: seq<Record>) {
    |a| == |b| && forall i :: 0 <= i < |a| && i % 2 == 0 ==> a[i] == b[i]
  }

  ghost predicate SameVerdictNames(a: seq<Record>, b: seq<Record>)
    requires |a| == |b|
  {
    forall i :: 0 <= i < |a| && i % 2 == 1 ==> a[i].author.id == b[i].author.id
  }

  /** Apart from those names, the subjects of a lawful log determine all of it: two
      lawful logs with the same subjects are equal exactly when their verdict names are. */
  lemma {:induction false} SubjectsDetermine(c: Crypto, rules: Rules, a: seq<Record>, b: seq<Record>)
    requires Lawful(RegimeOf(c, rules), a) && Lawful(RegimeOf(c, rules), b) && SameSubjects(a, b)
    ensures a == b <==> SameVerdictNames(a, b)
    decreases |a|
  {
    hide Lawful, RegimeOf;
    VerifiedIsPaired(RegimeOf(c, rules), a);
    if a != [] && SameVerdictNames(a, b) {
      var n := |a| - 2;
      PrefixVerified(RegimeOf(c, rules), a, n);
      PrefixVerified(RegimeOf(c, rules), b, n);
      assert forall i :: 0 <= i < n ==> a[..n][i] == a[i] && b[..n][i] == b[i];
      SubjectsDetermine(c, rules, a[..n], b[..n]);
      LastVerdictIsDetermined(RegimeOf(c, rules), a, b);
      assert a == a[..n] + [a[n], a[n + 1]] && b == b[..n] + [b[n], b[n + 1]];
    }
  }

  lemma LastVerdictIsDetermined(reg: Regime, a: seq<Record>, b: seq<Record>)
    requires Lawful(reg, a) && Lawful(reg, b) && |a| == |b| >= 2 && |a| % 2 == 0
    requires var n := |a| - 2; a[..n] == b[..n] && a[n] == b[n] && a[n + 1].author.id == b[n + 1].author.id
    ensures a[|a| - 1] == b[|a| - 1]
  {
    hide Lawful, StateOf, PriorOf;
    var n := |a| - 2;
    PairAt(reg, a, n);
    PairAt(reg, b, n);
    VerdictIsDetermined(reg, a[n], a[n + 1], b[n + 1]);
  }

  lemma VerdictIsDetermined(reg: Regime, s: Record, v: Record, w: Record)
    requires VerdictFor(reg, s, v) && VerdictFor(reg, s, w)
    requires v.time == w.time && v.data.judgment == w.data.judgment && v.author.id == w.author.id
    ensures v == w
  {
    assert v.(id := 0) == w.(id := 0);
  }
}
