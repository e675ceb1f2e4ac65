// What the rule battery guarantees about the records of a verified log, position by
// position: the bridge from "this record was accepted" to what its refs and ids name.
module Facts {
  import opened Records
  import opened LedgerState
  import opened Rules
  import opened Checks
  import opened Ledger
  import opened Replay

  /** A log that replays under some rules. */
  ghost predicate LawfulLog(c: Crypto, rules: Rules, log: seq<Record>) {
    Collisionless(c) && Lawful(RegimeOf(c, rules), log)
  }

  /** A record that passed the whole battery against a prefix. */
  ghost predicate BatteryHolds(rules: Rules, prior: Prior, s: State, r: Record) {
    && r.schema in rules.admitted && KindOf(r.schema) == Some(r.kind) && DecodesAs(r.schema, r.data)
    && CheckRefs(prior, s, r.space, r.refs).None?
    && CheckReplacement(prior, s, r).None?
    && r.evidence == ExpectedEvidence(prior, s, r)
    && CheckKind(rules, prior, s, r, CarriesCycle(r)).None?
  }

  lemma BatteryPassed(c: Crypto, rules: Rules, prior: Prior, s: State, r: Record)
    requires r.kind != Verdict && Judge(c, rules, prior, s, r).Accept?
    ensures BatteryHolds(rules, prior, s, r) && r.space == rules.space
  {
    hide CheckKind, CheckRefs, CheckReplacement, ExpectedEvidence, CheckAuthor, CarriesCycle, ComputeId, DecodesAs;
  }

  /** An accepted record passed against everything before it. */
  lemma AcceptedPassedAt(c: Crypto, rules: Rules, log: seq<Record>, i: nat)
    requires LawfulLog(c, rules, log) && AcceptedAt(log, i)
    ensures BatteryHolds(rules, PriorOf(log[..i]), StateOf(log[..i]), log[i]) && log[i].space == rules.space
    ensures log[i].kind != Verdict
  {
    hide Lawful, StateOf, PriorOf, Judge, BatteryHolds;
    AcceptedPassed(RegimeOf(c, rules), log, i);
    BatteryPassed(c, rules, PriorOf(log[..i]), StateOf(log[..i]), log[i]);
  }

  /** An id the prior index knows is the id of an earlier record. */
  lemma PriorIsEarlier(c: Crypto, rules: Rules, log: seq<Record>, i: nat, id: Id) returns (j: nat)
    requires LawfulLog(c, rules, log) && i <= |log| && id in PriorOf(log[..i]).byId
    ensures j < i && log[j].id == id && PriorOf(log[..i]).byId[id] == log[j]
  {
    hide Lawful, PriorOf;
    PriorFindsFirst(log[..i], id);
    j :| 0 <= j < i && log[..i][j] == PriorOf(log[..i]).byId[id] && log[..i][j].id == id;
  }

  /** An id accepted by some point is an accepted subject before it, and is found as such. */
  lemma AcceptedIsEarlier(c: Crypto, rules: Rules, log: seq<Record>, i: nat, id: Id) returns (j: nat)
    requires LawfulLog(c, rules, log) && i <= |log| && i % 2 == 0 && id in StateOf(log[..i]).accepted
    ensures j < i && AcceptedAt(log, j) && log[j].id == id
    ensures Find(PriorOf(log[..i]), id) == Some(log[j])
  {
    hide Lawful, PriorOf, StateOf, RegimeOf;
    AcceptedExactly(log[..i], id);
    j :| AcceptedAt(log[..i], j) && log[..i][j].id == id;
    RegimeHolds(c, rules);
    PrefixVerified(RegimeOf(c, rules), log, i);
    IdsAreUnique(RegimeOf(c, rules), log[..i]);
    PriorAt(log[..i], j);
  }

  lemma AcceptedHere(log: seq<Record>, i: nat)
    requires |log| % 2 == 0 && AcceptedAt(log, i)
    ensures log[i].id in StateOf(log).accepted
  {
    hide StateOf;
    AcceptedExactly(log, log[i].id);
  }

  lemma {:induction false} RefsResolve(prior: Prior, s: State, space: nat, refs: seq<Ref>, ref: Ref)
    requires CheckRefs(prior, s, space, refs).None? && ref in refs
    ensures ref.target in prior.byId
    ensures prior.byId[ref.target].space == space
    ensures ref.kind == Require ==> Usable(s, prior.byId[ref.target].id)
  {
    if ref != refs[0] {
      assert ref in refs[1..];
      RefsResolve(prior, s, space, refs[1..], ref);
    }
  }

  /** Two records of a verified log with one id are one record. */
  lemma SameIdSameRecord(c: Crypto, rules: Rules, log: seq<Record>, i: nat, j: nat)
    requires LawfulLog(c, rules, log) && i < |log| && j < |log| && log[i].id == log[j].id
    ensures i == j
  {
    hide Lawful, RegimeOf;
    RegimeHolds(c, rules);
    IdsAreUnique(RegimeOf(c, rules), log);
  }
}
