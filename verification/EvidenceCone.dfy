// Evidence over whole logs: the class of an accepted record is read off everything it
// rests on, however far back.
module EvidenceCone {
  import opened Records
  import opened LedgerState
  import opened Graphs
  import opened EvidenceRules
  import opened Rules
  import opened Checks
  import opened Ledger
  import opened Replay
  import opened Facts
  import opened Reachability
  import opened Lineages

  /** The record at `i` rested on something that was not usable where it was accepted:
      rejected, never a subject, retracted or tainted. */
  ghost predicate BadLink(log: seq<Record>, i: nat)
    requires i < |log|
  {
    exists t :: RestsOn(log[i], t) && !Usable(StateOf(log[..i]), t)
  }

  /** The record at `i` rests on the accepted record at `j`, usable there and then. */
  ghost predicate GoodLink(log: seq<Record>, i: nat, j: nat)
    requires i < |log| && j < |log|
  {
    j < i && AcceptedAt(log, j) && RestsOn(log[i], log[j].id) && Usable(StateOf(log[..i]), log[j].id)
  }

  /** The good links between accepted records. */
  ghost function Links(log: seq<Record>): Graph<nat> {
    map i: nat | i < |log| && AcceptedAt(log, i) :: set j: nat | j < i && GoodLink(log, i, j)
  }

  lemma LinkMeaning(log: seq<Record>, i: nat, j: nat)
    ensures Edge(Links(log), i, j) <==> i < |log| && AcceptedAt(log, i) && j < i && GoodLink(log, i, j)
  {
  }

  // ----- One record ------------------------------------------------------------------------------

  /** What a ref of an accepted record contributes. */
  lemma Contribution(c: Crypto, rules: Rules, log: seq<Record>, i: nat, ref: Ref) returns (j: nat)
    requires LawfulLog(c, rules, log) && AcceptedAt(log, i) && ref in log[i].refs && Epistemic(ref.kind)
    ensures ref.target in PriorOf(log[..i]).byId
    ensures var e := RefEvidence(StateOf(log[..i]), ref, PriorOf(log[..i]).byId[ref.target]);
            if Usable(StateOf(log[..i]), ref.target)
            then j < |log| && log[j].id == ref.target && GoodLink(log, i, j) && e == Some(log[j].evidence)
            else BadLink(log, i) && e == Some(Assumed)
  {
    hide Lawful, StateOf, PriorOf, RegimeOf, BatteryHolds;
    AcceptedPassedAt(c, rules, log, i);
    EveryRefResolves(rules, PriorOf(log[..i]), StateOf(log[..i]), log[i], ref);
    PriorIdsMatch(log[..i], ref.target);
    j := 0;
    if Usable(StateOf(log[..i]), ref.target) {
      j := AcceptedIsEarlier(c, rules, log, i, ref.target);
      assert RestsOn(log[i], log[j].id);
    } else {
      assert RestsOn(log[i], ref.target);
    }
  }

  lemma EveryRefResolves(rules: Rules, prior: Prior, s: State, r: Record, ref: Ref)
    requires BatteryHolds(rules, prior, s, r) && ref in r.refs
    ensures ref.target in prior.byId
  {
    hide CheckKind, CheckReplacement, ExpectedEvidence, CheckRefs;
    RefsResolve(prior, s, r.space, r.refs, ref);
  }

  lemma EvidenceChecked(rules: Rules, prior: Prior, s: State, r: Record)
    requires BatteryHolds(rules, prior, s, r)
    ensures r.evidence == DeriveEvidence(r.schema, RefEvidences(s, prior.byId, r.refs))
    ensures !r.schema.UnknownSchema?
  {
    hide CheckKind, CheckReplacement, CheckRefs, DeriveEvidence, RefEvidences;
  }

  /** The class of one accepted record against its links: no stronger than its schema or
      than anything it rests on, the floor on a bad link, and otherwise one of those. */
  lemma EvidenceStep(c: Crypto, rules: Rules, log: seq<Record>, i: nat)
    requires LawfulLog(c, rules, log) && AcceptedAt(log, i)
    ensures var e := log[i].evidence;
            && !log[i].schema.UnknownSchema?
            && Rank(BaseEvidence(log[i].schema)) <= Rank(e)
            && (forall j: nat :: j < i && GoodLink(log, i, j) ==> Rank(log[j].evidence) <= Rank(e))
            && (BadLink(log, i) ==> e == Assumed)
            && (|| e == BaseEvidence(log[i].schema)
                || (exists j: nat :: j < i && GoodLink(log, i, j) && log[j].evidence == e)
                || BadLink(log, i))
  {
    hide Lawful, StateOf, PriorOf, RegimeOf, BatteryHolds, DeriveEvidence, RefEvidences, GoodLink, BadLink, RefEvidence;
    var r, s, found := log[i], StateOf(log[..i]), PriorOf(log[..i]).byId;
    AcceptedPassedAt(c, rules, log, i);
    EvidenceChecked(rules, PriorOf(log[..i]), s, r);
    var es := RefEvidences(s, found, r.refs);
    DerivedIsWeakestLink(r.schema, es);
    forall j: nat | j < i && GoodLink(log, i, j)
      ensures Rank(log[j].evidence) <= Rank(r.evidence)
    {
      GoodContributes(c, rules, log, i, j);
    }
    if BadLink(log, i) {
      BadContributes(c, rules, log, i);
    }
    if r.evidence in es {
      RefEvidencesMember(s, found, r.refs, r.evidence);
      var ref :| ref in r.refs && ref.target in found && RefEvidence(s, ref, found[ref.target]) == Some(r.evidence);
      OnlyEpistemicContributes(s, ref, found[ref.target]);
      var j := Contribution(c, rules, log, i, ref);
      LinkIsEarlier(log, i, j);
    }
  }

  lemma OnlyEpistemicContributes(s: State, ref: Ref, t: Record)
    ensures RefEvidence(s, ref, t).Some? ==> Epistemic(ref.kind)
  {
  }

  lemma LinkIsEarlier(log: seq<Record>, i: nat, j: nat)
    requires i < |log|
    ensures j < |log| && GoodLink(log, i, j) ==> j < i
  {
  }

  lemma GoodContributes(c: Crypto, rules: Rules, log: seq<Record>, i: nat, j: nat)
    requires LawfulLog(c, rules, log) && AcceptedAt(log, i) && j < i && GoodLink(log, i, j)
    ensures log[j].evidence in RefEvidences(StateOf(log[..i]), PriorOf(log[..i]).byId, log[i].refs)
  {
    hide Lawful, StateOf, PriorOf, RegimeOf, RefEvidences, RefEvidence;
    var ref :| ref in log[i].refs && Epistemic(ref.kind) && ref.target == log[j].id;
    var k := Contribution(c, rules, log, i, ref);
    SameIdSameRecord(c, rules, log, j, k);
    RefEvidencesMember(StateOf(log[..i]), PriorOf(log[..i]).byId, log[i].refs, log[j].evidence);
  }

  lemma BadContributes(c: Crypto, rules: Rules, log: seq<Record>, i: nat)
    requires LawfulLog(c, rules, log) && AcceptedAt(log, i) && BadLink(log, i)
    ensures Assumed in RefEvidences(StateOf(log[..i]), PriorOf(log[..i]).byId, log[i].refs)
  {
    hide Lawful, StateOf, PriorOf, RegimeOf, RefEvidences, RefEvidence, Usable;
    var t :| RestsOn(log[i], t) && !Usable(StateOf(log[..i]), t);
    var ref :| ref in log[i].refs && Epistemic(ref.kind) && ref.target == t;
    var k := Contribution(c, rules, log, i, ref);
    RefEvidencesMember(StateOf(log[..i]), PriorOf(log[..i]).byId, log[i].refs, Assumed);
  }

  // ----- The whole cone ---------------------------------------------------------------------------

  ghost predicate InCone(log: seq<Record>, i: nat, j: nat) {
    Reaches(Links(log), i, j)
  }

  lemma {:induction false} ConeIsAccepted(log: seq<Record>, p: seq<nat>)
    requires p != [] && Walk(Links(log), p) && p[0] < |log| && AcceptedAt(log, p[0])
    ensures p[|p| - 1] <= p[0] && AcceptedAt(log, p[|p| - 1])
  {
    hide Links, GoodLink;
    if |p| > 1 {
      var n := |p| - 1;
      WalkSlice(Links(log), p, 0, n);
      ConeIsAccepted(log, p[0..n]);
      assert Edge(Links(log), p[n - 1], p[n - 1 + 1]);
      LinkMeaning(log, p[n - 1], p[n]);
      GoodLinkAccepts(log, p[n - 1], p[n]);
    }
  }

  lemma GoodLinkAccepts(log: seq<Record>, i: nat, j: nat)
    requires i < |log| && j < |log| && GoodLink(log, i, j)
    ensures j < i && AcceptedAt(log, j)
  {
  }

  /** Evidence never inflates: a record is no stronger than the schema of anything in its
      cone, and is at the floor when anything in the cone rested on something bad. */
  lemma {:induction false} NothingInTheConeIsWeaker(c: Crypto, rules: Rules, log: seq<Record>, i: nat, p: seq<nat>)
    requires LawfulLog(c, rules, log) && AcceptedAt(log, i)
    requires p != [] && p[0] == i && Walk(Links(log), p)
    ensures p[|p| - 1] < |log|
    ensures Rank(BaseEvidence(log[p[|p| - 1]].schema)) <= Rank(log[i].evidence)
    ensures BadLink(log, p[|p| - 1]) ==> log[i].evidence == Assumed
    decreases |p|
  {
    hide Lawful, StateOf, RegimeOf, Links, GoodLink, BadLink, BaseEvidence;
    EvidenceStep(c, rules, log, i);
    if |p| > 1 {
      assert Edge(Links(log), p[0], p[0 + 1]);
      LinkMeaning(log, i, p[1]);
      GoodLinkAccepts(log, i, p[1]);
      WalkSlice(Links(log), p, 1, |p|);
      assert p[1..|p|][|p| - 2] == p[|p| - 1];
      NothingInTheConeIsWeaker(c, rules, log, p[1], p[1..|p|]);
      RankIsInjective(log[i].evidence, Assumed);
    }
  }

  /** And it is met: some record of the cone has that very base class, or a bad link. */
  lemma {:induction false} SomethingInTheConeIsAsWeak(c: Crypto, rules: Rules, log: seq<Record>, i: nat) returns (j: nat)
    requires LawfulLog(c, rules, log) && AcceptedAt(log, i)
    ensures j < |log| && InCone(log, i, j)
    ensures BaseEvidence(log[j].schema) == log[i].evidence || BadLink(log, j)
    decreases i
  {
    hide Lawful, StateOf, RegimeOf, Links, GoodLink, BadLink, BaseEvidence;
    EvidenceStep(c, rules, log, i);
    ReachesSelf(Links(log), i);
    j := i;
    if log[i].evidence != BaseEvidence(log[i].schema) && !BadLink(log, i) {
      var k: nat :| k < i && GoodLink(log, i, k) && log[k].evidence == log[i].evidence;
      LinkMeaning(log, i, k);
      GoodLinkAccepts(log, i, k);
      j := SomethingInTheConeIsAsWeak(c, rules, log, k);
      StepThenReach(Links(log), i, k, j);
    }
  }

  /** The evidence of an accepted record, in closed form: the floor if and only if some
      record of its cone rested on something rejected, retracted or tainted; otherwise the
      weakest base class of the cone. */
  lemma EvidenceIsTheWeakestOfTheCone(c: Crypto, rules: Rules, log: seq<Record>, i: nat)
    requires LawfulLog(c, rules, log) && AcceptedAt(log, i)
    ensures log[i].evidence == Assumed <==> exists j: nat :: j < |log| && InCone(log, i, j) && BadLink(log, j)
    ensures forall j: nat :: j < |log| && InCone(log, i, j) ==>
              Rank(BaseEvidence(log[j].schema)) <= Rank(log[i].evidence)
    ensures log[i].evidence != Assumed ==>
              exists j: nat :: j < |log| && InCone(log, i, j) && BaseEvidence(log[j].schema) == log[i].evidence
  {
    hide Lawful, StateOf, RegimeOf, Links, GoodLink, BadLink, BaseEvidence;
    forall j: nat | j < |log| && InCone(log, i, j)
      ensures Rank(BaseEvidence(log[j].schema)) <= Rank(log[i].evidence)
      ensures BadLink(log, j) ==> log[i].evidence == Assumed
    {
      var p :| WalkFrom(Links(log), p, i, j);
      NothingInTheConeIsWeaker(c, rules, log, i, p);
    }
    var j := SomethingInTheConeIsAsWeak(c, rules, log, i);
    var p :| WalkFrom(Links(log), p, i, j);
    ConeIsAccepted(log, p);
    EvidenceStep(c, rules, log, j);
    KnownSchemasAreNotAssumed(log[j].schema);
  }

  lemma KnownSchemasAreNotAssumed(s: Schema)
    ensures !s.UnknownSchema? ==> BaseEvidence(s) != Assumed
  {
  }
}
