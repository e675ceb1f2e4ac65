// Every verdict of a verified log is the rulebook's, and every log whose verdicts are is
// verified: replay by index and running state decides exactly the logs the rules describe.
module Verdicts {
  import opened Records
  import opened LedgerState
  import opened Refs
  import opened Rules
  import opened Checks
  import opened Ledger
  import opened Replay
  import opened EvidenceRules
  import opened Facts
  import opened Commits
  import opened Build
  import opened Reachability
  import opened Slots
  import opened Histories
  import opened Pasts
  import opened Rulebook
  import opened Rulings
  import opened Reflections

  function Outcome(x: Ruling): Judgment {
    match x
    case Fine => Accept
    case Broken(why) => Reject(why)
  }

  /** Against any verified log a subject is judged by the book. */
  lemma JudgeFollowsTheRulebook(c: Crypto, rules: Rules, log: seq<Record>, r: Record)
    requires LawfulLog(c, rules, log) && r.kind != Verdict
    ensures Judge(c, rules, PriorOf(log), StateOf(log), r) == Outcome(RulingOn(c, rules, PastOf(log), r))
  {
    hide Lawful, RegimeOf, StateOf, PriorOf, PastOf, Reflects, CheckSubject, RulingOn, CarriesCycle;
    LogReflects(c, rules, log);
    BatteryIsRulebook(c, rules, PastOf(log), PriorOf(log), StateOf(log), r);
  }

  // ----- Whole logs -------------------------------------------------------------------------------

  /** The one form a verdict on a subject takes, with this outcome. */
  predicate IsVerdictOn(c: Crypto, rules: Rules, s: Record, v: Record, j: Judgment) {
    && v.kind == Verdict && v.schema == VerdictV1 && v.id == c.hash(v.(id := 0))
    && v.author.role == Verifier && v.author.signature == None && v.evidence == Deterministic
    && v.space == rules.space && v.thread == s.thread
    && v.refs == [Ref(Cause, s.id)] && v.data == VerdictData(j)
  }

  /** The pair at a position: an addressed subject of the space and the rulebook's verdict on
      it, one time step apart. */
  ghost predicate PairByTheBook(c: Crypto, rules: Rules, log: seq<Record>, i: nat)
    requires i + 1 < |log|
  {
    var s, v := log[i], log[i + 1];
    && s.kind != Verdict && s.id == c.hash(s.(id := 0)) && s.space == rules.space
    && s.time == i + 1 && v.time == i + 2
    && IsVerdictOn(c, rules, s, v, Outcome(RulingOn(c, rules, PastOf(log[..i]), s)))
  }

  ghost predicate ByTheBook(c: Crypto, rules: Rules, log: seq<Record>) {
    |log| % 2 == 0 && forall i: nat :: i + 1 < |log| && i % 2 == 0 ==> PairByTheBook(c, rules, log, i)
  }

  lemma PairMeans(c: Crypto, rules: Rules, g: seq<Record>, s: Record, v: Record)
    requires LawfulLog(c, rules, g)
    ensures PairOk(RegimeOf(c, rules), g, s, v) <==>
      && s.kind != Verdict && s.id == c.hash(s.(id := 0)) && s.space == rules.space
      && s.time == |g| + 1 && v.time == |g| + 2
      && IsVerdictOn(c, rules, s, v, Outcome(RulingOn(c, rules, PastOf(g), s)))
  {
    hide Lawful, StateOf, PriorOf, PastOf, Judge, RulingOn;
    if s.kind != Verdict {
      JudgeFollowsTheRulebook(c, rules, g, s);
    }
  }

  lemma PairOfPrefix(c: Crypto, rules: Rules, log: seq<Record>, n: nat, i: nat)
    requires i + 1 < n <= |log|
    ensures PairByTheBook(c, rules, log[..n], i) <==> PairByTheBook(c, rules, log, i)
  {
    hide RulingOn, PastOf;
    assert log[..n][..i] == log[..i];
  }

  /** What replay accepts is what the rulebook describes, neither more nor less. */
  lemma {:induction false} LawfulIsByTheBook(c: Crypto, rules: Rules, log: seq<Record>)
    requires Collisionless(c)
    ensures Lawful(RegimeOf(c, rules), log) <==> ByTheBook(c, rules, log)
    decreases |log|
  {
    hide RegimeOf, StateOf, PriorOf, PastOf, PairOk, PairByTheBook, IsVerdictOn;
    if |log| >= 2 && |log| % 2 == 0 {
      var n := |log| - 2;
      var g := log[..n];
      LawfulIsByTheBook(c, rules, g);
      forall i: nat | i + 1 < n && i % 2 == 0
        ensures PairByTheBook(c, rules, g, i) <==> PairByTheBook(c, rules, log, i)
      {
        PairOfPrefix(c, rules, log, n, i);
      }
      if Lawful(RegimeOf(c, rules), g) {
        LastPair(c, rules, log);
      }
    }
  }

  lemma LastPair(c: Crypto, rules: Rules, log: seq<Record>)
    requires |log| >= 2 && LawfulLog(c, rules, log[..|log| - 2])
    ensures var n := |log| - 2;
            PairOk(RegimeOf(c, rules), log[..n], log[n], log[n + 1]) <==> PairByTheBook(c, rules, log, n)
  {
    hide RegimeOf, StateOf, PriorOf, PastOf, PairOk, Lawful, IsVerdictOn;
    PairMeans(c, rules, log[..|log| - 2], log[|log| - 2], log[|log| - 1]);
  }

  /** The verdict at every odd position. */
  lemma VerdictsFollowTheRulebook(c: Crypto, rules: Rules, log: seq<Record>, i: nat)
    requires LawfulLog(c, rules, log) && i + 1 < |log| && i % 2 == 0
    ensures log[i + 1].data == VerdictData(Outcome(RulingOn(c, rules, PastOf(log[..i]), log[i])))
  {
    hide Lawful, RulingOn, PastOf, RegimeOf;
    LawfulIsByTheBook(c, rules, log);
    assert PairByTheBook(c, rules, log, i);
  }

  // ----- Said of positions --------------------------------------------------------------------------

  /** The subject at a position was accepted. */
  ghost predicate PassedAt(log: seq<Record>, i: nat) {
    i + 1 < |log| && i % 2 == 0 && log[i + 1].data == VerdictData(Accept)
  }

  lemma PassedMeans(log: seq<Record>, i: nat)
    ensures PassedAt(log, i) <==> AcceptedAt(log, i)
  {
  }

  lemma PassedRuling(c: Crypto, rules: Rules, log: seq<Record>, i: nat)
    requires LawfulLog(c, rules, log) && i + 1 < |log| && i % 2 == 0
    ensures PassedAt(log, i) <==> RulingOn(c, rules, PastOf(log[..i]), log[i]).Fine?
  {
    hide Lawful, RulingOn, PastOf, RegimeOf;
    VerdictsFollowTheRulebook(c, rules, log, i);
  }

  /** An id accepted before a position is that of an accepted subject there. */
  lemma AcceptedBefore(c: Crypto, rules: Rules, log: seq<Record>, i: nat, id: Id)
    requires LawfulLog(c, rules, log) && i + 1 < |log| && i % 2 == 0
    ensures var p := PastOf(log[..i]);
            && (p.Accepted(id) <==> exists j: nat :: j < i && PassedAt(log, j) && log[j].id == id)
            && (forall j: nat :: j < i && log[j].id == id ==> p.Named(id) == Some(log[j]))
  {
    hide Lawful, PastOf, RegimeOf, StateOf, PriorOf, Past.Named, Past.Accepted, PassedAt, AcceptedAt;
    var g, p := log[..i], PastOf(log[..i]);
    RegimeHolds(c, rules);
    PrefixVerified(RegimeOf(c, rules), log, i);
    IdsAreUnique(RegimeOf(c, rules), g);
    StandingReflects(g);
    AcceptedExactly(g, id);
    forall j: nat | j < i
      ensures AcceptedAt(g, j) <==> PassedAt(log, j)
    {
      PassedPrefix(log, i, j);
    }
    forall j: nat | j < i && log[j].id == id
      ensures p.Named(id) == Some(log[j])
    {
      PriorAt(g, j);
      NamesAgree(g, id);
    }
    AcceptedInside(g);
  }

  lemma PassedPrefix(log: seq<Record>, i: nat, j: nat)
    requires i <= |log| && i % 2 == 0 && j < i
    ensures AcceptedAt(log[..i], j) <==> PassedAt(log, j)
  {
  }

  lemma AcceptedInside(g: seq<Record>)
    ensures forall j: nat :: AcceptedAt(g, j) ==> j < |g|
  {
  }

  /** What a retraction at `i` needs of the record at `j`. */
  ghost predicate MayRetract(rules: Rules, log: seq<Record>, i: nat, j: nat)
    requires i < |log|
  {
    && j < i && PassedAt(log, j) && log[j].kind != Retraction
    && log[i].data.RetractionData? && log[i].data.targetId == log[j].id
    && OnlyNames(log[i].refs, Cause, log[j].id)
    && (log[i].author.id == log[j].author.id || log[i].author.id in rules.adminRetractionActors)
  }

  lemma RetractionRuling(c: Crypto, rules: Rules, log: seq<Record>, i: nat)
    requires LawfulLog(c, rules, log) && i + 1 < |log| && i % 2 == 0
    ensures Retractions(rules, PastOf(log[..i]), log[i]).Fine? <==> exists j: nat :: MayRetract(rules, log, i, j)
  {
    hide Lawful, PastOf, RegimeOf, StateOf, PriorOf, Past.Named, Past.Accepted, PassedAt, OnlyNames;
    var r, p := log[i], PastOf(log[..i]);
    if r.data.RetractionData? {
      AcceptedBefore(c, rules, log, i, r.data.targetId);
      if j: nat :| MayRetract(rules, log, i, j) {
        SubjectIsNoVerdict(c, rules, log, j);
      }
      if p.Accepted(r.data.targetId) && OnlyNames(r.refs, Cause, r.data.targetId) {
        var j: nat :| j < i && PassedAt(log, j) && log[j].id == r.data.targetId;
        assert p.Named(r.data.targetId) == Some(log[j]);
        assert Retractions(rules, p, r).Fine? ==> MayRetract(rules, log, i, j);
      }
    }
  }

  lemma SubjectIsNoVerdict(c: Crypto, rules: Rules, log: seq<Record>, j: nat)
    requires LawfulLog(c, rules, log) && PassedAt(log, j)
    ensures log[j].kind != Verdict
  {
    hide Lawful, RegimeOf, StateOf;
    RegimeHolds(c, rules);
    PositionFacts(RegimeOf(c, rules), log, j);
  }

  /** Every accepted retraction names, as its only Cause, an earlier accepted record that is
      no retraction, and is by that record's author or an administrator; and a retraction
      with nothing wrong in its envelope is accepted exactly then. */
  lemma RetractionsAreOwned(c: Crypto, rules: Rules, log: seq<Record>, i: nat)
    requires LawfulLog(c, rules, log) && i + 1 < |log| && i % 2 == 0 && log[i].kind == Retraction
    ensures PassedAt(log, i) <==>
      Envelope(c, rules, PastOf(log[..i]), log[i]).Fine? && exists j: nat :: MayRetract(rules, log, i, j)
  {
    hide Lawful, PastOf, RegimeOf, StateOf, PriorOf, PassedAt, Envelope, Retractions;
    PassedRuling(c, rules, log, i);
    RetractionRuling(c, rules, log, i);
  }

  /** Nobody else's retraction is ever accepted: one that is otherwise in order but names
      another author's record gets the reason for it. */
  lemma OthersMayNotRetract(c: Crypto, rules: Rules, log: seq<Record>, i: nat, j: nat)
    requires LawfulLog(c, rules, log) && i + 1 < |log| && i % 2 == 0 && log[i].kind == Retraction
    requires Envelope(c, rules, PastOf(log[..i]), log[i]).Fine? && j < i && PassedAt(log, j)
        && log[j].kind != Retraction
    requires log[i].data.RetractionData? && log[i].data.targetId == log[j].id
        && OnlyNames(log[i].refs, Cause, log[j].id)
    requires log[i].author.id != log[j].author.id && log[i].author.id !in rules.adminRetractionActors
    ensures log[i + 1].data == VerdictData(Reject(AuthorRoleInvalid))
  {
    hide Lawful, PastOf, RegimeOf, StateOf, PriorOf, PassedAt, Envelope, OnlyNames, Past.Named, Past.Accepted;
    VerdictsFollowTheRulebook(c, rules, log, i);
    AcceptedBefore(c, rules, log, i, log[j].id);
    SubjectIsNoVerdict(c, rules, log, j);
  }

  // ----- Who may write what -------------------------------------------------------------------------

  /** An accepted record was written in its author's configured role, one that may author its
      kind, and is signed by the author where a signature is due; and a subject that is
      addressed, ordered and of a known schema but not so written gets the reason why. */
  lemma AuthorsAreAuthorized(c: Crypto, rules: Rules, log: seq<Record>, i: nat)
    requires LawfulLog(c, rules, log) && i + 1 < |log| && i % 2 == 0
    ensures var r := log[i];
            PassedAt(log, i) ==>
              && MayAuthor(rules, r)
              && (MustSign(rules, r) ==> r.author.signature.Some?)
              && (r.author.signature.Some? ==> SignedByAuthor(c, rules, r))
    ensures var r := log[i];
            Identity(c, rules, r).Fine? ==>
              && (!MayAuthor(rules, r) ==> log[i + 1].data == VerdictData(Reject(AuthorRoleInvalid)))
              && (MayAuthor(rules, r) && MustSign(rules, r) && r.author.signature.None? ==>
                    log[i + 1].data == VerdictData(Reject(SignatureMissing)))
              && (MayAuthor(rules, r) && r.author.signature.Some? && !SignedByAuthor(c, rules, r) ==>
                    log[i + 1].data == VerdictData(Reject(SignatureInvalid)))
  {
    hide Lawful, PastOf, RegimeOf, StateOf, PriorOf, Identity, References, Replacement, Evidenced, SchemasFor, ByKind,
         MayAuthor, MustSign, SignedByAuthor;
    VerdictsFollowTheRulebook(c, rules, log, i);
  }

  // ----- Verdict records ----------------------------------------------------------------------------

  /** A record that should be a verdict, against everything before it. */
  ghost function VerdictRuling(c: Crypto, rules: Rules, log: seq<Record>, v: Record): Ruling {
    Must(v.id == c.hash(v.(id := 0)), InvalidPayload)
      .Then(Must(v.schema == VerdictV1, KindSchemaMismatch))
      .Then(Must(v.author.role == Verifier && v.author.signature.None? && v.space == rules.space
                 && v.evidence == Deterministic && v.data.VerdictData?, InvalidPayload))
      .Then(if |v.refs| == 1 && v.refs[0].kind == Cause
            then Judged(log, v, v.refs[0].target)
            else Broken(InvalidPayload))
  }

  /** What it judges is on record, beside it, no verdict itself, and not judged yet. */
  ghost function Judged(log: seq<Record>, v: Record, x: Id): Ruling {
    var t := Past(log, []).Named(x);
    if t.None? then Broken(RefUnresolved)
    else
      Must(t.value.kind != Verdict && t.value.thread == v.thread && t.value.space == v.space, InvalidPayload)
        .Then(Must(forall w :: w in log && w.kind == Verdict ==> Ref(Cause, x) !in w.refs, InvalidPayload))
  }

  lemma VerdictRuled(c: Crypto, rules: Rules, log: seq<Record>, v: Record)
    ensures CheckVerdict(c, rules, PriorOf(log), v) == AsFinding(VerdictRuling(c, rules, log, v))
  {
    hide PriorOf, Past.Named;
    if |v.refs| == 1 {
      var x := v.refs[0].target;
      NamesAgree(log, x);
      SameNamed(log, x);
      PriorVerdicted(log, x);
      forall w | w in log && w.kind == Verdict
        ensures x in Targets(w.refs, Cause) <==> Ref(Cause, x) in w.refs
      {
      }
      assert forall i :: 0 <= i < |log| ==> log[i] in log;
    }
  }

  lemma SameNamed(log: seq<Record>, x: Id)
    ensures PastOf(log).Named(x) == Past(log, []).Named(x)
  {
    OneNamed(log, x);
  }

  /** Why the pair at a position is at fault: what stands where a verdict should, or the
      outcome the rulebook gives, when another is on record. */
  ghost function FaultByTheBook(c: Crypto, rules: Rules, records: seq<Record>, i: nat): Ruling
    requires i < |records|
  {
    var g, s := records[..i], records[i];
    if s.kind == Verdict then VerdictRuling(c, rules, g, s)
    else if i + 1 == |records| || records[i + 1].kind != Verdict then Broken(InvalidPayload)
    else
      var v, right := records[i + 1], RulingOn(c, rules, PastOf(g), s);
      VerdictRuling(c, rules, records[..i + 1], v)
        .Then(Must(v.refs == [Ref(Cause, s.id)], InvalidPayload))
        .Then(if v.data == VerdictData(Outcome(right)) then Fine
              else if right.Broken? then right else Broken(InvalidPayload))
  }

  lemma PairedRuled(c: Crypto, rules: Rules, g: seq<Record>, s: Record, v: Record)
    ensures CheckPaired(c, rules, PriorOf(g).Insert(s), s, v)
         == AsFinding(VerdictRuling(c, rules, g + [s], v).Then(Must(v.refs == [Ref(Cause, s.id)], InvalidPayload)))
  {
    hide CheckVerdict, VerdictRuling, PriorOf;
    PriorStep(g, s);
    VerdictRuled(c, rules, g + [s], v);
    if VerdictRuling(c, rules, g + [s], v).Fine? {
      VerdictNamesOne(c, rules, g + [s], v);
    }
  }

  lemma VerdictNamesOne(c: Crypto, rules: Rules, log: seq<Record>, v: Record)
    requires VerdictRuling(c, rules, log, v).Fine?
    ensures v.data.VerdictData? && |v.refs| == 1 && v.refs[0].kind == Cause && v.refs == [v.refs[0]]
  {
    hide Judged;
  }

  lemma MisjudgedRuled(right: Ruling, v: Record)
    requires v.data.VerdictData?
    ensures Misjudged(Outcome(right), JudgmentOf(v)) ==
      AsFinding(if v.data == VerdictData(Outcome(right)) then Fine
                else if right.Broken? then right else Broken(InvalidPayload))
  {
  }

  /** Replay reports the first fault with the reason the rulebook gives for it. */
  lemma FaultsFollowTheRulebook(c: Crypto, rules: Rules, records: seq<Record>, i: nat)
    requires i < |records| && LawfulLog(c, rules, records[..i])
    ensures FaultAt(c, rules, records, i) == AsFinding(FaultByTheBook(c, rules, records, i))
  {
    hide Lawful, RegimeOf, StateOf, PriorOf, PastOf, Judge, RulingOn, CheckVerdict, VerdictRuling, CheckPaired,
         Misjudged, JudgmentOf;
    var g, s := records[..i], records[i];
    VerdictRuled(c, rules, g, s);
    if s.kind != Verdict && i + 1 < |records| {
      var v := records[i + 1];
      assert records[..i + 1] == g + [s];
      PairedRuled(c, rules, g, s, v);
      JudgeFollowsTheRulebook(c, rules, g, s);
      if VerdictRuling(c, rules, g + [s], v).Fine? {
        VerdictNamesOne(c, rules, g + [s], v);
        MisjudgedRuled(RulingOn(c, rules, PastOf(g), s), v);
      }
    }
  }

  // ----- What a commit appends ----------------------------------------------------------------------

  /** The subject a proposal becomes on a log: its own content, refs in canonical order, the
      next time, the class its refs and schema call for, and its own address. */
  ghost predicate SubjectByTheBook(c: Crypto, log: seq<Record>, p: Proposal, s: Record) {
    && s.space == p.space && s.thread == p.thread && s.author == p.author && s.kind == p.kind
    && s.schema == p.schema && s.data == p.data
    && Rulebook.InOrder(s.refs) && (forall ref :: ref in s.refs <==> ref in p.refs)
    && s.time == |log| + 1 && RightClass(PastOf(log), s) && s.id == c.hash(s.(id := 0))
  }

  lemma MaterializedSubject(c: Crypto, prior: Prior, s: State, time: nat, p: Proposal)
    ensures var r := Materialize(c, prior, s, time, p);
            && r.space == p.space && r.thread == p.thread && r.author == p.author && r.kind == p.kind
            && r.schema == p.schema && r.data == p.data && r.refs == Canonical(p.refs) && r.time == time
            && r.id == c.hash(r.(id := 0))
            && r.evidence == ExpectedEvidence(prior, s, r)
  {
    hide DeriveEvidence, RefEvidences, Canonical;
    EvidenceIsAsExpected(c, prior, s, time, p);
    var r := Materialize(c, prior, s, time, p);
    assert r.(id := 0).data == p.data && r.(id := 0).author == p.author && r.(id := 0).schema == p.schema;
    assert r.(id := 0).refs == Canonical(p.refs) && r.(id := 0).kind == p.kind && r.(id := 0).space == p.space;
    assert r.(id := 0).thread == p.thread && r.(id := 0).time == time;
  }

  lemma ExpectedIsRight(p: Past, prior: Prior, s: State, r: Record)
    requires SameNames(p, prior) && SameStanding(p, s) && r.evidence == ExpectedEvidence(prior, s, r)
    ensures RightClass(p, r)
  {
    hide SameNames, SameStanding, RightClass, DeriveEvidence, RefEvidences;
    var none := Rules(0, {}, {}, map[], map[], {}, {}, map[], BoundReported, false, {}, 0, false, false);
    EvidenceRuled(none, p, prior, s, r);
  }

  /** On a verified log a commit appends the subject and, under the name `verifier`, the
      verdict the rulebook gives it. */
  lemma CommitsByTheBook(c: Crypto, rules: Rules, log: seq<Record>, p: Proposal)
    requires LawfulLog(c, rules, log) && p.kind != Verdict && p.space == rules.space
    ensures var s, v := CommitPair(c, rules, log, p)[0], CommitPair(c, rules, log, p)[1];
            && SubjectByTheBook(c, log, p, s)
            && IsVerdictOn(c, rules, s, v, Outcome(RulingOn(c, rules, PastOf(log), s)))
            && v.author.id == "verifier" && v.time == |log| + 2
  {
    hide Lawful, RegimeOf, StateOf, PriorOf, PastOf, Built, Judge, RulingOn, SameNames, SameStanding, RightClass,
         ExpectedEvidence, Canonical, Materialize;
    ReplayedLogBuilds(c, rules, log);
    LogReflects(c, rules, log);
    ReflectsNames(PastOf(log), PriorOf(log), StateOf(log));
    var s := SubjectOn(c, log, p);
    MaterializedSubject(c, PriorOf(log), StateOf(log), |log| + 1, p);
    OrderMeans(s.refs);
    ExpectedIsRight(PastOf(log), PriorOf(log), StateOf(log), s);
    JudgeFollowsTheRulebook(c, rules, log, s);
    VerdictWritten(c, rules, s, s.time + 1, Judge(c, rules, PriorOf(log), StateOf(log), s));
  }

  lemma ReflectsNames(p: Past, prior: Prior, s: State)
    requires Reflects(p, prior, s)
    ensures SameNames(p, prior) && SameStanding(p, s)
  {
    hide SameNames, SameStanding;
  }

  lemma VerdictWritten(c: Crypto, rules: Rules, s: Record, time: nat, j: Judgment)
    requires s.space == rules.space
    ensures var v := MaterializeVerdict(c, s, time, j);
            IsVerdictOn(c, rules, s, v, j) && v.author.id == "verifier" && v.time == time
  {
    VerdictShape(c, s, time, j);
    var v := MaterializeVerdict(c, s, time, j);
    assert v.(id := 0).author == Author("verifier", Verifier, None) && v.(id := 0).time == time;
    assert v.(id := 0).data == VerdictData(j) && v.(id := 0).thread == s.thread;
  }

  // ----- Replaced records ----------------------------------------------------------------------------

  ghost predicate Supersedes(r: Record, x: Id) {
    r.kind in {Capability, Approval, Summary, Plan, Selection} && FirstNames(r.refs, Replace, x)
  }

  /** The replaced index of a history: what the first Replace of a superseding record names. */
  lemma {:induction false} ReplacedAreNamed(h: seq<Record>, x: Id)
    requires Reachable(h)
    ensures x in Fold(h).replaced <==> exists i :: 0 <= i < |h| && Supersedes(h[i], x)
  {
    hide GoodStep, Apply, Supersedes, FirstTarget, FitsKind;
    if h != [] {
      var g, r := h[..|h| - 1], h[|h| - 1];
      assert h == g + [r];
      ReplacedAreNamed(g, x);
      Projects(Fold(g), r);
      GoodTarget(Fold(g), r);
      SupersedesMeans(r, x);
      if i :| 0 <= i < |g| && Supersedes(g[i], x) {
        assert h[i] == g[i];
      }
      if i :| 0 <= i < |h| && Supersedes(h[i], x) {
        assert i < |g| ==> h[i] == g[i];
      }
    }
  }

  lemma SupersedesMeans(r: Record, x: Id)
    ensures Supersedes(r, x) <==> LedgerState.Supersedes(r.kind) && FirstTarget(r.refs, Replace) == Some(x)
  {
    hide FirstNames, FirstTarget, LedgerState.Supersedes;
    SupersedingKinds(r.kind);
    TargetsMean(r.refs, Replace);
  }

  lemma ReplacementPassed(c: Crypto, rules: Rules, log: seq<Record>, i: nat)
    requires LawfulLog(c, rules, log) && i < |log| && PassedAt(log, i)
    ensures Replacement(PastOf(log[..i]), log[i]).Fine?
  {
    hide Lawful, RegimeOf, PastOf, ByKind, Identity, Authorship, References, Replacement, Evidenced, SchemasFor;
    PassedRuling(c, rules, log, i);
  }

  /** The one record an accepted record replaces is of its own kind, one that supersedes. */
  lemma ReplacingRuled(c: Crypto, rules: Rules, log: seq<Record>, i: nat)
    requires LawfulLog(c, rules, log) && i < |log| && PassedAt(log, i)
    ensures !Several(log[i].refs, Replace)
    ensures NoneOf(log[i].refs, Replace) || log[i].kind in {Capability, Approval, Summary, Plan, Selection}
    ensures forall x :: Ref(Replace, x) in log[i].refs ==> NamesAccepted(PastOf(log[..i]), x, log[i].kind)
  {
    hide LawfulLog, PastOf, PassedAt, Several, NoneOf, SameTerms, FitsReplacement, Past.Accepted, Past.Named;
    ReplacementPassed(c, rules, log, i);
  }

  lemma SoleFirst(refs: seq<Ref>, t: RefType, x: Id)
    requires !Several(refs, t)
    ensures FirstNames(refs, t, x) <==> Ref(t, x) in refs
    ensures Ref(t, x) in refs ==> !NoneOf(refs, t)
  {
    if i :| 0 <= i < |refs| && refs[i] == Ref(t, x) {
      assert FirstAt(refs, t, i);
    }
  }

  lemma ReplacingMeans(c: Crypto, rules: Rules, log: seq<Record>, i: nat, x: Id)
    requires LawfulLog(c, rules, log) && i < |log| && PassedAt(log, i)
    ensures log[i] in AcceptedOf(log)
    ensures Supersedes(log[i], x) <==> Ref(Replace, x) in log[i].refs
  {
    PassedMeans(log, i);
    hide Lawful, RegimeOf, AcceptedOf, PastOf, PassedAt, AcceptedAt, FirstNames, Several, NoneOf, NamesAccepted;
    VerifiedIsPaired(RegimeOf(c, rules), log);
    HistoryMember(log, log[i]);
    ReplacingRuled(c, rules, log, i);
    SoleFirst(log[i].refs, Replace, x);
  }

  /** The replaced index of a verified log holds exactly what some accepted record replaces. */
  lemma ReplacedIsDeclared(c: Crypto, rules: Rules, log: seq<Record>, x: Id)
    requires LawfulLog(c, rules, log)
    ensures x in StateOf(log).replaced <==> exists i: nat :: PassedAt(log, i) && Ref(Replace, x) in log[i].refs
  {
    PassedInside(log);
    AcceptedInside(log);
    hide Lawful, RegimeOf, StateOf, AcceptedOf, Fold, Reachable, PassedAt, AcceptedAt, Supersedes;
    var h := AcceptedOf(log);
    VerifiedIsPaired(RegimeOf(c, rules), log);
    VerifiedIsReachable(c, rules, log);
    StateIsFold(log);
    ReplacedAreNamed(h, x);
    if x in StateOf(log).replaced {
      var k :| 0 <= k < |h| && Supersedes(h[k], x);
      HistoryMember(log, h[k]);
      var i: nat :| AcceptedAt(log, i) && log[i] == h[k];
      PassedMeans(log, i);
      ReplacingMeans(c, rules, log, i, x);
    }
    if i: nat :| i < |log| && PassedAt(log, i) && Ref(Replace, x) in log[i].refs {
      ReplacingMeans(c, rules, log, i, x);
      var k :| 0 <= k < |h| && h[k] == log[i];
    }
  }

  lemma PassedInside(log: seq<Record>)
    ensures forall i: nat :: PassedAt(log, i) ==> i < |log|
  {
  }
}
