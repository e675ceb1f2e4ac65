// Evidence classes, strongest to weakest, and the weakest-link derivation.
module EvidenceRules {
  import opened Records
  import opened LedgerState

  function Rank(e: Evidence): nat {
    match e
    case Deterministic => 0
    case Verified => 1
    case Reported => 2
    case Inferred => 3
    case Assumed => 4
  }

  lemma RankIsInjective(a: Evidence, b: Evidence)
    ensures Rank(a) == Rank(b) ==> a == b
  {
  }

  function Weaker(a: Evidence, b: Evidence): Evidence {
    if Rank(a) < Rank(b) then b else a
  }

  function BaseEvidence(s: Schema): Evidence {
    match s
    case VerdictV1 => Deterministic
    case ResultExternal => Verified
    case EvaluationAttested => Verified
    case SummaryV1 => Inferred
    case PlanV1 => Inferred
    case SelectionV1 => Inferred
    case UnknownSchema(_) => Assumed
    case _ => Reported
  }

  function Weakest(es: seq<Evidence>): Evidence {
    if es == [] then Deterministic else Weaker(es[0], Weakest(es[1..]))
  }

  function DeriveEvidence(s: Schema, es: seq<Evidence>): Evidence {
    if es == [] then BaseEvidence(s) else Weakest([BaseEvidence(s)] + es)
  }

  /** What a ref contributes: provenance nothing, bad content the floor. */
  function RefEvidence(s: State, ref: Ref, target: Record): Option<Evidence> {
    if !Epistemic(ref.kind) then None
    else if !Usable(s, target.id) then Some(Assumed)
    else Some(target.evidence)
  }

  function RefEvidences(s: State, found: map<Id, Record>, refs: seq<Ref>): seq<Evidence> {
    if refs == [] then []
    else
      var rest := RefEvidences(s, found, refs[1..]);
      if refs[0].target !in found then rest
      else
        var e := RefEvidence(s, refs[0], found[refs[0].target]);
        if e.Some? then [e.value] + rest else rest
  }

  // ----- Derivation depends only on which classes occur ------------------------

  lemma {:induction false} WeakestBounds(es: seq<Evidence>, i: nat)
    requires i < |es|
    ensures Rank(es[i]) <= Rank(Weakest(es))
  {
    if i > 0 {
      WeakestBounds(es[1..], i - 1);
    }
  }

  lemma {:induction false} WeakestIsOne(es: seq<Evidence>)
    requires es != []
    ensures Weakest(es) in es
  {
    if |es| > 1 {
      WeakestIsOne(es[1..]);
    } else {
      assert es[1..] == [];
      assert Weakest(es) == Weaker(es[0], Deterministic);
    }
  }

  /** The derived class is a bound on the base and on every contribution, and is met. */
  lemma DerivedIsWeakestLink(s: Schema, es: seq<Evidence>)
    ensures var d := DeriveEvidence(s, es);
            && Rank(BaseEvidence(s)) <= Rank(d)
            && (forall e :: e in es ==> Rank(e) <= Rank(d))
            && (d == BaseEvidence(s) || d in es)
  {
    if es != [] {
      var all := [BaseEvidence(s)] + es;
      WeakestIsOne(all);
      WeakestBounds(all, 0);
      forall e | e in es
        ensures Rank(e) <= Rank(DeriveEvidence(s, es))
      {
        var i :| 0 <= i < |es| && es[i] == e;
        assert all[i + 1] == e;
        WeakestBounds(all, i + 1);
      }
    }
  }

  lemma DerivationIgnoresOrder(s: Schema, xs: seq<Evidence>, ys: seq<Evidence>)
    requires forall e :: e in xs <==> e in ys
    ensures DeriveEvidence(s, xs) == DeriveEvidence(s, ys)
  {
    DerivedIsWeakestLink(s, xs);
    DerivedIsWeakestLink(s, ys);
    RankIsInjective(DeriveEvidence(s, xs), DeriveEvidence(s, ys));
  }

  lemma {:induction false} RefEvidencesMember(s: State, found: map<Id, Record>, refs: seq<Ref>, e: Evidence)
    ensures e in RefEvidences(s, found, refs) <==>
            exists ref :: ref in refs && ref.target in found && RefEvidence(s, ref, found[ref.target]) == Some(e)
  {
    if refs != [] {
      RefEvidencesMember(s, found, refs[1..], e);
      assert refs == [refs[0]] + refs[1..];
    }
  }

  /** The writer derives evidence from the refs as proposed, the verifier from the refs
      as sorted and deduplicated; equal ref sets give equal evidence. */
  lemma EvidenceIgnoresRefOrder(sc: Schema, s: State, found: map<Id, Record>, xs: seq<Ref>, ys: seq<Ref>)
    requires forall ref :: ref in xs <==> ref in ys
    ensures DeriveEvidence(sc, RefEvidences(s, found, xs)) == DeriveEvidence(sc, RefEvidences(s, found, ys))
  {
    forall e
      ensures e in RefEvidences(s, found, xs) <==> e in RefEvidences(s, found, ys)
    {
      RefEvidencesMember(s, found, xs, e);
      RefEvidencesMember(s, found, ys, e);
    }
    DerivationIgnoresOrder(sc, RefEvidences(s, found, xs), RefEvidences(s, found, ys));
  }
}
