// The canonical form of a ref list: strictly sorted by type ordinal, then target.
module Refs {
  import opened Records

  function Ordinal(t: RefType): nat {
    match t
    case Cause => 0
    case Use => 1
    case Require => 2
    case Replace => 3
  }

  predicate Before(a: Ref, b: Ref) {
    Ordinal(a.kind) < Ordinal(b.kind) || (a.kind == b.kind && a.target < b.target)
  }

  predicate StrictlySorted(refs: seq<Ref>) {
    forall i :: 0 <= i < |refs| - 1 ==> Before(refs[i], refs[i + 1])
  }

  lemma {:induction false} SortedPairs(refs: seq<Ref>, i: nat, j: nat)
    requires StrictlySorted(refs) && i < j < |refs|
    ensures Before(refs[i], refs[j])
    decreases j
  {
    if i < j - 1 {
      SortedPairs(refs, i, j - 1);
    }
    assert Before(refs[j - 1], refs[j - 1 + 1]);
  }

  // ----- Picking refs of one type ----------------------------------------------------------

  /** The position of the first ref of a type. */
  ghost predicate FirstAt(refs: seq<Ref>, t: RefType, i: nat) {
    i < |refs| && refs[i].kind == t && forall j :: 0 <= j < i ==> refs[j].kind != t
  }

  /** Some ref is of this type, and the first such names this target. */
  ghost predicate FirstNames(refs: seq<Ref>, t: RefType, x: Id) {
    exists i: nat :: FirstAt(refs, t, i) && refs[i].target == x
  }

  ghost predicate NoneOf(refs: seq<Ref>, t: RefType) {
    forall i :: 0 <= i < |refs| ==> refs[i].kind != t
  }

  /** Exactly one ref is of this type, and it names this target. */
  ghost predicate OnlyNames(refs: seq<Ref>, t: RefType, x: Id) {
    exists i :: 0 <= i < |refs| && refs[i] == Ref(t, x) && forall j :: 0 <= j < |refs| && j != i ==> refs[j].kind != t
  }

  ghost predicate Several(refs: seq<Ref>, t: RefType) {
    exists i, j :: 0 <= i < j < |refs| && refs[i].kind == refs[j].kind == t
  }

  lemma FirstOf(refs: seq<Ref>, t: RefType, x: Id)
    requires refs != []
    ensures FirstNames(refs, t, x) <==>
              if refs[0].kind == t then refs[0].target == x else FirstNames(refs[1..], t, x)
  {
    if refs[0].kind == t {
      assert FirstAt(refs, t, 0);
    } else {
      if i: nat :| FirstAt(refs, t, i) && refs[i].target == x {
        assert FirstAt(refs[1..], t, i - 1);
      }
      if i: nat :| FirstAt(refs[1..], t, i) && refs[1..][i].target == x {
        assert FirstAt(refs, t, i + 1);
      }
    }
  }

  lemma OnlyOf(refs: seq<Ref>, t: RefType, x: Id)
    requires refs != []
    ensures NoneOf(refs, t) <==> refs[0].kind != t && NoneOf(refs[1..], t)
    ensures OnlyNames(refs, t, x) <==>
              if refs[0].kind == t then refs[0].target == x && NoneOf(refs[1..], t) else OnlyNames(refs[1..], t, x)
  {
    if refs[0].kind == t {
      if refs[0].target == x && NoneOf(refs[1..], t) {
        assert forall j :: 0 < j < |refs| ==> refs[j] == refs[1..][j - 1];
        assert refs[0] == Ref(t, x);
      }
    } else {
      if i :| 0 <= i < |refs| && refs[i] == Ref(t, x) && forall j :: 0 <= j < |refs| && j != i ==> refs[j].kind != t {
        assert refs[1..][i - 1] == Ref(t, x);
      }
      if i :| 0 <= i < |refs[1..]| && refs[1..][i] == Ref(t, x)
              && forall j :: 0 <= j < |refs[1..]| && j != i ==> refs[1..][j].kind != t {
        assert refs[i + 1] == Ref(t, x);
        assert forall j :: 0 < j < |refs| ==> refs[j] == refs[1..][j - 1];
      }
    }
  }

  lemma SeveralOf(refs: seq<Ref>, t: RefType)
    requires refs != []
    ensures Several(refs, t) <==> (refs[0].kind == t && !NoneOf(refs[1..], t)) || Several(refs[1..], t)
  {
    if i, j :| 0 <= i < j < |refs| && refs[i].kind == refs[j].kind == t {
      assert refs[1..][j - 1].kind == t;
      if i > 0 {
        assert refs[1..][i - 1].kind == t;
      }
    }
    if i :| 0 <= i < |refs[1..]| && refs[1..][i].kind == t {
      assert refs[i + 1].kind == t;
    }
    if i, j :| 0 <= i < j < |refs[1..]| && refs[1..][i].kind == refs[1..][j].kind == t {
      assert refs[i + 1].kind == refs[j + 1].kind == t;
    }
  }

  /** What the targets of one type say of the ref list: which comes first, whether there
      are none, exactly one or several. */
  lemma {:induction false} TargetsMean(refs: seq<Ref>, t: RefType)
    ensures forall x: Id :: FirstTarget(refs, t) == Some(x) <==> FirstNames(refs, t, x)
    ensures Targets(refs, t) == [] <==> NoneOf(refs, t)
    ensures forall x: Id :: Targets(refs, t) == [x] <==> OnlyNames(refs, t, x)
    ensures |Targets(refs, t)| > 1 <==> Several(refs, t)
  {
    hide FirstNames, NoneOf, OnlyNames, Several;
    if refs == [] {
      NothingNamed(refs, t);
    } else {
      TargetsMean(refs[1..], t);
      SeveralOf(refs, t);
      OnlyOf(refs, t, refs[0].target);
      assert refs[0].kind == t ==> Targets(refs, t) == [refs[0].target] + Targets(refs[1..], t);
      forall x: Id
        ensures FirstTarget(refs, t) == Some(x) <==> FirstNames(refs, t, x)
        ensures Targets(refs, t) == [x] <==> OnlyNames(refs, t, x)
      {
        FirstOf(refs, t, x);
        OnlyOf(refs, t, x);
      }
    }
  }

  lemma NothingNamed(refs: seq<Ref>, t: RefType)
    requires refs == []
    ensures NoneOf(refs, t) && !Several(refs, t)
    ensures forall x: Id :: !FirstNames(refs, t, x) && !OnlyNames(refs, t, x)
  {
  }

  // ----- Sorting and deduplicating -----------------------------------------------------------

  /** Insert into a strictly sorted list, dropping a duplicate. */
  function Insert(refs: seq<Ref>, x: Ref): (out: seq<Ref>)
    requires StrictlySorted(refs)
    ensures StrictlySorted(out)
    ensures forall y :: y in out <==> y == x || y in refs
    ensures refs != [] && out != [] ==> out[0] == refs[0] || out[0] == x
  {
    if refs == [] then [x]
    else if x == refs[0] then refs
    else if Before(x, refs[0]) then [x] + refs
    else
      assert forall i :: 0 <= i < |refs[1..]| - 1 ==> Before(refs[1..][i], refs[1..][i + 1])
        by {
          forall i | 0 <= i < |refs[1..]| - 1
            ensures Before(refs[1..][i], refs[1..][i + 1])
          {
            assert Before(refs[i + 1], refs[i + 1 + 1]);
          }
        }
      assert refs == [refs[0]] + refs[1..];
      var rest := Insert(refs[1..], x);
      assert |refs| > 1 ==> Before(refs[0], refs[0 + 1]);
      [refs[0]] + rest
  }

  /** Canonical form of a ref list. */
  function Canonical(refs: seq<Ref>): (out: seq<Ref>)
    ensures StrictlySorted(out)
    ensures forall y :: y in out <==> y in refs
  {
    if refs == [] then []
    else
      assert refs == refs[..|refs| - 1] + [refs[|refs| - 1]];
      Insert(Canonical(refs[..|refs| - 1]), refs[|refs| - 1])
  }

  /** Sort and deduplicate, one ref at a time. */
  method SortAndDedup(refs: seq<Ref>) returns (out: seq<Ref>)
    ensures StrictlySorted(out)
    ensures forall y :: y in out <==> y in refs
    ensures out == Canonical(refs)
  {
    out := [];
    var i := 0;
    while i < |refs|
      invariant 0 <= i <= |refs|
      invariant out == Canonical(refs[..i])
    {
      assert refs[..i + 1][..i] == refs[..i];
      out := Insert(out, refs[i]);
      i := i + 1;
    }
    assert refs[..|refs|] == refs;
  }

  /** There is only one strictly sorted list with given members, so any two ways of
      canonicalizing the same refs agree. */
  lemma {:induction false} SortedIsUnique(a: seq<Ref>, b: seq<Ref>)
    requires StrictlySorted(a) && StrictlySorted(b)
    requires forall x :: x in a <==> x in b
    ensures a == b
    decreases |a|
  {
    assert a != [] ==> a[0] in b;
    assert b != [] ==> b[0] in a;
    if a != [] {
      var i :| 0 <= i < |b| && b[i] == a[0];
      var j :| 0 <= j < |a| && a[j] == b[0];
      if i > 0 { SortedPairs(b, 0, i); }
      if j > 0 { SortedPairs(a, 0, j); }
      assert a[0] == b[0];
      TailSorted(a);
      TailSorted(b);
      forall x
        ensures x in a[1..] <==> x in b[1..]
      {
        TailMember(a, x);
        TailMember(b, x);
      }
      SortedIsUnique(a[1..], b[1..]);
      assert a == [a[0]] + a[1..] && b == [b[0]] + b[1..];
    }
  }

  lemma TailSorted(a: seq<Ref>)
    requires StrictlySorted(a) && a != []
    ensures StrictlySorted(a[1..])
  {
    forall i | 0 <= i < |a[1..]| - 1
      ensures Before(a[1..][i], a[1..][i + 1])
    {
      assert Before(a[i + 1], a[i + 1 + 1]);
    }
  }

  lemma TailMember(a: seq<Ref>, x: Ref)
    requires StrictlySorted(a) && a != []
    ensures x in a[1..] <==> x in a && x != a[0]
  {
    if x in a[1..] {
      var i :| 0 <= i < |a[1..]| && a[1..][i] == x;
      SortedPairs(a, 0, i + 1);
    }
  }
}
