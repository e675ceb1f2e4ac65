// What a text denotes, by the grammar of JSON: every way to spell a string or an integer
// counts. Of all texts of a value the printer's is the shortest, and no other is as short.
module Texts {
  import opened Canonical
  import Frames

  // ----- Characters (section 7 of RFC 8259) -------------------------------------------------------

  predicate IsHex(c: char, n: nat) {
    n < 16 && c == "0123456789abcdef"[n]
  }

  /** A backslash, `u` and four lower-case hex digits. */
  ghost predicate Numbers(t: string, u: nat) {
    && |t| == 6 && t[0] == '\\' && t[1] == 'u'
    && exists a: nat, b: nat, d: nat, e: nat
             {:trigger IsHex(t[2], a), IsHex(t[3], b), IsHex(t[4], d), IsHex(t[5], e)} ::
         IsHex(t[2], a) && IsHex(t[3], b) && IsHex(t[4], d) && IsHex(t[5], e) && u == ((a * 16 + b) * 16 + d) * 16 + e
  }

  /** The eight characters with an escape of their own. */
  predicate HasLetter(c: char, x: char) {
    || (x == c && (c == '"' || c == '\\' || c == '/'))
    || (x == 'b' && c as int == 0x08) || (x == 't' && c as int == 0x09) || (x == 'n' && c as int == 0x0A)
    || (x == 'f' && c as int == 0x0C) || (x == 'r' && c as int == 0x0D)
  }

  /** May stand for itself: no quote, no backslash, no control character. */
  predicate Plain(c: char) {
    c != '"' && c != '\\' && c as int >= 0x20
  }

  /** Two escapes that number a surrogate pair. */
  ghost predicate PairNumbers(t: string, u: nat) {
    && |t| == 12
    && exists hi: nat, lo: nat :: Numbers(t[..6], hi) && Numbers(t[6..], lo)
         && 0xD800 <= hi < 0xDC00 <= lo < 0xE000 && u == 0x1_0000 + (hi - 0xD800) * 0x400 + (lo - 0xDC00)
  }

  /** A text for one character within a string. */
  ghost predicate Spells(t: string, c: char) {
    || (t == [c] && Plain(c))
    || (|t| == 2 && t[0] == '\\' && HasLetter(c, t[1]))
    || Numbers(t, c as int)
    || PairNumbers(t, c as int)
  }

  ghost predicate SpellsAll(t: string, s: string) {
    if s == [] then t == []
    else exists k: nat :: k <= |t| && Spells(t[..k], s[0]) && SpellsAll(t[k..], s[1..])
  }

  /** A control character without a letter of its own. */
  predicate Unlettered(c: char) {
    c as int < 0x20 && c as int !in {0x08, 0x09, 0x0A, 0x0C, 0x0D}
  }

  lemma HexMeans(n: nat)
    requires n < 16
    ensures IsHex(HexDigit(n), n)
    ensures forall m :: IsHex(HexDigit(n), m) ==> m == n
  {
  }

  /** Which characters are printed how: as themselves, by their letter, or by number. */
  lemma EscapeForms(c: char)
    ensures Escape(c) == [c] <==> Plain(c)
    ensures c == '"' || c == '\\' || (c as int < 0x20 && !Unlettered(c)) <==>
            |Escape(c)| == 2 && Escape(c)[0] == '\\' && HasLetter(c, Escape(c)[1])
    ensures Unlettered(c) <==> Numbers(Escape(c), c as int)
    ensures Unlettered(c) ==>
              Escape(c) == "\\u00" + [HexDigit(c as int / 16), HexDigit(c as int % 16)]
  {
    if Unlettered(c) {
      var u := c as int;
      HexMeans(0);
      HexMeans(u / 16);
      HexMeans(u % 16);
      var t := Escape(c);
      assert IsHex(t[2], 0) && IsHex(t[3], 0) && IsHex(t[4], u / 16) && IsHex(t[5], u % 16);
    }
  }

  lemma HexDecides(c: char, n: nat, d: char, m: nat)
    requires IsHex(c, n) && IsHex(d, m)
    ensures n == m <==> c == d
  {
  }

  lemma SmallNumber(a: nat, b: nat, d: nat, e: nat, u: nat)
    requires a < 16 && b < 16 && d < 16 && e < 16 && u == ((a * 16 + b) * 16 + d) * 16 + e && u < 0x20
    ensures a == 0 && b == 0 && d == u / 16 && e == u % 16
  {
  }

  /** There is one number escape for a control character. */
  lemma NumberIsEscape(t: string, c: char)
    requires Numbers(t, c as int) && Unlettered(c)
    ensures t == Escape(c)
  {
    var u := c as int;
    var a: nat, b: nat, d: nat, e: nat :| IsHex(t[2], a) && IsHex(t[3], b) && IsHex(t[4], d) && IsHex(t[5], e)
      && u == ((a * 16 + b) * 16 + d) * 16 + e;
    SmallNumber(a, b, d, e, u);
    HexMeans(0);
    HexMeans(d);
    HexMeans(e);
    HexDecides(t[2], 0, HexDigit(0), 0);
    HexDecides(t[3], 0, HexDigit(0), 0);
    HexDecides(t[4], d, HexDigit(d), d);
    HexDecides(t[5], e, HexDigit(e), e);
    var out := Escape(c);
    assert t == [t[0], t[1], t[2], t[3], t[4], t[5]];
    assert out == [out[0], out[1], out[2], out[3], out[4], out[5]];
  }

  /** The printed form is the shortest text for the character, and the only one as short. */
  lemma ShortestCharacter(t: string, c: char)
    ensures Spells(Escape(c), c)
    ensures Spells(t, c) ==> |Escape(c)| <= |t| && (|t| == |Escape(c)| ==> t == Escape(c))
  {
    EscapeForms(c);
    if Unlettered(c) && Numbers(t, c as int) {
      NumberIsEscape(t, c);
    }
    hide Numbers, Unlettered, PairNumbers;
    NumbersAreLong(t, c as int);
    if |t| == 2 && t[0] == '\\' && HasLetter(c, t[1]) && |Escape(c)| == 2 {
      assert t == [t[0], t[1]] && Escape(c) == [Escape(c)[0], Escape(c)[1]];
    }
  }

  lemma NumbersAreLong(t: string, u: nat)
    ensures Numbers(t, u) ==> |t| == 6
    ensures PairNumbers(t, u) ==> |t| == 12
  {
  }

  // ----- Strings -------------------------------------------------------------------------------------

  lemma {:induction false} EscapedSpells(s: string)
    ensures SpellsAll(Escaped(s), s)
  {
    if s != [] {
      hide Escape, Spells;
      EscapedSpells(s[1..]);
      ShortestCharacter([], s[0]);
      var k, t := |Escape(s[0])|, Escaped(s);
      assert t[..k] == Escape(s[0]) && t[k..] == Escaped(s[1..]);
    }
  }

  /** Of all texts that spell a string, what is printed between its quotes is the shortest,
      and no other is as short. */
  lemma {:induction false} ShortestString(t: string, s: string)
    requires SpellsAll(t, s)
    ensures |Escaped(s)| <= |t| && (|t| == |Escaped(s)| ==> t == Escaped(s))
    decreases |s|
  {
    hide Escape, Spells;
    if s != [] {
      var k: nat :| k <= |t| && Spells(t[..k], s[0]) && SpellsAll(t[k..], s[1..]);
      ShortestCharacter(t[..k], s[0]);
      ShortestString(t[k..], s[1..]);
      assert t == t[..k] + t[k..];
    }
  }

  // ----- Integers (section 6) -----------------------------------------------------------------------

  /** Digits without a leading zero. */
  predicate Numeral(t: string) {
    t != "" && (forall i :: 0 <= i < |t| ==> '0' <= t[i] <= '9') && (|t| > 1 ==> t[0] != '0')
  }

  /** The number a run of digits stands for. */
  ghost function Worth(t: string): int {
    if t == [] then 0 else Worth(t[..|t| - 1]) * 10 + (t[|t| - 1] as int - '0' as int)
  }

  ghost predicate Integer(t: string, n: int) {
    if t != "" && t[0] == '-' then Numeral(t[1..]) && Worth(t[1..]) == -n else Numeral(t) && Worth(t) == n
  }

  lemma {:induction false} WorthIsPositive(t: string)
    requires Numeral(t)
    ensures Worth(t) >= 0 && (t[0] != '0' ==> Worth(t) > 0)
  {
    if |t| > 1 {
      assert t[..|t| - 1][0] == t[0];
      WorthIsPositive(t[..|t| - 1]);
    } else {
      assert t[..|t| - 1] == [];
    }
  }

  lemma {:induction false} DigitsAreNumeral(n: nat)
    ensures Numeral(Digits(n)) && Worth(Digits(n)) == n && (n > 0 ==> Digits(n)[0] != '0')
  {
    var t := Digits(n);
    if n < 10 {
      assert t[..0] == [];
    } else {
      DigitsAreNumeral(n / 10);
      assert t[..|t| - 1] == Digits(n / 10) && t[0] == Digits(n / 10)[0];
    }
  }

  /** There is one numeral for a number. */
  lemma {:induction false} OneNumeral(t: string, n: nat)
    requires Numeral(t) && Worth(t) == n
    ensures t == Digits(n)
    decreases |t|
  {
    var front, last := t[..|t| - 1], t[|t| - 1];
    assert t == front + [last];
    if |t| == 1 {
      assert front == [];
    } else {
      assert front[0] == t[0];
      WorthIsPositive(front);
      LastDigit(Worth(front), last as int - '0' as int);
      OneNumeral(front, n / 10);
    }
  }

  lemma LastDigit(a: nat, d: nat)
    requires d < 10
    ensures (a * 10 + d) / 10 == a && (a * 10 + d) % 10 == d
  {
  }

  lemma ShortestInteger(t: string, n: int)
    ensures Integer(Decimal(n), n)
    ensures Integer(t, n) ==> |Decimal(n)| <= |t| && (|t| == |Decimal(n)| ==> t == Decimal(n))
  {
    hide Digits, Worth;
    var m := if n < 0 then -n else n;
    DigitsAreNumeral(m);
    assert n < 0 ==> Decimal(n)[1..] == Digits(m);
    if Integer(t, n) {
      if t[0] == '-' {
        WorthIsPositive(t[1..]);
        OneNumeral(t[1..], -n);
        assert t == "-" + t[1..];
      } else {
        WorthIsPositive(t);
        OneNumeral(t, n);
      }
    }
  }

  // ----- Values -------------------------------------------------------------------------------------------

  function Joined(parts: seq<string>): string {
    if parts == [] then ""
    else if |parts| == 1 then parts[0]
    else parts[0] + "," + Joined(parts[1..])
  }

  ghost predicate StringText(t: string, s: string) {
    |t| >= 2 && t[0] == '"' && t[|t| - 1] == '"' && SpellsAll(t[1..|t| - 1], s)
  }

  /** A text without blanks for a value, with the names of every object ascending. */
  ghost predicate Denotes(t: string, v: Json)
    decreases v, 0
  {
    match v
    case Null => t == "null"
    case Bool(b) => t == if b then "true" else "false"
    case Num(n) => Integer(t, n)
    case Str(s) => StringText(t, s)
    case Arr(items) =>
      exists parts: seq<string> ::
        && t == "[" + Joined(parts) + "]" && |parts| == |items|
        && forall i :: 0 <= i < |items| ==> Denotes(parts[i], items[i])
    case Obj(m) =>
      exists keys: seq<string>, parts: seq<string> ::
        && Arranges(keys, m.Keys)
        && t == "{" + Joined(parts) + "}" && |parts| == |keys|
        && forall i :: 0 <= i < |keys| ==> keys[i] in m && MemberDenotes(parts[i], keys[i], m[keys[i]])
  }

  ghost predicate MemberDenotes(part: string, name: string, v: Json)
    decreases v, 1
  {
    exists k: nat :: SplitAt(part, k, name) && Denotes(part[k + 1..], v)
  }

  /** A name's text, a colon, and more. */
  ghost predicate SplitAt(part: string, k: nat, name: string) {
    k < |part| && part[k] == ':' && StringText(part[..k], name)
  }

  lemma ShortestQuoted(t: string, s: string)
    ensures StringText(Quoted(s), s)
    ensures StringText(t, s) ==> |Quoted(s)| <= |t| && (|t| == |Quoted(s)| ==> t == Quoted(s))
  {
    hide Escaped, SpellsAll;
    EscapedSpells(s);
    assert Quoted(s)[1..|Quoted(s)| - 1] == Escaped(s);
    if StringText(t, s) {
      ShortestString(t[1..|t| - 1], s);
      assert t == "\"" + t[1..|t| - 1] + "\"";
    }
  }

  /** Part for part no longer, and the same where as long, joins to no longer. */
  lemma {:induction false} ShortestJoin(a: seq<string>, b: seq<string>)
    requires |a| == |b|
    requires forall i :: 0 <= i < |a| ==> |a[i]| <= |b[i]| && (|a[i]| == |b[i]| ==> a[i] == b[i])
    ensures |Joined(a)| <= |Joined(b)| && (|Joined(a)| == |Joined(b)| ==> a == b)
  {
    if |a| > 1 {
      ShortestJoin(a[1..], b[1..]);
      assert a == [a[0]] + a[1..] && b == [b[0]] + b[1..];
    } else if |a| == 1 {
      assert a == [a[0]] && b == [b[0]];
    }
  }

  ghost function PrintedItems(v: Json): (parts: seq<string>)
    requires v.Arr?
    ensures |parts| == |v.items|
  {
    seq(|v.items|, i requires 0 <= i < |v.items| => Print(v.items[i]))
  }

  ghost function PrintedMembers(v: Json, keys: seq<string>): (parts: seq<string>)
    requires KeysOf(v, keys)
    ensures |parts| == |keys|
  {
    assert forall i :: 0 <= i < |keys| ==> keys[i] in keys;
    seq(|keys|, i requires 0 <= i < |keys| => Quoted(keys[i]) + ":" + Print(v.members[keys[i]]))
  }

  lemma {:induction false} ItemsJoin(v: Json, i: nat)
    requires v.Arr? && i <= |v.items|
    ensures ItemsFrom(v, i) == (if 0 < i < |v.items| then "," else "") + Joined(PrintedItems(v)[i..])
    decreases |v.items| - i
  {
    hide Print;
    if i < |v.items| {
      ItemsJoin(v, i + 1);
      var parts := PrintedItems(v);
      assert parts[i..] == [parts[i]] + parts[i + 1..];
    }
  }

  lemma {:induction false} MembersJoin(v: Json, keys: seq<string>, i: nat)
    requires KeysOf(v, keys) && i <= |keys|
    ensures MembersFrom(v, keys, i) == (if 0 < i < |keys| then "," else "") + Joined(PrintedMembers(v, keys)[i..])
    decreases |keys| - i
  {
    hide Print, Quoted;
    if i < |keys| {
      MembersJoin(v, keys, i + 1);
      var parts := PrintedMembers(v, keys);
      assert keys[i] in keys;
      assert parts[i..] == [parts[i]] + parts[i + 1..];
    }
  }

  lemma ArrayText(v: Json)
    requires v.Arr?
    ensures Print(v) == "[" + Joined(PrintedItems(v)) + "]"
  {
    hide Print, ItemsFrom, PrintedItems;
    PrintsArray(v);
    ItemsJoin(v, 0);
    assert PrintedItems(v)[0..] == PrintedItems(v);
  }

  lemma ObjectText(v: Json)
    requires v.Obj?
    ensures Print(v) == "{" + Joined(PrintedMembers(v, SortedKeys(v.members.Keys))) + "}"
  {
    hide Print, MembersFrom, PrintedMembers, KeyBefore;
    var keys := SortedKeys(v.members.Keys);
    PrintsObject(v);
    MembersJoin(v, keys, 0);
    assert PrintedMembers(v, keys)[0..] == PrintedMembers(v, keys);
  }

  // ----- The printer's text denotes the value, and none is shorter --------------------------------------

  lemma PrintsPlain(v: Json)
    ensures match v
            case Null => Print(v) == "null"
            case Bool(b) => Print(v) == if b then "true" else "false"
            case Num(n) => Print(v) == Decimal(n)
            case Str(s) => Print(v) == Quoted(s)
            case _ => true
  {
  }

  lemma ArrayDenotes(v: Json, parts: seq<string>)
    requires v.Arr? && |parts| == |v.items|
    requires forall i :: 0 <= i < |parts| ==> Denotes(parts[i], v.items[i])
    ensures Denotes("[" + Joined(parts) + "]", v)
  {
    hide Joined;
  }

  lemma ObjectDenotes(v: Json, keys: seq<string>, parts: seq<string>)
    requires v.Obj? && Arranges(keys, v.members.Keys) && |parts| == |keys|
    requires forall i :: 0 <= i < |keys| ==>
        keys[i] in v.members && MemberDenotes(parts[i], keys[i], v.members[keys[i]])
    ensures Denotes("{" + Joined(parts) + "}", v)
  {
    hide Joined, Arranges, MemberDenotes;
  }

  lemma PrintedMemberDenotes(name: string, v: Json)
    requires Denotes(Print(v), v)
    ensures MemberDenotes(Quoted(name) + ":" + Print(v), name, v)
  {
    hide Quoted, Print, Denotes, StringText;
    ShortestQuoted([], name);
    var part, k := Quoted(name) + ":" + Print(v), |Quoted(name)|;
    assert part[..k] == Quoted(name) && part[k + 1..] == Print(v);
    assert SplitAt(part, k, name);
  }

  /** The printer's text denotes the value. */
  lemma {:induction false} PrintDenotes(v: Json)
    ensures Denotes(Print(v), v)
    decreases v
  {
    hide Print, Joined, KeyBefore, Quoted, MemberDenotes, StringText;
    PrintsPlain(v);
    match v {
      case Null =>
      case Bool(_) =>
      case Num(n) => ShortestInteger([], n);
      case Str(s) => ShortestQuoted([], s);
      case Arr(items) =>
        hide Denotes;
        ArrayText(v);
        forall i | 0 <= i < |items|
          ensures Denotes(Print(items[i]), items[i])
        {
          PrintDenotes(items[i]);
        }
        ArrayDenotes(v, PrintedItems(v));
      case Obj(m) =>
        hide Denotes;
        ObjectText(v);
        var keys := SortedKeys(m.Keys);
        forall i | 0 <= i < |keys|
          ensures keys[i] in m && MemberDenotes(PrintedMembers(v, keys)[i], keys[i], m[keys[i]])
        {
          assert keys[i] in keys;
          PrintDenotes(m[keys[i]]);
          PrintedMemberDenotes(keys[i], m[keys[i]]);
        }
        ObjectDenotes(v, keys, PrintedMembers(v, keys));
    }
  }

  lemma ArrayParts(t: string, v: Json) returns (parts: seq<string>)
    requires v.Arr? && Denotes(t, v)
    ensures t == "[" + Joined(parts) + "]" && |parts| == |v.items|
    ensures forall i :: 0 <= i < |v.items| ==> Denotes(parts[i], v.items[i])
  {
    hide Joined;
    parts :| t == "[" + Joined(parts) + "]" && |parts| == |v.items|
             && forall i :: 0 <= i < |v.items| ==> Denotes(parts[i], v.items[i]);
  }

  lemma ObjectParts(t: string, v: Json) returns (parts: seq<string>)
    requires v.Obj? && Denotes(t, v)
    ensures var keys := SortedKeys(v.members.Keys);
            && t == "{" + Joined(parts) + "}" && |parts| == |keys|
            && forall i :: 0 <= i < |keys| ==>
                 keys[i] in v.members && MemberDenotes(parts[i], keys[i], v.members[keys[i]])
  {
    hide Joined, KeyBefore, MemberDenotes;
    var keys: seq<string>, texts: seq<string> :| Arranges(keys, v.members.Keys)
      && t == "{" + Joined(texts) + "}" && |texts| == |keys|
      && forall i :: 0 <= i < |keys| ==> keys[i] in v.members && MemberDenotes(texts[i], keys[i], v.members[keys[i]]);
    OneArrangement(keys, SortedKeys(v.members.Keys), v.members.Keys);
    parts := texts;
  }

  /** The text of one member is no longer than any other, and the same as any as short. */
  lemma ShortestMember(part: string, k: nat, name: string, value: string)
    requires SplitAt(part, k, name)
    requires |value| <= |part[k + 1..]| && (|value| == |part[k + 1..]| ==> value == part[k + 1..])
    ensures var printed := Quoted(name) + ":" + value;
            |printed| <= |part| && (|printed| == |part| ==> printed == part)
  {
    hide Quoted, StringText;
    ShortestQuoted(part[..k], name);
    assert part == part[..k] + ":" + part[k + 1..];
  }

  /** Of all texts without blanks that denote a value, names ascending, the printer's is the
      shortest, and no other is as short. */
  lemma {:induction false} ShortestText(t: string, v: Json)
    requires Denotes(t, v)
    ensures |Print(v)| <= |t| && (|t| == |Print(v)| ==> t == Print(v))
    decreases v, 2
  {
    hide Print, Joined, KeyBefore, Quoted, MemberDenotes, StringText;
    PrintsPlain(v);
    match v {
      case Null =>
      case Bool(_) =>
      case Num(n) => ShortestInteger(t, n);
      case Str(s) => ShortestQuoted(t, s);
      case Arr(_) => ShortestArray(t, v);
      case Obj(_) => ShortestObject(t, v);
    }
  }

  lemma {:induction false} ShortestArray(t: string, v: Json)
    requires v.Arr? && Denotes(t, v)
    ensures |Print(v)| <= |t| && (|t| == |Print(v)| ==> t == Print(v))
    decreases v, 1
  {
    hide Print, Joined, Denotes;
    ArrayText(v);
    var parts := ArrayParts(t, v);
    forall i | 0 <= i < |v.items|
      ensures |PrintedItems(v)[i]| <= |parts[i]|
      ensures |PrintedItems(v)[i]| == |parts[i]| ==> PrintedItems(v)[i] == parts[i]
    {
      ShortestText(parts[i], v.items[i]);
    }
    ShortestJoin(PrintedItems(v), parts);
  }

  lemma {:induction false} ShortestObject(t: string, v: Json)
    requires v.Obj? && Denotes(t, v)
    ensures |Print(v)| <= |t| && (|t| == |Print(v)| ==> t == Print(v))
    decreases v, 1
  {
    hide Print, Joined, KeyBefore, Quoted, Denotes, MemberDenotes, PrintedMembers;
    ObjectText(v);
    var m, keys := v.members, SortedKeys(v.members.Keys);
    var parts := ObjectParts(t, v);
    forall i | 0 <= i < |keys|
      ensures |PrintedMembers(v, keys)[i]| <= |parts[i]|
      ensures |PrintedMembers(v, keys)[i]| == |parts[i]| ==> PrintedMembers(v, keys)[i] == parts[i]
    {
      PrintedAt(v, keys, i);
      ShortestPart(parts[i], keys[i], m[keys[i]]);
    }
    ShortestJoin(PrintedMembers(v, keys), parts);
  }

  lemma {:induction false} ShortestPart(part: string, name: string, v: Json)
    requires MemberDenotes(part, name, v)
    ensures var printed := Quoted(name) + ":" + Print(v);
            |printed| <= |part| && (|printed| == |part| ==> printed == part)
    decreases v, 3
  {
    hide Print, Quoted, Denotes, StringText;
    var k: nat :| SplitAt(part, k, name) && Denotes(part[k + 1..], v);
    ShortestText(part[k + 1..], v);
    ShortestMember(part, k, name, Print(v));
  }

  lemma PrintedAt(v: Json, keys: seq<string>, i: nat)
    requires KeysOf(v, keys) && i < |keys|
    ensures keys[i] in v.members && PrintedMembers(v, keys)[i] == Quoted(keys[i]) + ":" + Print(v.members[keys[i]])
  {
    hide Print, Quoted;
    assert keys[i] in keys;
  }

  // ----- Bytes (RFC 3629, section 3) -----------------------------------------------------------------------

  predicate Continues(b: Frames.Byte) {
    0x80 <= b < 0xC0
  }

  /** Six more bits from each byte that continues. */
  function Bits(bytes: seq<Frames.Byte>, i: nat, u: int): int
    requires i <= |bytes|
    decreases |bytes| - i
  {
    if i == |bytes| then u else Bits(bytes, i + 1, u * 0x40 + (bytes[i] as int - 0x80))
  }

  /** The bytes of a code point: as few as its size allows, its bits spread over them. */
  predicate Encodes(bytes: seq<Frames.Byte>, u: nat) {
    if u < 0x80 then bytes == [u]
    else if u < 0x800 then
      && |bytes| == 2 && 0xC0 <= bytes[0] < 0xE0 && Continues(bytes[1])
      && u == Bits(bytes, 1, bytes[0] as int - 0xC0)
    else if u < 0x1_0000 then
      && |bytes| == 3 && 0xE0 <= bytes[0] < 0xF0 && Continues(bytes[1]) && Continues(bytes[2])
      && u == Bits(bytes, 1, bytes[0] as int - 0xE0)
    else
      && |bytes| == 4 && 0xF0 <= bytes[0] < 0xF8 && Continues(bytes[1]) && Continues(bytes[2]) && Continues(bytes[3])
      && u == Bits(bytes, 1, bytes[0] as int - 0xF0)
  }

  ghost predicate EncodesAll(bytes: seq<Frames.Byte>, s: string) {
    if s == [] then bytes == []
    else exists k: nat :: k <= |bytes| && Encodes(bytes[..k], s[0] as int) && EncodesAll(bytes[k..], s[1..])
  }

  lemma CharacterEncodes(c: char)
    ensures Encodes(Utf8Of(c), c as int)
  {
    var b, u := Utf8Of(c), c as int;
    if |b| > 1 {
      UnfoldBits(b, b[0] as int - (if |b| == 2 then 0xC0 else if |b| == 3 then 0xE0 else 0xF0));
    }
  }

  lemma UnfoldBits(b: seq<Frames.Byte>, u: int)
    requires 2 <= |b| <= 4
    ensures Bits(b, 1, u) ==
      if |b| == 2 then u * 0x40 + (b[1] as int - 0x80)
      else if |b| == 3 then (u * 0x40 + (b[1] as int - 0x80)) * 0x40 + (b[2] as int - 0x80)
      else ((u * 0x40 + (b[1] as int - 0x80)) * 0x40 + (b[2] as int - 0x80)) * 0x40 + (b[3] as int - 0x80)
  {
    var v := u * 0x40 + (b[1] as int - 0x80);
    assert Bits(b, 1, u) == Bits(b, 2, v);
    if |b| > 2 {
      var w := v * 0x40 + (b[2] as int - 0x80);
      assert Bits(b, 2, v) == Bits(b, 3, w);
      if |b| > 3 {
        assert Bits(b, 3, w) == Bits(b, 4, w * 0x40 + (b[3] as int - 0x80));
      }
    }
  }

  lemma {:induction false} TextEncodes(s: string)
    ensures EncodesAll(Utf8(s), s)
  {
    hide Utf8Of, Encodes;
    if s != [] {
      CharacterEncodes(s[0]);
      TextEncodes(s[1..]);
      var k := |Utf8Of(s[0])|;
      assert Utf8(s)[..k] == Utf8Of(s[0]) && Utf8(s)[k..] == Utf8(s[1..]);
    }
  }

  /** The canonical bytes of a value encode the shortest text that denotes it. */
  lemma BytesAreShortestText(v: Json, t: string)
    ensures EncodesAll(CanonicalBytes(v), Print(v)) && Denotes(Print(v), v)
    ensures Denotes(t, v) && t != Print(v) ==> |Print(v)| < |t|
  {
    hide Print, Utf8, Denotes, EncodesAll;
    TextEncodes(Print(v));
    PrintDenotes(v);
    if Denotes(t, v) {
      ShortestText(t, v);
    }
  }
}
