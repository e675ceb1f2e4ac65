// The canonical JSON printer (RFC 8785) for the values records are made of: what it
// prints, as text and as bytes, can be read back in only one way.
module Canonical {
  import opened Records
  import Frames

  datatype Json =
    | Null
    | Bool(b: bool)
    | Num(n: int)
    | Str(s: string)
    | Arr(items: seq<Json>)
    | Obj(members: map<string, Json>)

  // ----- The order of member names (section 3.2.3) ---------------------------------------------

  /** The UTF-16 code units of one character. */
  function Units(c: char): seq<nat> {
    var u := c as int;
    if u < 0x1_0000 then [u] else [0xD800 + (u - 0x1_0000) / 0x400, 0xDC00 + (u - 0x1_0000) % 0x400]
  }

  function Utf16(s: string): seq<nat> {
    if s == [] then [] else Units(s[0]) + Utf16(s[1..])
  }

  predicate Less(a: seq<nat>, b: seq<nat>) {
    b != [] && (a == [] || a[0] < b[0] || (a[0] == b[0] && Less(a[1..], b[1..])))
  }

  predicate KeyBefore(a: string, b: string) {
    Less(Utf16(a), Utf16(b))
  }

  lemma {:induction false} NotLessItself(a: seq<nat>)
    ensures !Less(a, a)
  {
    if a != [] {
      NotLessItself(a[1..]);
    }
  }

  lemma {:induction false} LessChains(a: seq<nat>, b: seq<nat>, c: seq<nat>)
    requires Less(a, b) && Less(b, c)
    ensures Less(a, c)
  {
    if a != [] && a[0] == b[0] == c[0] {
      LessChains(a[1..], b[1..], c[1..]);
    }
  }

  lemma {:induction false} LessDecides(a: seq<nat>, b: seq<nat>)
    ensures a == b || Less(a, b) || Less(b, a)
  {
    if a != [] && b != [] && a[0] == b[0] {
      LessDecides(a[1..], b[1..]);
      assert a == [a[0]] + a[1..] && b == [b[0]] + b[1..];
    }
  }

  /** Code units decode in one way: surrogates are never characters of their own. */
  lemma UnitsApart(c: char, d: char, x: seq<nat>, y: seq<nat>)
    requires Units(c) + x == Units(d) + y
    ensures c == d && x == y
  {
    var a, b := Units(c) + x, Units(d) + y;
    assert a[0] == Units(c)[0] && b[0] == Units(d)[0];
    assert |Units(c)| == |Units(d)|;
    if |Units(c)| == 2 {
      assert a[1] == Units(c)[1] && b[1] == Units(d)[1];
      SameCode(c as int - 0x1_0000, d as int - 0x1_0000);
    }
    assert a[|Units(c)|..] == x && b[|Units(d)|..] == y;
  }

  lemma SameCode(u: int, v: int)
    ensures u / 0x400 == v / 0x400 && u % 0x400 == v % 0x400 ==> u == v
  {
  }

  lemma {:induction false} Utf16IsInjective(a: string, b: string)
    requires Utf16(a) == Utf16(b)
    ensures a == b
  {
    if a != [] && b != [] {
      UnitsApart(a[0], b[0], Utf16(a[1..]), Utf16(b[1..]));
      Utf16IsInjective(a[1..], b[1..]);
      assert a == [a[0]] + a[1..] && b == [b[0]] + b[1..];
    }
  }

  /** The order of member names is a strict total order. */
  lemma KeyOrderIsStrictTotal(a: string, b: string, c: string)
    ensures !KeyBefore(a, a)
    ensures KeyBefore(a, b) && KeyBefore(b, c) ==> KeyBefore(a, c)
    ensures a == b || KeyBefore(a, b) || KeyBefore(b, a)
  {
    NotLessItself(Utf16(a));
    if KeyBefore(a, b) && KeyBefore(b, c) {
      LessChains(Utf16(a), Utf16(b), Utf16(c));
    }
    LessDecides(Utf16(a), Utf16(b));
    if Utf16(a) == Utf16(b) {
      Utf16IsInjective(a, b);
    }
  }

  /** The order of code points. */
  predicate CodePointBefore(a: string, b: string) {
    b != [] && (a == [] || a[0] < b[0] || (a[0] == b[0] && CodePointBefore(a[1..], b[1..])))
  }

  /** A character from U+E000 to U+FFFF against a supplementary one. */
  predicate Straddles(c: char, d: char) {
    0xE000 <= c as int < 0x1_0000 <= d as int
  }

  /** Two names first differ where one has such a character and the other a supplementary. */
  predicate Crosses(a: string, b: string) {
    a != [] && b != []
    && if a[0] == b[0] then Crosses(a[1..], b[1..]) else Straddles(a[0], b[0]) || Straddles(b[0], a[0])
  }

  lemma LessPeels(u: seq<nat>, x: seq<nat>, y: seq<nat>)
    requires 1 <= |u| <= 2
    ensures Less(u + x, u + y) <==> Less(x, y)
  {
    assert (u + x)[0] == u[0] && (u + y)[0] == u[0];
    assert (u + x)[1..] == u[1..] + x && (u + y)[1..] == u[1..] + y;
    if |u| == 2 {
      assert (u[1..] + x)[0] == u[1] && (u[1..] + y)[0] == u[1];
      assert (u[1..] + x)[1..] == x && (u[1..] + y)[1..] == y;
    } else {
      assert u[1..] + x == x && u[1..] + y == y;
    }
  }

  /** Where two characters differ their code units compare as they do, unless they straddle. */
  lemma UnitsCompare(c: char, d: char, x: seq<nat>, y: seq<nat>)
    requires c != d
    ensures (Less(Units(c) + x, Units(d) + y) <==> c < d) <==> !(Straddles(c, d) || Straddles(d, c))
  {
    var a, b := Units(c) + x, Units(d) + y;
    assert a[0] == Units(c)[0] && b[0] == Units(d)[0];
    if |Units(c)| == 2 && |Units(d)| == 2 {
      assert a[1..][0] == Units(c)[1] && b[1..][0] == Units(d)[1];
      CodesCompare(c as int - 0x1_0000, d as int - 0x1_0000);
    }
  }

  lemma CodesCompare(u: int, v: int)
    requires u != v
    ensures u / 0x400 == v / 0x400 ==> u % 0x400 != v % 0x400 && (u < v <==> u % 0x400 < v % 0x400)
    ensures u / 0x400 != v / 0x400 ==> (u < v <==> u / 0x400 < v / 0x400)
  {
  }

  /** The order of member names is that of code points for exactly the names that do not
      first differ in a straddling pair. */
  lemma {:induction false} DiffersFromCodePointsExactly(a: string, b: string)
    ensures (KeyBefore(a, b) <==> CodePointBefore(a, b)) <==> !Crosses(a, b)
  {
    hide Units, Straddles;
    if a != [] && b != [] {
      UnitsNotEmpty(a[0]);
      UnitsNotEmpty(b[0]);
      if a[0] == b[0] {
        LessPeels(Units(a[0]), Utf16(a[1..]), Utf16(b[1..]));
        DiffersFromCodePointsExactly(a[1..], b[1..]);
      } else {
        UnitsCompare(a[0], b[0], Utf16(a[1..]), Utf16(b[1..]));
      }
    } else if b != [] {
      UnitsNotEmpty(b[0]);
    }
  }

  lemma UnitsNotEmpty(c: char)
    ensures 1 <= |Units(c)| <= 2
  {
  }

  /** The names of a set in ascending order. */
  ghost predicate Arranges(out: seq<string>, keys: set<string>) {
    && (forall i, j :: 0 <= i < j < |out| ==> KeyBefore(out[i], out[j]))
    && forall k :: k in out <==> k in keys
  }

  lemma TailArranges(out: seq<string>, keys: set<string>)
    requires Arranges(out, keys) && out != []
    ensures out[0] in keys && Arranges(out[1..], keys - {out[0]})
    ensures forall k :: k in keys && k != out[0] ==> KeyBefore(out[0], k)
  {
    hide KeyBefore;
    assert out == [out[0]] + out[1..];
    forall k | k in keys && k != out[0]
      ensures KeyBefore(out[0], k)
    {
      assert k in out;
    }
    KeyOrderIsStrictTotal(out[0], out[0], out[0]);
  }

  lemma FirstIsKey(out: seq<string>, keys: set<string>)
    requires Arranges(out, keys)
    ensures if out == [] then keys == {} else out[0] in keys
  {
    hide KeyBefore;
    assert keys != {} ==> exists k :: k in keys;
  }

  /** There is one such arrangement, whatever order the names came in. */
  lemma {:induction false} OneArrangement(a: seq<string>, b: seq<string>, keys: set<string>)
    requires Arranges(a, keys) && Arranges(b, keys)
    ensures a == b
    decreases |a|
  {
    hide KeyBefore;
    FirstIsKey(a, keys);
    FirstIsKey(b, keys);
    if a != [] {
      assert a[0] in b;
      TailArranges(a, keys);
      TailArranges(b, keys);
      if a[0] != b[0] {
        KeyOrderIsStrictTotal(a[0], b[0], a[0]);
      }
      OneArrangement(a[1..], b[1..], keys - {a[0]});
      assert a == [a[0]] + a[1..] && b == [b[0]] + b[1..];
    }
  }

  function InsertKey(out: seq<string>, k: string): seq<string> {
    if out == [] || KeyBefore(k, out[0]) then [k] + out else [out[0]] + InsertKey(out[1..], k)
  }

  /** A name before all others goes in front. */
  lemma ConsArranges(x: string, rest: seq<string>, keys: set<string>)
    requires Arranges(rest, keys) && forall y :: y in keys ==> KeyBefore(x, y)
    ensures Arranges([x] + rest, keys + {x})
  {
    hide KeyBefore;
    var out := [x] + rest;
    forall i, j | 0 <= i < j < |out|
      ensures KeyBefore(out[i], out[j])
    {
      assert out[j] == rest[j - 1] && rest[j - 1] in rest;
    }
  }

  lemma {:induction false} InsertArranges(out: seq<string>, keys: set<string>, k: string)
    requires Arranges(out, keys) && k !in keys
    ensures Arranges(InsertKey(out, k), keys + {k})
    decreases |out|
  {
    hide KeyBefore, Arranges;
    FirstIsKey(out, keys);
    if out == [] {
      ConsArranges(k, out, keys);
    } else {
      TailArranges(out, keys);
      KeyOrderIsStrictTotal(k, out[0], k);
      if KeyBefore(k, out[0]) {
        forall y | y in keys
          ensures KeyBefore(k, y)
        {
          KeyOrderIsStrictTotal(k, out[0], y);
        }
        ConsArranges(k, out, keys);
      } else {
        InsertArranges(out[1..], keys - {out[0]}, k);
        ConsArranges(out[0], InsertKey(out[1..], k), keys - {out[0]} + {k});
        assert keys - {out[0]} + {k} + {out[0]} == keys + {k};
      }
    }
  }

  ghost function SortedKeys(keys: set<string>): (out: seq<string>)
    ensures Arranges(out, keys)
  {
    if keys == {} then []
    else
      var k :| k in keys;
      InsertArranges(SortedKeys(keys - {k}), keys - {k}, k);
      assert keys - {k} + {k} == keys;
      InsertKey(SortedKeys(keys - {k}), k)
  }

  method SortKeys(keys: set<string>) returns (out: seq<string>)
    ensures out == SortedKeys(keys)
  {
    hide KeyBefore;
    out := [];
    var todo := keys;
    while todo != {}
      invariant todo <= keys && Arranges(out, keys - todo)
      decreases todo
    {
      var k :| k in todo;
      InsertArranges(out, keys - todo, k);
      out := InsertKey(out, k);
      assert keys - todo + {k} == keys - (todo - {k});
      todo := todo - {k};
    }
    assert keys - todo == keys;
    OneArrangement(out, SortedKeys(keys), keys);
  }

  // ----- Strings (section 3.2.2.2) ---------------------------------------------------------------

  function HexDigit(n: nat): char
    requires n < 16
  {
    if n < 10 then '0' + n as char else 'a' + (n - 10) as char
  }

  function HexValue(c: char): nat {
    if '0' <= c <= '9' then (c - '0') as int else if 'a' <= c <= 'f' then (c - 'a') as int + 10 else 0
  }

  function Escape(c: char): string {
    match c
    case '"' => "\\\""
    case '\\' => "\\\\"
    case '\U{08}' => "\\b"
    case '\U{0C}' => "\\f"
    case '\n' => "\\n"
    case '\r' => "\\r"
    case '\t' => "\\t"
    case _ =>
      if c < ' ' then ['\\', 'u', '0', '0', HexDigit(c as int / 16), HexDigit(c as int % 16)] else [c]
  }

  function Escaped(s: string): string {
    if s == [] then [] else Escape(s[0]) + Escaped(s[1..])
  }

  /** The character an escaped text starts with, and how much text it takes. */
  function Decoded(text: string): Option<(char, nat)> {
    if text == [] then None
    else if text[0] != '\\' then Some((text[0], 1))
    else if |text| < 2 then None
    else
      match text[1]
      case '"' => Some(('"', 2))
      case '\\' => Some(('\\', 2))
      case 'b' => Some(('\U{08}', 2))
      case 'f' => Some(('\U{0C}', 2))
      case 'n' => Some(('\n', 2))
      case 'r' => Some(('\r', 2))
      case 't' => Some(('\t', 2))
      case 'u' => if |text| < 6 then None else Some(((HexValue(text[4]) * 16 + HexValue(text[5])) as char, 6))
      case _ => None
  }

  lemma DecodedFits(text: string)
    ensures Decoded(text).Some? ==> 0 < Decoded(text).value.1 <= |text|
  {
  }

  /** Read an escaped string up to its closing quote. */
  function Unescape(text: string): Option<(string, string)>
    decreases |text|
  {
    if text == [] then None
    else if text[0] == '"' then Some(("", text[1..]))
    else
      DecodedFits(text);
      var head := Decoded(text);
      if head.None? then None
      else
        var rest := Unescape(text[head.value.1..]);
        if rest.None? then None else Some(([head.value.0] + rest.value.0, rest.value.1))
  }

  /** Every escape is undone, and none starts like the closing quote. */
  lemma EscapeDecodes(c: char, rest: string)
    ensures var text := Escape(c) + rest;
            && Decoded(text) == Some((c, |Escape(c)|)) && text[0] != '"' && text[|Escape(c)|..] == rest
  {
    var e := Escape(c);
    var text := e + rest;
    assert text[0] == e[0];
    if |e| == 2 {
      assert text[1] == e[1];
    } else if |e| == 6 {
      var u := c as int;
      assert text[1] == 'u' && text[4] == HexDigit(u / 16) && text[5] == HexDigit(u % 16);
      HexReads(u / 16);
      HexReads(u % 16);
    }
  }

  lemma HexReads(n: nat)
    requires n < 16
    ensures HexValue(HexDigit(n)) == n
  {
  }

  /** Escaping has a left inverse, which also finds where the string ends. */
  lemma {:induction false} UnescapeInvertsEscape(s: string, rest: string)
    ensures Unescape(Escaped(s) + "\"" + rest) == Some((s, rest))
  {
    hide Escape, Decoded;
    if s == [] {
      assert Escaped(s) + "\"" + rest == "\"" + rest;
      assert ("\"" + rest)[1..] == rest;
    } else {
      var more := Escaped(s[1..]) + "\"" + rest;
      UnescapeInvertsEscape(s[1..], rest);
      assert Escaped(s) + "\"" + rest == Escape(s[0]) + more;
      EscapeDecodes(s[0], more);
      assert s == [s[0]] + s[1..];
    }
  }

  function Quoted(s: string): string {
    "\"" + Escaped(s) + "\""
  }

  lemma QuotedReads(s: string, t: string, x: string, y: string)
    requires Quoted(s) + x == Quoted(t) + y
    ensures s == t && x == y
  {
    hide Unescape, Escaped;
    UnescapeInvertsEscape(s, x);
    UnescapeInvertsEscape(t, y);
    assert (Quoted(s) + x)[1..] == Escaped(s) + "\"" + x;
    assert (Quoted(t) + y)[1..] == Escaped(t) + "\"" + y;
  }

  // ----- Integers -----------------------------------------------------------------------------------

  predicate IsDigit(c: char) {
    '0' <= c <= '9'
  }

  function Digits(n: nat): (out: string)
    ensures out != [] && forall i :: 0 <= i < |out| ==> IsDigit(out[i])
  {
    if n < 10 then ['0' + n as char] else Digits(n / 10) + ['0' + (n % 10) as char]
  }

  function Decimal(n: int): string {
    if n < 0 then "-" + Digits(-n) else Digits(n)
  }

  function ValueOf(s: string): int {
    if s == [] then 0 else ValueOf(s[..|s| - 1]) * 10 + (s[|s| - 1] as int - '0' as int)
  }

  lemma {:induction false} DigitsHaveValue(n: nat)
    ensures ValueOf(Digits(n)) == n
  {
    if n < 10 {
      assert Digits(n)[..0] == [];
    } else {
      DigitsHaveValue(n / 10);
      assert Digits(n)[..|Digits(n)| - 1] == Digits(n / 10);
    }
  }

  /** Not the start of more digits. */
  predicate Delimited(x: string) {
    x == [] || !IsDigit(x[0])
  }

  lemma Splits(a: string, b: string, x: string, y: string)
    requires a + x == b + y && |a| == |b|
    ensures a == b && x == y
  {
    assert a == (a + x)[..|a|] && b == (b + y)[..|b|];
    assert x == (a + x)[|a|..] && y == (b + y)[|b|..];
  }

  /** A run of digits goes on to the end of the longer text. */
  lemma NoLongerRun(a: string, b: string, x: string, y: string)
    requires a + x == b + y && Delimited(x) && forall i :: 0 <= i < |b| ==> IsDigit(b[i])
    ensures |b| <= |a|
  {
    if x != [] {
      assert (a + x)[|a|] == x[0];
      assert !IsDigit((b + y)[|a|]);
    }
  }

  lemma DigitsRead(n: nat, m: nat, x: string, y: string)
    requires Digits(n) + x == Digits(m) + y && Delimited(x) && Delimited(y)
    ensures n == m && x == y
  {
    hide Digits;
    NoLongerRun(Digits(n), Digits(m), x, y);
    NoLongerRun(Digits(m), Digits(n), y, x);
    Splits(Digits(n), Digits(m), x, y);
    DigitsHaveValue(n);
    DigitsHaveValue(m);
  }

  lemma SignDropped(a: string, b: string, x: string, y: string)
    requires "-" + a + x == "-" + b + y
    ensures a + x == b + y
  {
    assert ("-" + a + x)[1..] == a + x && ("-" + b + y)[1..] == b + y;
  }

  lemma DecimalReads(n: int, m: int, x: string, y: string)
    requires Decimal(n) + x == Decimal(m) + y && Delimited(x) && Delimited(y)
    ensures n == m && x == y
  {
    hide Digits, Delimited;
    SignShows(n, x);
    SignShows(m, y);
    if n < 0 && m < 0 {
      SignDropped(Digits(-n), Digits(-m), x, y);
      DigitsRead(-n, -m, x, y);
    } else if n >= 0 && m >= 0 {
      DigitsRead(n, m, x, y);
    }
  }

  lemma SignShows(n: int, x: string)
    ensures (Decimal(n) + x)[0] == '-' <==> n < 0
    ensures Decimal(n) != []
    ensures IsDigit(Decimal(n)[0]) || Decimal(n)[0] == '-'
  {
    var d := Digits(if n < 0 then -n else n);
    assert IsDigit(d[0]);
  }

  // ----- Values --------------------------------------------------------------------------------------

  /** Every integer is in the range doubles hold exactly; anything else is refused. */
  ghost predicate Printable(v: Json) {
    match v
    case Num(n) => -0x20_0000_0000_0000 < n < 0x20_0000_0000_0000
    case Arr(items) => forall i :: 0 <= i < |items| ==> Printable(items[i])
    case Obj(m) => forall k :: k in m ==> Printable(m[k])
    case _ => true
  }

  ghost function Print(v: Json): string {
    match v
    case Null => "null"
    case Bool(b) => if b then "true" else "false"
    case Num(n) => Decimal(n)
    case Str(s) => Quoted(s)
    case Arr(items) => "[" + ItemsFrom(v, 0) + "]"
    case Obj(m) => "{" + MembersFrom(v, SortedKeys(m.Keys), 0) + "}"
  }

  predicate KeysOf(v: Json, keys: seq<string>) {
    v.Obj? && forall k :: k in keys ==> k in v.members
  }

  /** One item, after a comma unless it is the first. */
  ghost function Item(v: Json, i: nat): string
    requires v.Arr? && i < |v.items|
    decreases v, 0
  {
    Comma(i) + Print(v.items[i])
  }

  ghost function ItemsFrom(v: Json, i: nat): string
    requires v.Arr? && i <= |v.items|
    decreases v, 1, |v.items| - i
  {
    if i == |v.items| then "" else Item(v, i) + ItemsFrom(v, i + 1)
  }

  /** One member, after a comma unless it is the first. */
  ghost function Member(v: Json, keys: seq<string>, i: nat): string
    requires KeysOf(v, keys) && i < |keys|
    decreases v, 0
  {
    Comma(i) + Quoted(keys[i]) + ":" + Print(v.members[keys[i]])
  }

  ghost function MembersFrom(v: Json, keys: seq<string>, i: nat): string
    requires KeysOf(v, keys) && i <= |keys|
    decreases v, 1, |keys| - i
  {
    if i == |keys| then "" else Member(v, keys, i) + MembersFrom(v, keys, i + 1)
  }

  function Comma(i: nat): string {
    if i > 0 then "," else ""
  }

  /** What can follow a value: nothing, or punctuation. */
  predicate Follows(x: string) {
    x == [] || x[0] == ',' || x[0] == ']' || x[0] == '}'
  }

  predicate Starts(v: Json, c: char) {
    match v
    case Null => c == 'n'
    case Bool(b) => c == if b then 't' else 'f'
    case Num(n) => IsDigit(c) || c == '-'
    case Str(_) => c == '"'
    case Arr(_) => c == '['
    case Obj(_) => c == '{'
  }

  lemma FirstCharacter(v: Json)
    ensures Print(v) != [] && Starts(v, Print(v)[0])
  {
    if v.Num? {
      SignShows(v.n, []);
    }
  }

  /** What a value starts with tells its kind. */
  lemma SameKind(a: Json, b: Json, c: char)
    requires Starts(a, c) && Starts(b, c)
    ensures match a
            case Null => b.Null?
            case Bool(t) => b == Bool(t)
            case Num(_) => b.Num?
            case Str(_) => b.Str?
            case Arr(_) => b.Arr?
            case Obj(_) => b.Obj?
  {
  }

  lemma SameStart(a: Json, b: Json, x: string, y: string)
    requires Print(a) + x == Print(b) + y
    ensures Starts(a, Print(a)[0]) && Starts(b, Print(a)[0])
    ensures Print(a) != []
  {
    hide Print, Starts;
    FirstCharacter(a);
    FirstCharacter(b);
    assert (Print(a) + x)[0] == Print(a)[0] && (Print(b) + y)[0] == Print(b)[0];
  }

  /** Taking off an opening bracket. */
  lemma Opens(open: string, a: string, b: string, close: string, x: string, y: string)
    requires open + a + close + x == open + b + close + y
    ensures a + (close + x) == b + (close + y)
  {
    assert open + a + close + x == open + (a + (close + x)) && open + b + close + y == open + (b + (close + y));
    Splits(open, open, a + (close + x), b + (close + y));
  }

  /** The printer is self-delimiting: where a printed value is followed by nothing or by
      punctuation, the text decides both the value and what follows. */
  lemma {:induction false} PrintReads(a: Json, b: Json, x: string, y: string)
    requires Follows(x) && Follows(y) && Print(a) + x == Print(b) + y
    ensures a == b && x == y
    decreases a
  {
    hide Digits, Escaped, Starts, ItemsFrom, MembersFrom, Decimal, Quoted;
    SameStart(a, b, x, y);
    SameKind(a, b, Print(a)[0]);
    match a {
      case Null => Splits(Print(a), Print(b), x, y);
      case Bool(_) => Splits(Print(a), Print(b), x, y);
      case Num(n) => DecimalReads(n, b.n, x, y);
      case Str(s) => QuotedReads(s, b.s, x, y);
      case Arr(_) =>
        Opens("[", ItemsFrom(a, 0), ItemsFrom(b, 0), "]", x, y);
        ItemsRead(a, b, 0, x, y);
      case Obj(m) =>
        var ks, ls := SortedKeys(m.Keys), SortedKeys(b.members.Keys);
        Opens("{", MembersFrom(a, ks, 0), MembersFrom(b, ls, 0), "}", x, y);
        MembersRead(a, ks, b, ls, 0, x, y);
        SameMembers(m, b.members, ks);
    }
  }

  lemma SameMembers(m: map<string, Json>, n: map<string, Json>, keys: seq<string>)
    requires Arranges(keys, m.Keys) && Arranges(keys, n.Keys)
    requires forall i :: 0 <= i < |keys| ==> keys[i] in m && keys[i] in n && m[keys[i]] == n[keys[i]]
    ensures m == n
  {
    hide KeyBefore;
    forall k
      ensures k in m <==> k in n
      ensures k in m ==> m[k] == n[k]
    {
      assert k in keys <==> k in m.Keys;
      assert k in keys <==> k in n.Keys;
    }
  }

  lemma {:induction false} ItemsRead(a: Json, b: Json, i: nat, x: string, y: string)
    requires a.Arr? && b.Arr? && i <= |a.items| && i <= |b.items| && a.items[..i] == b.items[..i]
    requires ItemsFrom(a, i) + ("]" + x) == ItemsFrom(b, i) + ("]" + y)
    ensures a == b && x == y
    decreases a, |a.items| - i
  {
    hide Print, Comma, Item, ItemsFrom;
    ItemsStart(a, i, x);
    ItemsStart(b, i, y);
    if i == |a.items| || i == |b.items| {
      assert a.items == b.items;
      Splits("]", "]", x, y);
    } else {
      var restA, restB := ItemsFrom(a, i + 1) + ("]" + x), ItemsFrom(b, i + 1) + ("]" + y);
      NextItem(a, i, "]" + x);
      NextItem(b, i, "]" + y);
      Splits(Comma(i), Comma(i), Print(a.items[i]) + restA, Print(b.items[i]) + restB);
      ItemsStart(a, i + 1, x);
      ItemsStart(b, i + 1, y);
      PrintReads(a.items[i], b.items[i], restA, restB);
      assert a.items[..i + 1] == a.items[..i] + [a.items[i]] && b.items[..i + 1] == b.items[..i] + [b.items[i]];
      ItemsRead(a, b, i + 1, x, y);
    }
  }

  lemma NextItem(a: Json, i: nat, rest: string)
    requires a.Arr? && i < |a.items|
    ensures ItemsFrom(a, i) + rest == Comma(i) + (Print(a.items[i]) + (ItemsFrom(a, i + 1) + rest))
  {
    hide Print, Comma;
  }

  lemma NextMember(a: Json, keys: seq<string>, i: nat, rest: string)
    requires KeysOf(a, keys) && i < |keys|
    ensures MembersFrom(a, keys, i) + rest
         == Comma(i) + (Quoted(keys[i]) + (":" + (Print(a.members[keys[i]]) + (MembersFrom(a, keys, i + 1) + rest))))
  {
    hide Print, Comma, Quoted;
  }

  /** Past the first item the text goes on with a comma or the closing bracket; before it,
      with the bracket only when there is no item. */
  lemma ItemsStart(a: Json, i: nat, x: string)
    requires a.Arr? && i <= |a.items|
    ensures var text := ItemsFrom(a, i) + ("]" + x);
            && text != [] && (i > 0 ==> Follows(text)) && (text[0] == ']' <==> i == |a.items|)
            && (i == |a.items| ==> text == "]" + x)
  {
    hide Print;
    if i < |a.items| {
      FirstCharacter(a.items[i]);
    }
  }

  lemma MembersStart(a: Json, keys: seq<string>, i: nat, x: string)
    requires KeysOf(a, keys) && i <= |keys|
    ensures var text := MembersFrom(a, keys, i) + ("}" + x);
            && text != [] && (i > 0 ==> Follows(text)) && (text[0] == '}' <==> i == |keys|)
            && (i == |keys| ==> text == "}" + x)
  {
    hide Print, Escaped;
  }

  lemma {:induction false} MembersRead(a: Json, ks: seq<string>, b: Json, ls: seq<string>, i: nat, x: string, y: string)
    requires KeysOf(a, ks) && KeysOf(b, ls) && i <= |ks| && i <= |ls| && ks[..i] == ls[..i]
    requires forall j :: 0 <= j < i ==> a.members[ks[j]] == b.members[ls[j]]
    requires MembersFrom(a, ks, i) + ("}" + x) == MembersFrom(b, ls, i) + ("}" + y)
    ensures ks == ls && x == y
    ensures forall j :: 0 <= j < |ks| ==> a.members[ks[j]] == b.members[ls[j]]
    decreases a, |ks| - i
  {
    hide Print, Quoted, Comma, Member, MembersFrom;
    MembersStart(a, ks, i, x);
    MembersStart(b, ls, i, y);
    if i == |ks| || i == |ls| {
      Splits("}", "}", x, y);
    } else {
      var restA, restB := MembersFrom(a, ks, i + 1) + ("}" + x), MembersFrom(b, ls, i + 1) + ("}" + y);
      var valueA, valueB := Print(a.members[ks[i]]) + restA, Print(b.members[ls[i]]) + restB;
      NextMember(a, ks, i, "}" + x);
      NextMember(b, ls, i, "}" + y);
      Splits(Comma(i), Comma(i), Quoted(ks[i]) + (":" + valueA), Quoted(ls[i]) + (":" + valueB));
      QuotedReads(ks[i], ls[i], ":" + valueA, ":" + valueB);
      Splits(":", ":", valueA, valueB);
      MembersStart(a, ks, i + 1, x);
      MembersStart(b, ls, i + 1, y);
      PrintReads(a.members[ks[i]], b.members[ls[i]], restA, restB);
      assert ks[..i + 1] == ks[..i] + [ks[i]] && ls[..i + 1] == ls[..i] + [ls[i]];
      MembersRead(a, ks, b, ls, i + 1, x, y);
    }
  }

  /** Two values print alike only if they are equal, so a canonical form stands for one
      value: member order is the only thing printing forgets, and maps have none. */
  lemma PrintIsInjective(a: Json, b: Json)
    requires Print(a) == Print(b)
    ensures a == b
  {
    hide Print;
    assert Print(a) + [] == Print(a) && Print(b) + [] == Print(b);
    PrintReads(a, b, [], []);
  }

  lemma PrintsArray(v: Json)
    requires v.Arr?
    ensures Print(v) == "[" + ItemsFrom(v, 0) + "]"
  {
  }

  lemma AllMembersPrintable(v: Json, keys: seq<string>)
    requires v.Obj? && Arranges(keys, v.members.Keys)
    ensures Printable(v) <==> forall k :: 0 <= k < |keys| ==> Printable(v.members[keys[k]])
  {
    hide KeyBefore;
    assert forall k :: 0 <= k < |keys| ==> keys[k] in keys;
    forall k | k in v.members
      ensures k in keys
    {
      assert k in v.members.Keys;
    }
  }

  lemma MembersStep(v: Json, keys: seq<string>, i: nat)
    requires KeysOf(v, keys) && i <= |keys|
    ensures MembersFrom(v, keys, i) == if i == |keys| then "" else Member(v, keys, i) + MembersFrom(v, keys, i + 1)
  {
    hide Member;
  }

  lemma PrintsObject(v: Json)
    requires v.Obj?
    ensures Print(v) == "{" + MembersFrom(v, SortedKeys(v.members.Keys), 0) + "}"
  {
  }

  lemma Regroup(before: string, part: string, rest: string, out: string, a: string, b: string)
    requires part == a + b && out == before + a + b
    ensures out + rest == before + (part + rest)
  {
  }

  // ----- Bytes ----------------------------------------------------------------------------------------

  /** The UTF-8 encoding of one character. */
  function Utf8Of(c: char): seq<Frames.Byte> {
    var u := c as int;
    if u < 0x80 then [u]
    else
      var v := u / 0x40;
      if u < 0x800 then [0xC0 + v, 0x80 + u % 0x40]
      else
        var w := v / 0x40;
        if u < 0x1_0000 then [0xE0 + w, 0x80 + v % 0x40, 0x80 + u % 0x40]
        else [0xF0 + w / 0x40, 0x80 + w % 0x40, 0x80 + v % 0x40, 0x80 + u % 0x40]
  }

  function Utf8(s: string): seq<Frames.Byte> {
    if s == [] then [] else Utf8Of(s[0]) + Utf8(s[1..])
  }

  /** Bytes decode in one way: the first one says how many there are. */
  lemma Utf8Apart(c: char, d: char, x: seq<Frames.Byte>, y: seq<Frames.Byte>)
    requires Utf8Of(c) + x == Utf8Of(d) + y
    ensures c == d && x == y
  {
    var a, b := Utf8Of(c) + x, Utf8Of(d) + y;
    var n := |Utf8Of(c)|;
    assert a[0] == Utf8Of(c)[0] && b[0] == Utf8Of(d)[0];
    assert n == |Utf8Of(d)|;
    assert a[..n] == Utf8Of(c) && b[..n] == Utf8Of(d);
    assert a[n..] == x && b[n..] == y;
    SameBytes(c, d);
  }

  lemma SameBytes(c: char, d: char)
    requires Utf8Of(c) == Utf8Of(d)
    ensures c == d
  {
    var p, q := Utf8Of(c), Utf8Of(d);
    var u, v := c as int, d as int;
    assert |p| == |q| && p[0] == q[0] && p[|p| - 1] == q[|p| - 1];
    if |p| > 1 {
      if |p| > 2 {
        assert p[|p| - 2] == q[|p| - 2];
        if |p| > 3 {
          assert p[1] == q[1];
          SixBits(u / 0x40 / 0x40, v / 0x40 / 0x40);
        }
        SixBits(u / 0x40, v / 0x40);
      }
      SixBits(u, v);
    }
  }

  lemma SixBits(u: int, v: int)
    ensures u / 0x40 == v / 0x40 && u % 0x40 == v % 0x40 ==> u == v
  {
  }

  lemma {:induction false} Utf8IsInjective(a: string, b: string)
    requires Utf8(a) == Utf8(b)
    ensures a == b
  {
    hide Utf8Of;
    if a != [] {
      NotEmpty(a[0]);
    }
    if b != [] {
      NotEmpty(b[0]);
    }
    if a != [] && b != [] {
      Utf8Apart(a[0], b[0], Utf8(a[1..]), Utf8(b[1..]));
      Utf8IsInjective(a[1..], b[1..]);
      assert a == [a[0]] + a[1..] && b == [b[0]] + b[1..];
    }
  }

  lemma NotEmpty(c: char)
    ensures Utf8Of(c) != []
  {
  }

  lemma {:induction false} Utf8Appends(a: string, b: string)
    ensures Utf8(a + b) == Utf8(a) + Utf8(b)
  {
    hide Utf8Of;
    if a == [] {
      assert a + b == b;
    } else {
      assert (a + b)[0] == a[0] && (a + b)[1..] == a[1..] + b;
      Utf8Appends(a[1..], b);
    }
  }

  /** The canonical bytes of a value. */
  ghost function CanonicalBytes(v: Json): seq<Frames.Byte> {
    Utf8(Print(v))
  }

  /** Down to the bytes that are hashed and signed, equal forms mean equal values. */
  lemma BytesAreInjective(a: Json, b: Json)
    requires CanonicalBytes(a) == CanonicalBytes(b)
    ensures a == b
  {
    hide Print, Utf8;
    Utf8IsInjective(Print(a), Print(b));
    PrintIsInjective(a, b);
  }

  // ----- The printer ----------------------------------------------------------------------------------

  /** `write_jcs`: recursive writers appending to one buffer. */
  class Printer {
    var bytes: seq<Frames.Byte>
    /** The text written so far. */
    ghost var out: string

    ghost predicate Valid()
      reads this
    {
      bytes == Utf8(out)
    }

    constructor ()
      ensures Valid() && out == ""
    {
      bytes, out := [], "";
    }

    /** Append some text, as UTF-8. */
    method Put(text: string)
      requires Valid()
      modifies this
      ensures Valid() && out == old(out) + text
    {
      hide Utf8;
      Utf8Appends(out, text);
      bytes, out := bytes + Utf8(text), out + text;
    }

    method Write(v: Json) returns (ok: bool)
      requires Valid()
      modifies this
      ensures Valid()
      ensures ok <==> Printable(v)
      ensures ok ==> out == old(out) + Print(v)
      decreases v
    {
      match v {
        case Null => Put("null"); ok := true;
        case Bool(b) => Put(if b then "true" else "false"); ok := true;
        case Num(n) =>
          if n < -MAX_SAFE_INTEGER || n > MAX_SAFE_INTEGER {
            return false;
          }
          Put(Decimal(n));
          ok := true;
        case Str(s) => WriteString(s); ok := true;
        case Arr(items) => ok := WriteArray(v);
        case Obj(m) => ok := WriteObject(v);
      }
    }

    method WriteString(s: string)
      requires Valid()
      modifies this
      ensures Valid()
      ensures out == old(out) + Quoted(s)
    {
      hide Escape;
      Put("\"");
      var i := 0;
      assert s[0..] == s;
      while i < |s|
        invariant Valid() && 0 <= i <= |s|
        invariant out + Escaped(s[i..]) == old(out) + "\"" + Escaped(s)
      {
        assert s[i..][1..] == s[i + 1..];
        assert out + Escaped(s[i..]) == out + Escape(s[i]) + Escaped(s[i + 1..]);
        Put(Escape(s[i]));
        i := i + 1;
      }
      assert out + Escaped(s[i..]) == out;
      Put("\"");
    }

    method WriteArray(v: Json) returns (ok: bool)
      requires v.Arr?
      requires Valid()
      modifies this
      ensures Valid()
      ensures ok <==> Printable(v)
      ensures ok ==> out == old(out) + Print(v)
      decreases v, 0
    {
      hide Print, Comma;
      ghost var start := out;
      Put("[");
      var i := 0;
      while i < |v.items|
        invariant Valid() && 0 <= i <= |v.items|
        invariant forall k :: 0 <= k < i ==> Printable(v.items[k])
        invariant out + ItemsFrom(v, i) == start + "[" + ItemsFrom(v, 0)
      {
        ghost var before := out;
        Put(Comma(i));
        ok := Write(v.items[i]);
        if !ok {
          return;
        }
        Regroup(before, Item(v, i), ItemsFrom(v, i + 1), out, Comma(i), Print(v.items[i]));
        i := i + 1;
      }
      assert out + ItemsFrom(v, i) == out;
      Put("]");
      ok := true;
      PrintsArray(v);
      assert out == start + ("[" + ItemsFrom(v, 0) + "]");
    }

    method WriteMember(v: Json, keys: seq<string>, i: nat) returns (ok: bool)
      requires KeysOf(v, keys) && i < |keys|
      requires Valid()
      modifies this
      ensures Valid()
      ensures ok <==> Printable(v.members[keys[i]])
      ensures ok ==> out == old(out) + Member(v, keys, i)
      decreases v, 0
    {
      hide Quoted, Print, Comma;
      ghost var start := out;
      Put(Comma(i));
      WriteString(keys[i]);
      Put(":");
      ok := Write(v.members[keys[i]]);
      if ok {
        assert out == start + Member(v, keys, i);
      }
    }

    method WriteMembers(v: Json, keys: seq<string>) returns (ok: bool)
      requires Valid()
      requires KeysOf(v, keys)
      modifies this
      ensures Valid()
      ensures ok <==> forall k :: 0 <= k < |keys| ==> Printable(v.members[keys[k]])
      ensures ok ==> out == old(out) + MembersFrom(v, keys, 0)
      decreases v, 1
    {
      hide Quoted, KeyBefore, Print, Comma, Member, Utf8, MembersFrom;
      ghost var start := out;
      var i := 0;
      while i < |keys|
        invariant Valid() && 0 <= i <= |keys|
        invariant forall k :: 0 <= k < i ==> Printable(v.members[keys[k]])
        invariant out + MembersFrom(v, keys, i) == start + MembersFrom(v, keys, 0)
      {
        ghost var before := out;
        assert keys[i] in keys;
        ok := WriteMember(v, keys, i);
        if !ok {
          return;
        }
        MembersStep(v, keys, i);
        Regroup(before, Member(v, keys, i), MembersFrom(v, keys, i + 1), out, Member(v, keys, i), "");
        i := i + 1;
      }
      MembersStep(v, keys, i);
      assert out + MembersFrom(v, keys, i) == out;
      ok := true;
    }

    method WriteObject(v: Json) returns (ok: bool)
      requires Valid()
      requires v.Obj?
      modifies this
      ensures Valid()
      ensures ok <==> Printable(v)
      ensures ok ==> out == old(out) + Print(v)
      decreases v, 2
    {
      hide Quoted, KeyBefore, Print, Utf8, MembersFrom;
      ghost var start := out;
      var keys := SortKeys(v.members.Keys);
      Put("{");
      ok := WriteMembers(v, keys);
      AllMembersPrintable(v, keys);
      if ok {
        Put("}");
        PrintsObject(v);
        assert out == start + ("{" + MembersFrom(v, keys, 0) + "}");
      }
    }
  }

  /** `canonical_json`: the canonical bytes of a value, or nothing when it has none. */
  method Canonicalize(v: Json) returns (result: Option<seq<Frames.Byte>>)
    ensures result.Some? <==> Printable(v)
    ensures result.Some? ==> result.value == CanonicalBytes(v)
  {
    var printer := new Printer();
    var ok := printer.Write(v);
    assert "" + Print(v) == Print(v);
    return if ok then Some(printer.bytes) else None;
  }
}
