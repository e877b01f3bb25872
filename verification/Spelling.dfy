/** What a canonical line looks like, said of its bytes and apart from the printer: which text writes which
    value, which spellings a text may use, and that these leave one text for each value. Code points are
    written out. */
module Spelling {
  import opened Text
  import opened Outcomes
  import opened Json
  import opened Scanner

  // ---- which text writes which value ---------------------------------------------------------

  /** The value of a lowercase hex digit, or -1. */
  function Nibble(c: CodePoint): int {
    if 0x30 <= c <= 0x39 then c - 0x30 else if 0x61 <= c <= 0x66 then c - 0x57 else -1
  }

  /** A backslash, a u and four lowercase hex digits. */
  predicate IsUnit(t: Str) {
    |t| == 6 && t[0] == 0x5C && t[1] == 0x75 && forall i :: 2 <= i < 6 ==> Nibble(t[i]) >= 0
  }

  function UnitOf(t: Str): int
    requires IsUnit(t)
  {
    Nibble(t[2]) * 0x1000 + Nibble(t[3]) * 0x100 + Nibble(t[4]) * 0x10 + Nibble(t[5])
  }

  predicate WritesChar(c: CodePoint, t: Str) {
    if c == 0x22 then t == [0x5C, 0x22]
    else if c == 0x5C then t == [0x5C, 0x5C]
    else if c == 0x08 then t == [0x5C, 0x62]
    else if c == 0x09 then t == [0x5C, 0x74]
    else if c == 0x0A then t == [0x5C, 0x6E]
    else if c == 0x0C then t == [0x5C, 0x66]
    else if c == 0x0D then t == [0x5C, 0x72]
    else if 0x20 <= c <= 0x7E then t == [c]
    else if c <= 0xFFFF then IsUnit(t) && UnitOf(t) == c
    else
      && |t| == 12 && IsUnit(t[..6]) && IsUnit(t[6..])
      && 0xD800 <= UnitOf(t[..6]) <= 0xDBFF && 0xDC00 <= UnitOf(t[6..]) <= 0xDFFF
      && c == 0x1_0000 + (UnitOf(t[..6]) - 0xD800) * 0x400 + (UnitOf(t[6..]) - 0xDC00)
  }

  ghost predicate WritesString(s: Str, t: Str) {
    exists parts: seq<Str> :: |parts| == |s| && t == [0x22] + Join(parts) + [0x22]
      && forall i :: 0 <= i < |s| ==> WritesChar(s[i], parts[i])
  }

  function PlaceValue(ds: Str): int {
    if ds == [] then 0 else (ds[0] - 0x30) * Power10(|ds| - 1) + PlaceValue(ds[1..])
  }

  function Power10(n: nat): nat {
    if n == 0 then 1 else 10 * Power10(n - 1)
  }

  /** Decimal digits without a leading zero. */
  predicate WritesNat(n: int, ds: Str) {
    && ds != [] && (forall i :: 0 <= i < |ds| ==> 0x30 <= ds[i] <= 0x39)
    && (ds[0] == 0x30 ==> |ds| == 1)
    && PlaceValue(ds) == n
  }

  predicate WritesInt(n: int, t: Str) {
    if n < 0 then t != [] && t[0] == 0x2D && WritesNat(-n, t[1..]) else WritesNat(n, t)
  }

  function Separated(parts: seq<Str>): Str {
    if parts == [] then [] else if |parts| == 1 then parts[0] else parts[0] + [0x2C] + Separated(parts[1..])
  }

  ghost predicate Writes(v: Json, t: Str)
    decreases v, 0
  {
    match v
    case Null => t == [0x6E, 0x75, 0x6C, 0x6C]
    case Bool(b) => t == if b then [0x74, 0x72, 0x75, 0x65] else [0x66, 0x61, 0x6C, 0x73, 0x65]
    case Int(n) => WritesInt(n, t)
    case Float => false
    case Opaque => false
    case String(s) => WritesString(s, t)
    case Array(items) =>
      exists parts: seq<Str> :: |parts| == |items| && t == [0x5B] + Separated(parts) + [0x5D]
        && forall i :: 0 <= i < |items| ==> Writes(items[i], parts[i])
    case Object(members) =>
      exists parts: seq<Str> :: |parts| == |members| && t == [0x7B] + Separated(parts) + [0x7D]
        && forall i :: 0 <= i < |members| ==> WritesMember(members[i], parts[i])
  }

  ghost predicate WritesMember(m: Member, t: Str)
    decreases m, 1
  {
    exists key, value :: t == key + [0x3A] + value && WritesString(m.key, key) && Writes(m.value, value)
  }

  lemma HexDigitWrites(d: int)
    requires 0 <= d < 16
    ensures Nibble(HexDigit(d)) == d
  {
  }

  lemma UnitWrites(n: int)
    requires 0 <= n < 0x1_0000
    ensures IsUnit(UnicodeEscape(n)) && UnitOf(UnicodeEscape(n)) == n
  {
    Hex4Digits(n);
    FourNibbles(n / 0x1000, n / 0x100 % 16, n / 16 % 16, n % 16);
  }

  lemma FourNibbles(a: int, b: int, c: int, d: int)
    requires 0 <= a < 16 && 0 <= b < 16 && 0 <= c < 16 && 0 <= d < 16
    ensures var t := [0x5C, 0x75, HexDigit(a), HexDigit(b), HexDigit(c), HexDigit(d)];
      IsUnit(t) && UnitOf(t) == a * 0x1000 + b * 0x100 + c * 0x10 + d
  {
    hide HexDigit;
    HexDigitWrites(a);
    HexDigitWrites(b);
    HexDigitWrites(c);
    HexDigitWrites(d);
  }

  lemma CharWrites(c: CodePoint)
    ensures WritesChar(c, EscapeChar(c))
  {
    hide UnicodeEscape, UnitOf, IsUnit;
    if c < 0x1_0000 {
      UnitWrites(c);
    } else {
      var hi, lo := 0xD800 + (c - 0x1_0000) / 0x400, 0xDC00 + (c - 0x1_0000) % 0x400;
      UnitWrites(hi);
      UnitWrites(lo);
      SixAndSix(UnicodeEscape(hi), UnicodeEscape(lo));
    }
  }

  lemma SixAndSix(a: Str, b: Str)
    requires IsUnit(a) && IsUnit(b)
    ensures |a + b| == 12 && (a + b)[..6] == a && (a + b)[6..] == b
  {
  }

  lemma {:induction false} EscapeParts(s: Str) returns (parts: seq<Str>)
    ensures |parts| == |s| && Escape(s) == Join(parts)
    ensures forall i :: 0 <= i < |s| ==> WritesChar(s[i], parts[i])
  {
    hide WritesChar, EscapeChar;
    if s == [] {
      parts := [];
    } else {
      var rest := EscapeParts(s[1..]);
      CharWrites(s[0]);
      parts := [EscapeChar(s[0])] + rest;
      assert parts[1..] == rest;
    }
  }

  lemma QuotedWrites(s: Str)
    ensures WritesString(s, Quoted(s))
  {
    hide Escape, WritesChar;
    var parts := EscapeParts(s);
  }

  lemma {:induction false} PlaceValueGrows(ds: Str, d: CodePoint)
    ensures PlaceValue(ds + [d]) == PlaceValue(ds) * 10 + (d - 0x30)
  {
    if ds == [] {
      assert ds + [d] == [d] && [d][1..] == [];
    } else {
      PlaceValueGrows(ds[1..], d);
      assert (ds + [d])[1..] == ds[1..] + [d];
      var first: int := ds[0];
      TimesTen(first - 0x30, Power10(|ds| - 1));
    }
  }

  lemma TimesTen(a: int, b: int)
    ensures a * (10 * b) == a * b * 10
  {
  }

  lemma {:induction false} DecimalWrites(n: nat)
    ensures WritesNat(n, Decimal(n)) && (n > 0 ==> Decimal(n)[0] != 0x30)
  {
    if n < 10 {
      assert Decimal(n)[1..] == [];
    } else {
      DecimalWrites(n / 10);
      PlaceValueGrows(Decimal(n / 10), 0x30 + n % 10);
    }
  }

  /** What the printer makes of a clean value writes that value. */
  lemma {:induction false} CompactWrites(v: Json)
    requires Clean(v)
    ensures Writes(v, Compact(v))
    decreases v, 1
  {
    hide WritesString, Quoted, WritesNat, Decimal;
    match v {
      case Int(n) => DecimalWrites(if n < 0 then -n else n);
      case String(s) => QuotedWrites(s);
      case Array(items) => var parts := ItemsWrite(items);
      case Object(members) => var parts := MembersWrite(members);
      case _ =>
    }
  }

  lemma {:induction false} ItemsWrite(items: seq<Json>) returns (parts: seq<Str>)
    requires forall i :: 0 <= i < |items| ==> Clean(items[i])
    ensures |parts| == |items| && CompactItems(items) == Separated(parts)
    ensures forall i :: 0 <= i < |items| ==> Writes(items[i], parts[i])
    decreases items, 0
  {
    hide Writes, Compact, Clean;
    if items == [] {
      parts := [];
    } else {
      CompactWrites(items[0]);
      var rest := ItemsWrite(items[1..]);
      parts := [Compact(items[0])] + rest;
      assert parts[1..] == rest;
    }
  }

  lemma {:induction false} MembersWrite(members: seq<Member>) returns (parts: seq<Str>)
    requires forall i :: 0 <= i < |members| ==> Clean(members[i].value)
    ensures |parts| == |members| && CompactMembers(members) == Separated(parts)
    ensures forall i :: 0 <= i < |members| ==> WritesMember(members[i], parts[i])
    decreases members, 0
  {
    hide Writes, Compact, Clean, WritesString, Quoted;
    if members == [] {
      parts := [];
    } else {
      CompactWrites(members[0].value);
      QuotedWrites(members[0].key);
      var rest := MembersWrite(members[1..]);
      parts := [CompactMember(members[0])] + rest;
      assert parts[1..] == rest;
    }
  }

  // ---- a value is written in one way ---------------------------------------------------------

  lemma SameUnit(a: Str, b: Str)
    requires IsUnit(a) && IsUnit(b) && UnitOf(a) == UnitOf(b)
    ensures a == b
  {
    var (p, q, r, s) := (Nibble(a[2]), Nibble(a[3]), Nibble(a[4]), Nibble(a[5]));
    var (w, x, y, z) := (Nibble(b[2]), Nibble(b[3]), Nibble(b[4]), Nibble(b[5]));
    assert p == w;
    assert q == x;
    assert r == y && s == z;
    SameNibble(a[2], b[2]);
    SameNibble(a[3], b[3]);
    SameNibble(a[4], b[4]);
    SameNibble(a[5], b[5]);
  }

  lemma SameNibble(a: CodePoint, b: CodePoint)
    requires Nibble(a) == Nibble(b) >= 0
    ensures a == b
  {
  }

  lemma CharWrittenOnce(c: CodePoint, a: Str, b: Str)
    requires WritesChar(c, a) && WritesChar(c, b)
    ensures a == b
  {
    hide IsUnit, UnitOf;
    if c > 0xFFFF {
      assert UnitOf(a[..6]) == UnitOf(b[..6]) && UnitOf(a[6..]) == UnitOf(b[6..]);
      SameUnit(a[..6], b[..6]);
      SameUnit(a[6..], b[6..]);
      assert a == a[..6] + a[6..] && b == b[..6] + b[6..];
    } else if IsUnit(a) && IsUnit(b) && UnitOf(a) == UnitOf(b) {
      SameUnit(a, b);
    }
  }

  lemma StringWrittenOnce(s: Str, a: Str, b: Str)
    requires WritesString(s, a) && WritesString(s, b)
    ensures a == b
  {
    hide WritesChar;
    var p: seq<Str> :| |p| == |s| && a == [0x22] + Join(p) + [0x22]
      && forall i :: 0 <= i < |s| ==> WritesChar(s[i], p[i]);
    var q: seq<Str> :| |q| == |s| && b == [0x22] + Join(q) + [0x22]
      && forall i :: 0 <= i < |s| ==> WritesChar(s[i], q[i]);
    forall i | 0 <= i < |s| ensures p[i] == q[i] {
      CharWrittenOnce(s[i], p[i], q[i]);
    }
    assert p == q;
  }

  /** Decimal digits without a leading zero are the printer's. */
  lemma {:induction false} NatWrittenOnce(n: int, ds: Str)
    requires WritesNat(n, ds)
    ensures n >= 0 && ds == Decimal(n)
    decreases |ds|
  {
    var k := |ds| - 1;
    var last: int := ds[k];
    if k == 0 {
      assert ds[1..] == [] && ds == [ds[0]];
      assert PlaceValue(ds[1..]) == 0 && Power10(0) == 1;
      assert n == ds[0] as int - 0x30;
    } else {
      var front := ds[..k];
      assert ds == front + [ds[k]];
      PlaceValueGrows(front, ds[k]);
      assert WritesNat(PlaceValue(front), front) by {
        assert front[0] == ds[0];
        assert |front| == 1 ==> front[0] != 0x30;
      }
      NatWrittenOnce(PlaceValue(front), front);
      assert Decimal(0) == [0x30];
      assert PlaceValue(front) > 0;
      assert n / 10 == PlaceValue(front) && n % 10 == last - 0x30;
    }
  }

  lemma IntWrittenOnce(n: int, t: Str)
    requires WritesInt(n, t)
    ensures t == IntText(n)
  {
    hide WritesNat, Decimal;
    if n < 0 {
      NatWrittenOnce(-n, t[1..]);
      assert t == [t[0]] + t[1..];
    } else {
      NatWrittenOnce(n, t);
    }
  }

  /** A text writes a clean value exactly when it is what the printer makes of it. */
  lemma WritesExactly(v: Json, t: Str)
    requires Clean(v)
    ensures Writes(v, t) <==> t == Compact(v)
  {
    hide Writes, Compact;
    CompactWrites(v);
    if Writes(v, t) {
      WrittenIsCompact(v, t);
    }
  }

  lemma {:induction false} WrittenIsCompact(v: Json, t: Str)
    requires Clean(v) && Writes(v, t)
    ensures t == Compact(v)
    decreases v, 1
  {
    hide WritesString, Quoted, WritesInt, IntText, WritesMember, CompactItems, CompactMembers;
    match v {
      case Int(n) => IntWrittenOnce(n, t);
      case String(s) =>
        QuotedWrites(s);
        StringWrittenOnce(s, t, Quoted(s));
      case Array(items) =>
        var parts: seq<Str> :| |parts| == |items| && t == [0x5B] + Separated(parts) + [0x5D]
          && forall i :: 0 <= i < |items| ==> Writes(items[i], parts[i]);
        WrittenItems(items, parts);
      case Object(members) =>
        var parts: seq<Str> :| |parts| == |members| && t == [0x7B] + Separated(parts) + [0x7D]
          && forall i :: 0 <= i < |members| ==> WritesMember(members[i], parts[i]);
        WrittenMembers(members, parts);
      case _ =>
    }
  }

  lemma {:induction false} WrittenItems(items: seq<Json>, parts: seq<Str>)
    requires |parts| == |items|
    requires forall i :: 0 <= i < |items| ==> Clean(items[i]) && Writes(items[i], parts[i])
    ensures Separated(parts) == CompactItems(items)
    decreases items, 0
  {
    hide Writes, Compact, Clean;
    if items != [] {
      WrittenIsCompact(items[0], parts[0]);
      WrittenItems(items[1..], parts[1..]);
    }
  }

  lemma {:induction false} WrittenMembers(members: seq<Member>, parts: seq<Str>)
    requires |parts| == |members|
    requires forall i :: 0 <= i < |members| ==> Clean(members[i].value) && WritesMember(members[i], parts[i])
    ensures Separated(parts) == CompactMembers(members)
    decreases members, 0
  {
    hide Writes, Compact, Clean, WritesString, Quoted, CompactMember;
    if members != [] {
      assert WritesMember(members[0], parts[0]);
      var key, value :| parts[0] == key + [0x3A] + value && WritesString(members[0].key, key)
        && Writes(members[0].value, value);
      WrittenIsCompact(members[0].value, value);
      QuotedWrites(members[0].key);
      StringWrittenOnce(members[0].key, key, Quoted(members[0].key));
      MemberIs(members[0]);
      WrittenMembers(members[1..], parts[1..]);
    }
  }

  lemma MemberIs(m: Member)
    ensures CompactMember(m) == Quoted(m.key) + [0x3A] + Compact(m.value)
  {
  }

  // ---- which spellings a text may use --------------------------------------------------------

  /** A unit that a character could also be written without: printable ASCII or a short escape. */
  predicate HasOtherForm(n: int) {
    0x20 <= n <= 0x7E || n == 0x08 || n == 0x09 || n == 0x0A || n == 0x0C || n == 0x0D
  }

  /** Outside strings: printable ASCII, no space, no zero after a minus sign. */
  predicate Spelled(t: Str)
    decreases |t|
  {
    t == []
    || (t[0] == 0x22 && InString(t[1..]))
    || (0x21 <= t[0] <= 0x7E && t[0] != 0x22 && !(t[0] == 0x2D && |t| > 1 && t[1] == 0x30) && Spelled(t[1..]))
  }

  /** Inside strings: printable ASCII as itself, the seven short escapes, and lowercase units for the rest. */
  predicate InString(t: Str)
    decreases |t|
  {
    t != []
    && if t[0] == 0x22 then Spelled(t[1..])
       else if t[0] != 0x5C then 0x20 <= t[0] <= 0x7E && InString(t[1..])
       else if |t| < 2 then false
       else if t[1] == 0x75 then
         |t| >= 6 && IsUnit(t[..6]) && !HasOtherForm(UnitOf(t[..6])) && InString(t[6..])
       else
         && (t[1] == 0x22 || t[1] == 0x5C || t[1] == 0x62 || t[1] == 0x66 || t[1] == 0x6E || t[1] == 0x72
             || t[1] == 0x74)
         && InString(t[2..])
  }

  lemma {:induction false} SpelledIsAscii(t: Str)
    ensures Spelled(t) ==> forall i :: 0 <= i < |t| ==> 0x20 <= t[i] <= 0x7E
    ensures InString(t) ==> forall i :: 0 <= i < |t| ==> 0x20 <= t[i] <= 0x7E
    decreases |t|
  {
    if t != [] {
      SpelledIsAscii(t[1..]);
      assert forall i :: 1 <= i < |t| ==> t[i] == t[1..][i - 1];
      if t[0] == 0x5C && InString(t) {
        if t[1] == 0x75 {
          SpelledIsAscii(t[6..]);
          assert forall i :: 6 <= i < |t| ==> t[i] == t[6..][i - 6];
          assert forall i :: 0 <= i < 6 ==> t[i] == t[..6][i];
        } else {
          SpelledIsAscii(t[2..]);
          assert forall i :: 2 <= i < |t| ==> t[i] == t[2..][i - 2];
        }
      }
    }
  }

  // ---- printed text is spelled so ------------------------------------------------------------

  lemma UnitSpelled(n: int, rest: Str)
    requires 0 <= n < 0x1_0000 && !HasOtherForm(n) && InString(rest)
    ensures InString(UnicodeEscape(n) + rest)
  {
    hide UnicodeEscape;
    UnitWrites(n);
    var t := UnicodeEscape(n) + rest;
    Split(UnicodeEscape(n), rest);
    assert t[..6] == UnicodeEscape(n) && t[0] == 0x5C && t[1] == 0x75;
  }

  lemma CharSpelled(c: CodePoint, rest: Str)
    requires InString(rest)
    ensures InString(EscapeChar(c) + rest)
  {
    hide UnicodeEscape;
    if c < 0x1_0000 {
      if !HasOtherForm(c) {
        UnitSpelled(c, rest);
      } else {
        Split(EscapeChar(c), rest);
      }
    } else {
      var hi, lo := 0xD800 + (c - 0x1_0000) / 0x400, 0xDC00 + (c - 0x1_0000) % 0x400;
      UnitSpelled(lo, rest);
      UnitSpelled(hi, UnicodeEscape(lo) + rest);
      Assoc(UnicodeEscape(hi), UnicodeEscape(lo), rest);
    }
  }

  lemma {:induction false} EscapeSpelled(s: Str, rest: Str)
    requires Spelled(rest)
    ensures InString(Escape(s) + ([0x22] + rest))
  {
    hide EscapeChar;
    if s == [] {
      assert [] + ([0x22] + rest) == [0x22] + rest;
      Cons(0x22, rest);
    } else {
      EscapeSpelled(s[1..], rest);
      CharSpelled(s[0], Escape(s[1..]) + ([0x22] + rest));
      Assoc(EscapeChar(s[0]), Escape(s[1..]), [0x22] + rest);
    }
  }

  lemma QuotedSpelled(s: Str, rest: Str)
    requires Spelled(rest)
    ensures Spelled(Quoted(s) + rest)
  {
    hide Escape, InString;
    EscapeSpelled(s, rest);
    QuotedText(s, rest);
    Cons(0x22, Escape(s) + ([0x22] + rest));
  }

  /** Characters that stand outside strings for themselves. */
  lemma {:induction false} PlainSpelled(word: Str, rest: Str)
    requires forall i :: 0 <= i < |word| ==> 0x21 <= word[i] <= 0x7E && word[i] != 0x22 && word[i] != 0x2D
    requires Spelled(rest)
    ensures Spelled(word + rest)
  {
    hide InString;
    if word == [] {
      assert word + rest == rest;
    } else {
      PlainSpelled(word[1..], rest);
      var t := word + rest;
      assert t[1..] == word[1..] + rest;
      assert t[0] == word[0];
    }
  }

  lemma IntSpelled(n: int, rest: Str)
    requires Spelled(rest)
    ensures Spelled(IntText(n) + rest)
  {
    hide Decimal;
    var m := if n < 0 then -n else n;
    DecimalWrites(m);
    PlainSpelled(Decimal(m), rest);
    if n < 0 {
      Assoc([0x2D], Decimal(m), rest);
      Cons(0x2D, Decimal(m) + rest);
    }
  }

  lemma {:induction false} CompactSpelled(v: Json, rest: Str)
    requires Clean(v) && Spelled(rest)
    ensures Spelled(Compact(v) + rest)
    decreases v, 1
  {
    hide Spelled, IntText, Quoted;
    match v {
      case Null => PlainSpelled(NULL, rest);
      case Bool(b) => PlainSpelled(if b then TRUE else FALSE, rest);
      case Int(n) => IntSpelled(n, rest);
      case String(s) => QuotedSpelled(s, rest);
      case Array(items) =>
        PlainSpelled([CLOSE_ARRAY], rest);
        ItemsSpelled(items, [CLOSE_ARRAY] + rest);
        WrappedText(OPEN_ARRAY, CompactItems(items), CLOSE_ARRAY, rest);
        PlainSpelled([OPEN_ARRAY], CompactItems(items) + ([CLOSE_ARRAY] + rest));
      case Object(members) =>
        PlainSpelled([CLOSE_OBJECT], rest);
        MembersSpelled(members, [CLOSE_OBJECT] + rest);
        WrappedText(OPEN_OBJECT, CompactMembers(members), CLOSE_OBJECT, rest);
        PlainSpelled([OPEN_OBJECT], CompactMembers(members) + ([CLOSE_OBJECT] + rest));
    }
  }

  lemma {:induction false} ItemsSpelled(items: seq<Json>, rest: Str)
    requires Spelled(rest) && forall i :: 0 <= i < |items| ==> Clean(items[i])
    ensures Spelled(CompactItems(items) + rest)
    decreases items, 0
  {
    hide Spelled, Compact, Clean;
    if items == [] {
      assert [] + rest == rest;
    } else if |items| == 1 {
      CompactSpelled(items[0], rest);
    } else {
      var more := CompactItems(items[1..]) + rest;
      ItemsSpelled(items[1..], rest);
      PlainSpelled([COMMA], more);
      CompactSpelled(items[0], [COMMA] + more);
      ListText(COMMA, Compact(items[0]), CompactItems(items[1..]), rest);
    }
  }

  lemma {:induction false} MembersSpelled(members: seq<Member>, rest: Str)
    requires Spelled(rest) && forall i :: 0 <= i < |members| ==> Clean(members[i].value)
    ensures Spelled(CompactMembers(members) + rest)
    decreases members, 0
  {
    hide Spelled, CompactMember, Clean;
    if members == [] {
      assert [] + rest == rest;
    } else if |members| == 1 {
      MemberSpelled(members[0], rest);
    } else {
      var more := CompactMembers(members[1..]) + rest;
      MembersSpelled(members[1..], rest);
      PlainSpelled([COMMA], more);
      MemberSpelled(members[0], [COMMA] + more);
      ListText(COMMA, CompactMember(members[0]), CompactMembers(members[1..]), rest);
    }
  }

  lemma {:induction false} MemberSpelled(m: Member, rest: Str)
    requires Spelled(rest) && Clean(m.value)
    ensures Spelled(CompactMember(m) + rest)
    decreases m, 2
  {
    hide Spelled, Compact, Quoted;
    CompactSpelled(m.value, rest);
    PlainSpelled([COLON], Compact(m.value) + rest);
    QuotedSpelled(m.key, [COLON] + (Compact(m.value) + rest));
    ListText(COLON, Quoted(m.key), Compact(m.value), rest);
  }

  // ---- the spelling is unique ----------------------------------------------------------------

  lemma NibbleReads(c: CodePoint)
    requires Nibble(c) >= 0
    ensures HexValue(c) == Some(Nibble(c)) && HexDigit(Nibble(c)) == c
  {
  }

  lemma UnitReads(t: Str)
    requires |t| >= 6 && IsUnit(t[..6])
    ensures 0 <= UnitOf(t[..6]) < 0x1_0000
    ensures ParseHex4(t[2..]) == Ok(Parsed(UnitOf(t[..6]), t[6..]))
    ensures t == UnicodeEscape(UnitOf(t[..6])) + t[6..]
  {
    var u := t[..6];
    forall i | 2 <= i < 6 ensures Nibble(t[i]) >= 0 && u[i] == t[i] {
      assert u[i] == t[i];
    }
    NibbleReads(t[2]);
    NibbleReads(t[3]);
    NibbleReads(t[4]);
    NibbleReads(t[5]);
    assert t[2..][4..] == t[6..];
    DigitsOfUnit(Nibble(t[2]), Nibble(t[3]), Nibble(t[4]), Nibble(t[5]));
    assert u == [0x5C, 0x75, t[2], t[3], t[4], t[5]];
    assert t == u + t[6..];
  }

  lemma DigitsOfUnit(a: int, b: int, c: int, d: int)
    requires 0 <= a < 16 && 0 <= b < 16 && 0 <= c < 16 && 0 <= d < 16
    ensures var n := a * 0x1000 + b * 0x100 + c * 0x10 + d;
      0 <= n < 0x1_0000 && n / 0x1000 == a && n / 0x100 % 16 == b && n / 16 % 16 == c && n % 16 == d
  {
    var n := a * 0x1000 + b * 0x100 + c * 0x10 + d;
    OneDigit(a * 0x100 + b * 0x10 + c, d);
    assert n / 0x100 == a * 0x10 + b;
    OneDigit(a * 0x10 + b, c);
    OneDigit(a, b);
  }

  lemma OneDigit(high: int, d: int)
    requires 0 <= d < 16
    ensures (high * 16 + d) / 16 == high && (high * 16 + d) % 16 == d
  {
  }

  lemma CharUnique(t: Str, c: CodePoint, rest: Str)
    requires InString(t) && t[0] != 0x22 && ParseChar(t) == Ok(Parsed(c, rest)) && !IsSurrogate(c)
    ensures t == EscapeChar(c) + rest && InString(rest)
  {
    hide UnicodeEscape, UnitOf, IsUnit, ParseHex4;
    if t[0] != 0x5C {
      assert t == [t[0]] + t[1..];
    } else if t[1] != 0x75 {
      assert t == [0x5C, t[1]] + t[2..];
    } else {
      UnitUnique(t, c, rest);
    }
  }

  lemma UnitUnique(t: Str, c: CodePoint, rest: Str)
    requires InString(t) && |t| > 1 && t[0] == 0x5C && t[1] == 0x75
    requires ParseUnicodeEscape(t[2..]) == Ok(Parsed(c, rest)) && !IsSurrogate(c)
    ensures t == EscapeChar(c) + rest && InString(rest)
  {
    hide UnicodeEscape, UnitOf, IsUnit, ParseHex4;
    var first, tail := UnitOf(t[..6]), t[6..];
    UnitReads(t);
    if IsHigh(first) {
      PairUnique(t, c, rest);
    } else {
      assert EscapeChar(c) == UnicodeEscape(c);
    }
  }

  lemma PairEscape(hi: CodePoint, lo: CodePoint, c: CodePoint)
    requires IsHigh(hi) && IsLow(lo) && c == 0x1_0000 + (hi - 0xD800) * 0x400 + (lo - 0xDC00)
    ensures EscapeChar(c) == UnicodeEscape(hi) + UnicodeEscape(lo)
  {
    hide UnicodeEscape;
    assert (c - 0x1_0000) / 0x400 == hi - 0xD800 && (c - 0x1_0000) % 0x400 == lo - 0xDC00;
  }

  lemma PairUnique(t: Str, c: CodePoint, rest: Str)
    requires InString(t) && |t| > 1 && t[0] == 0x5C && t[1] == 0x75 && IsHigh(UnitOf(t[..6]))
    requires ParseUnicodeEscape(t[2..]) == Ok(Parsed(c, rest)) && !IsSurrogate(c)
    ensures t == EscapeChar(c) + rest && InString(rest)
  {
    hide UnicodeEscape, UnitOf, IsUnit, ParseHex4, EscapeChar;
    var hi, tail := UnitOf(t[..6]), t[6..];
    UnitReads(t);
    PairFollows(t, c, rest);
    UnitReads(tail);
    var lo := UnitOf(tail[..6]);
    PairEscape(hi, lo, c);
    Assoc(UnicodeEscape(hi), UnicodeEscape(lo), rest);
  }

  lemma PairFollows(t: Str, c: CodePoint, rest: Str)
    requires InString(t) && |t| > 1 && t[0] == 0x5C && t[1] == 0x75 && IsHigh(UnitOf(t[..6]))
    requires ParseUnicodeEscape(t[2..]) == Ok(Parsed(c, rest)) && !IsSurrogate(c)
    ensures var tail := t[6..];
      && |tail| >= 6 && IsUnit(tail[..6]) && IsLow(UnitOf(tail[..6])) && rest == tail[6..] && InString(rest)
      && c == 0x1_0000 + (UnitOf(t[..6]) - 0xD800) * 0x400 + (UnitOf(tail[..6]) - 0xDC00)
  {
    hide UnitOf, IsUnit, ParseHex4;
    var tail := t[6..];
    UnitReads(t);
    assert |tail| >= 2 && tail[0] == 0x5C && tail[1] == 0x75;
    UnitReads(tail);
  }

  lemma {:induction false} StringUnique(t: Str, s: Str, rest: Str)
    requires InString(t) && ParseStringBody(t) == Ok(Parsed(s, rest)) && NoSurrogate(s)
    ensures t == Escape(s) + ([0x22] + rest) && Spelled(rest)
    decreases |t|
  {
    hide ParseChar, EscapeChar, InString;
    if t[0] == 0x22 {
      StringEnds(t);
      assert t == [0x22] + t[1..] && [] + ([0x22] + rest) == [0x22] + rest;
    } else {
      var c := ParseChar(t).value;
      assert s[0] == c.value && s[1..] == ParseStringBody(c.rest).value.value;
      CharUnique(t, c.value, c.rest);
      StringUnique(c.rest, s[1..], rest);
      Assoc(EscapeChar(s[0]), Escape(s[1..]), [0x22] + rest);
    }
  }

  lemma StringEnds(t: Str)
    requires InString(t) && t[0] == 0x22
    ensures Spelled(t[1..])
  {
  }

  lemma {:induction false} PlainDropped(t: Str, k: nat)
    requires Spelled(t) && k <= |t| && forall i :: 0 <= i < k ==> t[i] != 0x22
    ensures Spelled(t[k..])
  {
    if k > 0 {
      PlainDropped(t[1..], k - 1);
      assert t[1..][k - 1..] == t[k..];
    } else {
      assert t[0..] == t;
    }
  }

  lemma SpaceKept(t: Str)
    requires Spelled(t)
    ensures SkipSpace(t) == t
  {
  }

  lemma AppendDigit(n: nat, d: nat)
    requires n > 0 && d < 10
    ensures Decimal(n * 10 + d) == Decimal(n) + [0x30 + d]
  {
    assert (n * 10 + d) / 10 == n && (n * 10 + d) % 10 == d;
  }

  lemma {:induction false} DecimalUnique(ds: Str)
    requires ds != [] && (forall i :: 0 <= i < |ds| ==> IsDigit(ds[i])) && (ds[0] == 0x30 ==> |ds| == 1)
    ensures DigitsValue(ds) >= 0 && Decimal(DigitsValue(ds)) == ds && (ds[0] != 0x30 ==> DigitsValue(ds) > 0)
  {
    hide Decimal;
    var n := |ds| - 1;
    var d: int := ds[n];
    if n > 0 {
      DecimalUnique(ds[..n]);
      AppendDigit(DigitsValue(ds[..n]), d - 0x30);
      assert ds == ds[..n] + [ds[n]];
    } else {
      assert ds[..0] == [] && ds == [ds[0]];
      OneDecimal(d - 0x30);
    }
  }

  lemma OneDecimal(d: nat)
    requires d < 10
    ensures Decimal(d) == [0x30 + d]
  {
  }

  lemma MagnitudeUnique(t: Str, negative: bool, v: Json, rest: Str)
    requires Spelled(t) && ParseMagnitude(t, negative) == Ok(Parsed(v, rest)) && v != Float
    requires negative ==> t != [] && t[0] != 0x30
    ensures v.Int? && Spelled(rest)
    ensures (if negative then [0x2D] + t else t) == Compact(v) + rest
  {
    hide FractionLength, ExponentLength, DigitsValue, DigitRun, Decimal, Spelled, Quoted, CompactItems, CompactMembers;
    var k := if t[0] == ZERO then 1 else DigitRun(t);
    var ds := t[..k];
    assert forall i :: 0 <= i < k ==> IsDigit(t[i]) && ds[i] == t[i];
    DecimalUnique(ds);
    assert t == ds + t[k..] && t[k..][0..] == t[k..];
    PlainDropped(t, k);
    if negative {
      Assoc([0x2D], ds, t[k..]);
    }
  }

  lemma NumberUnique(t: Str, v: Json, rest: Str)
    requires t != [] && Spelled(t) && ParseNumber(t) == Ok(Parsed(v, rest)) && v != Float
    ensures t == Compact(v) + rest && Spelled(rest)
  {
    hide ParseMagnitude, Compact;
    if t[0] == MINUS {
      assert t == [0x2D] + t[1..];
      MinusSpelled(t);
      if t[1..] == [] {
        NoMagnitude();
      }
      MagnitudeUnique(t[1..], true, v, rest);
    } else {
      MagnitudeUnique(t, false, v, rest);
    }
  }

  lemma NoMagnitude()
    ensures ParseMagnitude([], true).Err?
  {
  }

  lemma MinusSpelled(t: Str)
    requires t != [] && t[0] == 0x2D && Spelled(t)
    ensures Spelled(t[1..]) && (|t| > 1 ==> t[1] != 0x30)
  {
  }

  lemma LiteralUnique(t: Str, word: Str, meaning: Json, v: Json, rest: Str)
    requires Spelled(t) && word != [] && ParseLiteral(t, word, Ok(meaning)) == Ok(Parsed(v, rest))
    requires forall i :: 0 <= i < |word| ==> word[i] != 0x22
    ensures v == meaning && t == word + rest && Spelled(rest)
  {
    hide Spelled;
    assert forall i :: 0 <= i < |word| ==> t[i] == t[..|word|][i];
    PlainDropped(t, |word|);
    assert t == t[..|word|] + t[|word|..];
  }

  lemma ScalarUnique(t: Str, v: Json, rest: Str)
    requires t != [] && t[0] != 0x22 && Spelled(t) && ParseScalar(t) == Ok(Parsed(v, rest)) && Clean(v)
    ensures t == Compact(v) + rest && Spelled(rest)
  {
    hide ParseLiteral, ParseNumber, Spelled, IntText, Quoted, CompactItems, CompactMembers;
    if t[0] == NULL[0] {
      LiteralUnique(t, NULL, Null, v, rest);
    } else if t[0] == TRUE[0] {
      LiteralUnique(t, TRUE, Bool(true), v, rest);
    } else if t[0] == FALSE[0] {
      LiteralUnique(t, FALSE, Bool(false), v, rest);
    } else if t[0] == NAN[0] || t[0] == INFINITY[0] || (t[0] == MINUS && StartsWith(t[1..], INFINITY)) {
      ConstantsFail(t);
    } else {
      NumberUnique(t, v, rest);
    }
  }

  lemma ConstantsFail(t: Str)
    ensures ParseLiteral(t, NAN, Err(JsonConstant)).Err? && ParseLiteral(t, INFINITY, Err(JsonConstant)).Err?
  {
  }

  /** A spelled text is the one the printer makes of the value read from it. */
  lemma {:induction false} ValueUnique(t: Str, v: Json, rest: Str)
    requires Spelled(t) && ParseValue(t) == Ok(Parsed(v, rest)) && Clean(v)
    ensures t == Compact(v) + rest && Spelled(rest)
    decreases |t|, 1
  {
    hide ParseScalar, ParseObject, ParseArray, Spelled, Compact, ParseStringBody;
    if t[0] == 0x22 {
      InStringAfterQuote(t);
      var s := ParseStringBody(t[1..]).value;
      StringUnique(t[1..], s.value, rest);
      QuotedText(s.value, rest);
      CompactOfString(s.value);
      assert t == [0x22] + t[1..];
    } else if t[0] == OPEN_OBJECT {
      PlainDropped(t, 1);
      SpaceKept(t[1..]);
      ObjectUnique(t[1..], v, rest);
      assert t == [OPEN_OBJECT] + t[1..];
    } else if t[0] == OPEN_ARRAY {
      PlainDropped(t, 1);
      SpaceKept(t[1..]);
      ArrayUnique(t[1..], v, rest);
      assert t == [OPEN_ARRAY] + t[1..];
    } else {
      ScalarUnique(t, v, rest);
    }
  }

  lemma InStringAfterQuote(t: Str)
    requires t != [] && t[0] == 0x22 && Spelled(t)
    ensures InString(t[1..])
  {
  }

  lemma CompactOfString(s: Str)
    ensures Compact(String(s)) == Quoted(s)
  {
  }

  lemma {:induction false} ArrayUnique(t: Str, v: Json, rest: Str)
    requires Spelled(t) && ParseArray(t) == Ok(Parsed(v, rest)) && Clean(v)
    ensures [OPEN_ARRAY] + t == Compact(v) + rest && Spelled(rest)
    decreases |t|, 4
  {
    hide Spelled, ParseElements;
    if t != [] && t[0] == CLOSE_ARRAY {
      PlainDropped(t, 1);
      assert t == [CLOSE_ARRAY] + rest && CompactItems([]) == [];
    } else {
      ElementsUnique(t, v.items, rest);
      WrappedText(OPEN_ARRAY, CompactItems(v.items), CLOSE_ARRAY, rest);
    }
  }

  lemma {:induction false} ElementsUnique(t: Str, items: seq<Json>, rest: Str)
    requires Spelled(t) && ParseElements(t) == Ok(Parsed(items, rest))
    requires forall i :: 0 <= i < |items| ==> Clean(items[i])
    ensures t == CompactItems(items) + ([CLOSE_ARRAY] + rest) && Spelled(rest)
    decreases |t|, 2
  {
    hide Spelled, ParseValue, Compact, Clean;
    var v := ParseValue(t).value;
    assert items[0] == v.value;
    ValueUnique(t, v.value, v.rest);
    SpaceKept(v.rest);
    var u := v.rest;
    PlainDropped(u, 1);
    assert u == [u[0]] + u[1..];
    if u[0] == CLOSE_ARRAY {
      assert items == [v.value];
    } else {
      SpaceKept(u[1..]);
      var more := ParseElements(u[1..]).value.value;
      assert items[1..] == more && more != [];
      ElementsUnique(u[1..], more, rest);
      ListText(COMMA, Compact(items[0]), CompactItems(more), [CLOSE_ARRAY] + rest);
    }
  }

  lemma {:induction false} ObjectUnique(t: Str, v: Json, rest: Str)
    requires Spelled(t) && ParseObject(t) == Ok(Parsed(v, rest)) && Clean(v)
    ensures [OPEN_OBJECT] + t == Compact(v) + rest && Spelled(rest)
    decreases |t|, 4
  {
    hide Spelled, ParseMembers;
    if t != [] && t[0] == CLOSE_OBJECT {
      PlainDropped(t, 1);
      assert t == [CLOSE_OBJECT] + rest && CompactMembers([]) == [];
    } else {
      MembersUnique(t, v.members, rest);
      WrappedText(OPEN_OBJECT, CompactMembers(v.members), CLOSE_OBJECT, rest);
    }
  }

  lemma {:induction false} MembersUnique(t: Str, members: seq<Member>, rest: Str)
    requires Spelled(t) && ParseMembers(t) == Ok(Parsed(members, rest))
    requires forall i :: 0 <= i < |members| ==> NoSurrogate(members[i].key) && Clean(members[i].value)
    ensures t == CompactMembers(members) + ([CLOSE_OBJECT] + rest) && Spelled(rest)
    decreases |t|, 3
  {
    hide Spelled, ParseMember, CompactMember, Clean, NoSurrogate;
    var m := ParseMember(t).value;
    assert members[0] == m.value;
    MemberUnique(t, m.value, m.rest);
    SpaceKept(m.rest);
    var u := m.rest;
    PlainDropped(u, 1);
    assert u == [u[0]] + u[1..];
    if u[0] == CLOSE_OBJECT {
      assert members == [m.value];
    } else {
      SpaceKept(u[1..]);
      var more := ParseMembers(u[1..]).value.value;
      assert members[1..] == more && more != [];
      MembersUnique(u[1..], more, rest);
      ListText(COMMA, CompactMember(members[0]), CompactMembers(more), [CLOSE_OBJECT] + rest);
    }
  }

  lemma {:induction false} MemberUnique(t: Str, m: Member, rest: Str)
    requires Spelled(t) && ParseMember(t) == Ok(Parsed(m, rest)) && NoSurrogate(m.key) && Clean(m.value)
    ensures t == CompactMember(m) + rest && Spelled(rest)
    decreases |t|, 2
  {
    hide Spelled, ParseValue, ParseStringBody, Compact, Clean, NoSurrogate, CompactMember;
    InStringAfterQuote(t);
    var key := ParseStringBody(t[1..]).value;
    StringUnique(t[1..], key.value, key.rest);
    SpaceKept(key.rest);
    var u := key.rest;
    PlainDropped(u, 1);
    SpaceKept(u[1..]);
    ValueUnique(u[1..], m.value, rest);
    MemberText(m, rest);
    assert t == [0x22] + t[1..] && u == [COLON] + u[1..];
  }

  /** Two spelled texts with the same value, in the same member order, are the same text. */
  lemma SpellingIsUnique(a: Str, b: Str, v: Json)
    requires Spelled(a) && Spelled(b) && Loads(a) == Ok(v) && Loads(b) == Ok(v) && Clean(v)
    ensures a == b == Compact(v)
  {
    LoadedIsCompact(a, v);
    LoadedIsCompact(b, v);
  }

  lemma LoadedIsCompact(t: Str, v: Json)
    requires Spelled(t) && Loads(t) == Ok(v) && Clean(v)
    ensures t == Compact(v)
  {
    hide Spelled, ParseValue, Compact, Clean;
    SpaceKept(t);
    var r := ParseValue(t).value;
    ValueUnique(t, v, r.rest);
    SpaceKept(r.rest);
    assert Compact(v) + [] == Compact(v);
  }
}
