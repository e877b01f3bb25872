/** JSON values as the contract files carry them, and the compact printer. */
module Json {
  import opened Text

  /** Python values on their way in or out. An object keeps its members in insertion order, as a dict
      does. A float carries no payload: one float anywhere makes a record noncanonical. Opaque is any
      value json.dumps has no faithful form for, such as a tuple or a set. */
  datatype Json =
    | Null
    | Bool(b: bool)
    | Int(n: int)
    | Float
    | Opaque
    | String(s: Str)
    | Array(items: seq<Json>)
    | Object(members: seq<Member>)

  datatype Member = Member(key: Str, value: Json)

  const QUOTE := 0x22
  const PLUS := 0x2B
  const COMMA := 0x2C
  const MINUS := 0x2D
  const DOT := 0x2E
  const SLASH := 0x2F
  const ZERO := 0x30
  const COLON := 0x3A
  const OPEN_ARRAY := 0x5B
  const BACKSLASH := 0x5C
  const CLOSE_ARRAY := 0x5D
  const LETTER_A := 0x61
  const LETTER_U := 0x75
  const OPEN_OBJECT := 0x7B
  const CLOSE_OBJECT := 0x7D

  const NULL: Str := [0x6E, 0x75, 0x6C, 0x6C]
  const TRUE: Str := [0x74, 0x72, 0x75, 0x65]
  const FALSE: Str := [0x66, 0x61, 0x6C, 0x73, 0x65]

  predicate IsSurrogate(c: CodePoint) {
    0xD800 <= c <= 0xDFFF
  }

  predicate NoSurrogate(s: Str) {
    forall i :: 0 <= i < |s| ==> !IsSurrogate(s[i])
  }

  /** No float, no opaque value and no unpaired surrogate anywhere, object keys included. */
  predicate Clean(v: Json) {
    match v
    case Float => false
    case Opaque => false
    case String(s) => NoSurrogate(s)
    case Array(items) => forall i :: 0 <= i < |items| ==> Clean(items[i])
    case Object(members) =>
      forall i :: 0 <= i < |members| ==> NoSurrogate(members[i].key) && Clean(members[i].value)
    case _ => true
  }

  predicate DistinctKeys(members: seq<Member>) {
    forall i, j :: 0 <= i < j < |members| ==> members[i].key != members[j].key
  }

  /** What every Python dict satisfies, at every level. */
  predicate UniqueKeys(v: Json) {
    match v
    case Array(items) => forall i :: 0 <= i < |items| ==> UniqueKeys(items[i])
    case Object(members) =>
      DistinctKeys(members) && forall i :: 0 <= i < |members| ==> UniqueKeys(members[i].value)
    case _ => true
  }

  predicate SortedMembers(members: seq<Member>) {
    forall i, j :: 0 <= i < j < |members| ==> Less(members[i].key, members[j].key)
  }

  predicate SortedKeys(v: Json) {
    match v
    case Array(items) => forall i :: 0 <= i < |items| ==> SortedKeys(items[i])
    case Object(members) =>
      SortedMembers(members) && forall i :: 0 <= i < |members| ==> SortedKeys(members[i].value)
    case _ => true
  }

  // ---- key sorting ---------------------------------------------------------------------------

  function Insert(m: Member, sorted: seq<Member>): seq<Member> {
    if sorted == [] || Less(m.key, sorted[0].key) then [m] + sorted
    else [sorted[0]] + Insert(m, sorted[1..])
  }

  function SortMembers(members: seq<Member>): seq<Member> {
    if members == [] then [] else Insert(members[0], SortMembers(members[1..]))
  }

  /** The same value with the members of every object in key order. */
  function SortKeys(v: Json): Json
    decreases v, 1
  {
    match v
    case Array(items) => Array(SortItems(items))
    case Object(members) => Object(SortMembers(SortValues(members)))
    case _ => v
  }

  function SortItems(items: seq<Json>): seq<Json>
    decreases items, 0
  {
    if items == [] then [] else [SortKeys(items[0])] + SortItems(items[1..])
  }

  function SortValues(members: seq<Member>): seq<Member>
    decreases members, 0
  {
    if members == [] then []
    else [Member(members[0].key, SortKeys(members[0].value))] + SortValues(members[1..])
  }

  lemma {:induction false} InsertKeeps(m: Member, sorted: seq<Member>)
    requires SortedMembers(sorted)
    requires forall i :: 0 <= i < |sorted| ==> sorted[i].key != m.key
    ensures SortedMembers(Insert(m, sorted))
    ensures multiset(Insert(m, sorted)) == multiset(sorted) + multiset{m}
  {
    hide Less;
    var r := Insert(m, sorted);
    if sorted == [] {
    } else if Less(m.key, sorted[0].key) {
      assert r == [m] + sorted;
      forall j | 0 < j < |r| ensures Less(m.key, r[j].key) {
        if j > 1 {
          LessIsTransitive(m.key, sorted[0].key, sorted[j - 1].key);
        }
      }
    } else {
      LessIsTotal(m.key, sorted[0].key);
      var rest := Insert(m, sorted[1..]);
      InsertKeeps(m, sorted[1..]);
      assert r == [sorted[0]] + rest;
      assert sorted == [sorted[0]] + sorted[1..];
      HeadStaysFirst(sorted, m, rest);
    }
  }

  lemma HeadStaysFirst(sorted: seq<Member>, m: Member, rest: seq<Member>)
    requires sorted != [] && SortedMembers(sorted) && Less(sorted[0].key, m.key)
    requires multiset(rest) == multiset(sorted[1..]) + multiset{m}
    ensures forall j :: 0 <= j < |rest| ==> Less(sorted[0].key, rest[j].key)
  {
    hide Less;
    forall j | 0 <= j < |rest| ensures Less(sorted[0].key, rest[j].key) {
      assert rest[j] in multiset(rest);
      assert rest[j] == m || rest[j] in sorted[1..];
    }
  }

  /** Sorting the members of a dict gives the one ordered arrangement of the same members. */
  lemma {:induction false} SortMembersSorts(members: seq<Member>)
    requires DistinctKeys(members)
    ensures SortedMembers(SortMembers(members))
    ensures multiset(SortMembers(members)) == multiset(members)
  {
    if members != [] {
      var rest := SortMembers(members[1..]);
      SortMembersSorts(members[1..]);
      assert members == [members[0]] + members[1..];
      forall i | 0 <= i < |rest| ensures rest[i].key != members[0].key {
        assert rest[i] in multiset(rest);
        assert rest[i] in members[1..];
      }
      InsertKeeps(members[0], rest);
    }
  }

  lemma {:induction false} SortValuesAt(members: seq<Member>)
    ensures |SortValues(members)| == |members|
    ensures forall i :: 0 <= i < |members| ==>
      SortValues(members)[i] == Member(members[i].key, SortKeys(members[i].value))
  {
    if members != [] {
      SortValuesAt(members[1..]);
    }
  }

  lemma {:induction false} SortItemsAt(items: seq<Json>)
    ensures |SortItems(items)| == |items|
    ensures forall i :: 0 <= i < |items| ==> SortItems(items)[i] == SortKeys(items[i])
  {
    if items != [] {
      SortItemsAt(items[1..]);
    }
  }

  /** Key sorting keeps a record valid, orders every object, and at each object only reorders the
      (recursively sorted) members. */
  lemma {:induction false} SortKeysNormalises(v: Json)
    requires UniqueKeys(v)
    ensures SortedKeys(SortKeys(v)) && UniqueKeys(SortKeys(v))
    ensures Clean(SortKeys(v)) == Clean(v)
    ensures v.Object? ==> SortKeys(v).Object?
    ensures v.Object? ==> multiset(SortKeys(v).members) == multiset(SortValues(v.members))
  {
    match v
    case Array(items) =>
      SortItemsAt(items);
      var out := SortItems(items);
      forall i | 0 <= i < |items|
        ensures SortedKeys(out[i]) && UniqueKeys(out[i]) && Clean(out[i]) == Clean(items[i])
      {
        SortKeysNormalises(items[i]);
      }
    case Object(members) =>
      var mid := SortValues(members);
      SortValuesAt(members);
      forall i | 0 <= i < |members|
        ensures SortedKeys(mid[i].value) && UniqueKeys(mid[i].value)
        ensures Clean(mid[i].value) == Clean(members[i].value)
      {
        SortKeysNormalises(members[i].value);
      }
      assert Clean(Object(mid)) == Clean(v);
      SortMembersNormalises(mid);
    case _ =>
  }

  lemma SortMembersNormalises(mid: seq<Member>)
    requires DistinctKeys(mid)
    requires forall i :: 0 <= i < |mid| ==> SortedKeys(mid[i].value) && UniqueKeys(mid[i].value)
    ensures SortedKeys(Object(SortMembers(mid))) && UniqueKeys(Object(SortMembers(mid)))
    ensures Clean(Object(SortMembers(mid))) == Clean(Object(mid))
    ensures multiset(SortMembers(mid)) == multiset(mid)
  {
    var out := SortMembers(mid);
    SortMembersSorts(mid);
    SortedAreDistinct(out);
    SameMembers(mid, out);
    forall i | 0 <= i < |out| ensures SortedKeys(out[i].value) && UniqueKeys(out[i].value) {
      assert out[i] in mid;
    }
    if Clean(Object(mid)) {
      CleanCarries(mid, out);
    }
    if Clean(Object(out)) {
      CleanCarries(out, mid);
    }
  }

  lemma CleanCarries(a: seq<Member>, b: seq<Member>)
    requires forall m :: m in b ==> m in a
    requires Clean(Object(a))
    ensures Clean(Object(b))
  {
    forall i | 0 <= i < |b| ensures NoSurrogate(b[i].key) && Clean(b[i].value) {
      assert b[i] in a;
    }
  }

  lemma SameMembers(a: seq<Member>, b: seq<Member>)
    requires multiset(a) == multiset(b)
    ensures forall m :: m in a <==> m in b
  {
    forall m ensures m in a <==> m in b {
      assert m in a <==> m in multiset(a);
      assert m in b <==> m in multiset(b);
    }
  }

  lemma SortedAreDistinct(members: seq<Member>)
    requires SortedMembers(members)
    ensures DistinctKeys(members)
  {
    forall i, j | 0 <= i < j < |members| ensures members[i].key != members[j].key {
      LessIsIrreflexive(members[i].key);
    }
  }

  // ---- printing ------------------------------------------------------------------------------

  /** Decimal digits, most significant first. */
  function Decimal(n: nat): Str {
    if n < 10 then [ZERO + n] else Decimal(n / 10) + [ZERO + n % 10]
  }

  function IntText(n: int): Str {
    if n < 0 then [MINUS] + Decimal(-n) else Decimal(n)
  }

  function HexDigit(d: int): CodePoint
    requires 0 <= d < 16
  {
    if d < 10 then ZERO + d else LETTER_A + (d - 10)
  }

  function Hex4(n: int): Str
    requires 0 <= n < 0x1_0000
  {
    [HexDigit(n / 0x1000), HexDigit(n / 0x100 % 16), HexDigit(n / 16 % 16), HexDigit(n % 16)]
  }

  function UnicodeEscape(n: int): Str
    requires 0 <= n < 0x1_0000
  {
    [BACKSLASH, LETTER_U] + Hex4(n)
  }

  /** RFC 8259 section 7 as json.dumps(ensure_ascii=True) writes it: short escapes where they exist,
      printable ASCII as itself, \u and lowercase hex for the rest, surrogate pairs above U+FFFF. */
  function EscapeChar(c: CodePoint): Str {
    if c == QUOTE || c == BACKSLASH then [BACKSLASH, c]
    else if c == 0x08 then [BACKSLASH, 0x62]
    else if c == 0x0C then [BACKSLASH, 0x66]
    else if c == 0x0A then [BACKSLASH, 0x6E]
    else if c == 0x0D then [BACKSLASH, 0x72]
    else if c == 0x09 then [BACKSLASH, 0x74]
    else if 0x20 <= c <= 0x7E then [c]
    else if c < 0x1_0000 then UnicodeEscape(c)
    else UnicodeEscape(0xD800 + (c - 0x1_0000) / 0x400) + UnicodeEscape(0xDC00 + (c - 0x1_0000) % 0x400)
  }

  function Escape(s: Str): Str {
    if s == [] then [] else EscapeChar(s[0]) + Escape(s[1..])
  }

  function Quoted(s: Str): Str {
    [QUOTE] + Escape(s) + [QUOTE]
  }

  /** Compact text in member order. Floats and opaque values print as nothing; no caller
      lets one through. */
  function Compact(v: Json): Str
    decreases v, 1
  {
    match v
    case Null => NULL
    case Bool(b) => if b then TRUE else FALSE
    case Int(n) => IntText(n)
    case Float => []
    case Opaque => []
    case String(s) => Quoted(s)
    case Array(items) => [OPEN_ARRAY] + CompactItems(items) + [CLOSE_ARRAY]
    case Object(members) => [OPEN_OBJECT] + CompactMembers(members) + [CLOSE_OBJECT]
  }

  function CompactItems(items: seq<Json>): Str
    decreases items, 0
  {
    if items == [] then []
    else if |items| == 1 then Compact(items[0])
    else Compact(items[0]) + [COMMA] + CompactItems(items[1..])
  }

  function CompactMembers(members: seq<Member>): Str
    decreases members, 0
  {
    if members == [] then []
    else if |members| == 1 then CompactMember(members[0])
    else CompactMember(members[0]) + [COMMA] + CompactMembers(members[1..])
  }

  function CompactMember(m: Member): Str
    decreases m, 2
  {
    Quoted(m.key) + [COLON] + Compact(m.value)
  }

  /** json.dumps(value, sort_keys=True, separators=(",", ":"), ensure_ascii=True). */
  function Dumps(v: Json): Str {
    Compact(SortKeys(v))
  }

  predicate Printable(s: Str) {
    forall i :: 0 <= i < |s| ==> 0x20 <= s[i] <= 0x7E
  }

  lemma {:induction false} DecimalIsPrintable(n: nat)
    ensures Printable(Decimal(n))
  {
    if n >= 10 {
      DecimalIsPrintable(n / 10);
    }
  }

  lemma {:induction false} EscapeIsPrintable(s: Str)
    ensures Printable(Escape(s))
  {
    if s != [] {
      EscapeIsPrintable(s[1..]);
      assert Printable(EscapeChar(s[0]));
    }
  }

  /** Every printed value is printable ASCII: encoding it as ASCII never fails and it holds no line
      break. */
  lemma {:induction false} CompactIsPrintable(v: Json)
    ensures Printable(Compact(v))
    decreases v, 1
  {
    match v
    case Int(n) => DecimalIsPrintable(if n < 0 then -n else n);
    case String(s) => EscapeIsPrintable(s);
    case Array(items) => CompactItemsArePrintable(items);
    case Object(members) => CompactMembersArePrintable(members);
    case _ =>
  }

  lemma {:induction false} CompactItemsArePrintable(items: seq<Json>)
    ensures Printable(CompactItems(items))
    decreases items, 0
  {
    if items != [] {
      CompactIsPrintable(items[0]);
      CompactItemsArePrintable(items[1..]);
    }
  }

  lemma {:induction false} CompactMembersArePrintable(members: seq<Member>)
    ensures Printable(CompactMembers(members))
    decreases members, 0
  {
    if members != [] {
      EscapeIsPrintable(members[0].key);
      CompactIsPrintable(members[0].value);
      CompactMembersArePrintable(members[1..]);
      assert Printable(CompactMember(members[0]));
    }
  }
}
