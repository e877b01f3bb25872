/** The JSON reader: RFC 8259 sections 2 to 7 with the strictness settings the contract parser uses.
    Each function takes the remaining text and gives back what it read and what is left. */
module Scanner {
  import opened Text
  import opened Outcomes
  import opened Json

  datatype Error =
    | InvalidLimit
    | ByteOrderMark
    | CarriageReturn
    | NoFinalLineFeed
    | BlankLine
    | TooManyRecords
    | InvalidUtf8
    | InvalidJson
    | JsonConstant
    | DuplicateKey
    | NotAnObject
    | FloatValue
    | NotEncodable
    | LoneSurrogate
    | NotCanonical

  datatype Parsed<+T> = Parsed(value: T, rest: Str)

  type Reading<+T> = Result<Parsed<T>, Error>

  const NAN: Str := [0x4E, 0x61, 0x4E]
  const INFINITY: Str := [0x49, 0x6E, 0x66, 0x69, 0x6E, 0x69, 0x74, 0x79]

  predicate IsSpace(c: CodePoint) {
    c == 0x20 || c == 0x09 || c == 0x0A || c == 0x0D
  }

  predicate IsDigit(c: CodePoint) {
    ZERO <= c <= ZERO + 9
  }

  predicate IsHigh(c: CodePoint) {
    0xD800 <= c <= 0xDBFF
  }

  predicate IsLow(c: CodePoint) {
    0xDC00 <= c <= 0xDFFF
  }

  function SkipSpace(t: Str): (r: Str)
    ensures |r| <= |t|
  {
    if t != [] && IsSpace(t[0]) then SkipSpace(t[1..]) else t
  }

  // ---- numbers -------------------------------------------------------------------------------

  /** How many digits the text starts with. */
  function DigitRun(t: Str): (k: nat)
    ensures k <= |t|
    ensures forall i :: 0 <= i < k ==> IsDigit(t[i])
    ensures k == |t| || !IsDigit(t[k])
  {
    if t == [] || !IsDigit(t[0]) then 0 else 1 + DigitRun(t[1..])
  }

  function DigitsValue(ds: Str): int {
    if ds == [] then 0 else DigitsValue(ds[..|ds| - 1]) * 10 + (ds[|ds| - 1] - ZERO)
  }

  /** Length of a fraction part, or 0 when there is none. */
  function FractionLength(t: Str): (k: nat)
    ensures k <= |t|
  {
    if t != [] && t[0] == DOT && DigitRun(t[1..]) > 0 then 1 + DigitRun(t[1..]) else 0
  }

  /** Length of an exponent part, or 0 when there is none. */
  function ExponentLength(t: Str): (k: nat)
    ensures k <= |t|
  {
    if t == [] || (t[0] != 0x45 && t[0] != 0x65) then 0
    else
      var sign := if |t| > 1 && (t[1] == PLUS || t[1] == MINUS) then 1 else 0;
      var digits := DigitRun(t[1 + sign..]);
      if digits == 0 then 0 else 1 + sign + digits
  }

  function ParseNumber(t: Str): (r: Reading<Json>)
    ensures r.Ok? ==> |r.value.rest| < |t|
    ensures r.Ok? ==> r.value.value.Int? || r.value.value.Float?
  {
    if t != [] && t[0] == MINUS then ParseMagnitude(t[1..], true) else ParseMagnitude(t, false)
  }

  /** A number after its sign: one zero or digits without a leading zero; a fraction or an exponent
      makes it a float. */
  function ParseMagnitude(t: Str, negative: bool): (r: Reading<Json>)
    ensures r.Ok? ==> |r.value.rest| < |t|
    ensures r.Ok? ==> r.value.value.Int? || r.value.value.Float?
  {
    if t == [] || !IsDigit(t[0]) then Err(InvalidJson)
    else
      var k := if t[0] == ZERO then 1 else DigitRun(t);
      Ok(FinishNumber(DigitsValue(t[..k]), t[k..], negative))
  }

  function FinishNumber(n: int, t: Str, negative: bool): (r: Parsed<Json>)
    ensures |r.rest| <= |t|
    ensures r.value.Int? || r.value.Float?
  {
    var fraction := FractionLength(t);
    var exponent := ExponentLength(t[fraction..]);
    var value := if fraction + exponent > 0 then Float else if negative then Int(-n) else Int(n);
    Parsed(value, t[fraction + exponent..])
  }

  // ---- strings -------------------------------------------------------------------------------

  function HexValue(c: CodePoint): (r: Option<int>)
    ensures r.Some? ==> 0 <= r.value < 16
  {
    if IsDigit(c) then Some(c - ZERO)
    else if 0x61 <= c <= 0x66 then Some(c - 0x61 + 10)
    else if 0x41 <= c <= 0x46 then Some(c - 0x41 + 10)
    else None
  }

  function ParseHex4(t: Str): (r: Reading<CodePoint>)
    ensures r.Ok? ==> |r.value.rest| < |t| && r.value.value < 0x1_0000
  {
    if |t| < 4 then Err(InvalidJson)
    else
      match (HexValue(t[0]), HexValue(t[1]), HexValue(t[2]), HexValue(t[3]))
      case (Some(a), Some(b), Some(c), Some(d)) =>
        Ok(Parsed(a * 0x1000 + b * 0x100 + c * 16 + d, t[4..]))
      case _ => Err(InvalidJson)
  }

  /** What follows "\u": four hex digits, and a second escape when the two make a surrogate pair. */
  function ParseUnicodeEscape(t: Str): (r: Reading<CodePoint>)
    ensures r.Ok? ==> |r.value.rest| < |t|
  {
    var first :- ParseHex4(t);
    var (hi, rest) := (first.value, first.rest);
    if IsHigh(hi) && |rest| >= 2 && rest[0] == BACKSLASH && rest[1] == LETTER_U then
      var second :- ParseHex4(rest[2..]);
      if IsLow(second.value) then
        Ok(Parsed(0x1_0000 + (hi - 0xD800) * 0x400 + (second.value - 0xDC00), second.rest))
      else
        Ok(first)
    else
      Ok(first)
  }

  function ShortEscape(c: CodePoint): Option<CodePoint> {
    if c == QUOTE || c == BACKSLASH || c == SLASH then Some(c)
    else if c == 0x62 then Some(0x08)
    else if c == 0x66 then Some(0x0C)
    else if c == 0x6E then Some(0x0A)
    else if c == 0x72 then Some(0x0D)
    else if c == 0x74 then Some(0x09)
    else None
  }

  /** One character of a string body, escaped or not. */
  function ParseChar(t: Str): (r: Reading<CodePoint>)
    ensures r.Ok? ==> |r.value.rest| < |t|
  {
    if t == [] || t[0] < 0x20 then Err(InvalidJson)
    else if t[0] != BACKSLASH then Ok(Parsed(t[0], t[1..]))
    else if |t| == 1 then Err(InvalidJson)
    else if t[1] == LETTER_U then ParseUnicodeEscape(t[2..])
    else
      match ShortEscape(t[1])
      case Some(c) => Ok(Parsed(c, t[2..]))
      case None => Err(InvalidJson)
  }

  /** The rest of a string after its opening quote, closing quote included. */
  function ParseStringBody(t: Str): (r: Reading<Str>)
    ensures r.Ok? ==> |r.value.rest| < |t|
    decreases |t|
  {
    if t != [] && t[0] == QUOTE then Ok(Parsed([], t[1..]))
    else
      var c :- ParseChar(t);
      var more :- ParseStringBody(c.rest);
      Ok(Parsed([c.value] + more.value, more.rest))
  }

  // ---- values --------------------------------------------------------------------------------

  predicate StartsWith(t: Str, word: Str) {
    |word| <= |t| && t[..|word|] == word
  }

  function ParseLiteral(t: Str, word: Str, meaning: Result<Json, Error>): (r: Reading<Json>)
    requires word != []
    ensures r.Ok? ==> |r.value.rest| < |t| && meaning == Ok(r.value.value)
  {
    if !StartsWith(t, word) then Err(InvalidJson)
    else
      var v :- meaning;
      Ok(Parsed(v, t[|word|..]))
  }

  /** A word or a number. */
  function ParseScalar(t: Str): (r: Reading<Json>)
    requires t != []
    ensures r.Ok? ==> |r.value.rest| < |t|
    ensures r.Ok? ==> UniqueKeys(r.value.value)
  {
    if t[0] == NULL[0] then ParseLiteral(t, NULL, Ok(Null))
    else if t[0] == TRUE[0] then ParseLiteral(t, TRUE, Ok(Bool(true)))
    else if t[0] == FALSE[0] then ParseLiteral(t, FALSE, Ok(Bool(false)))
    else if t[0] == NAN[0] then ParseLiteral(t, NAN, Err(JsonConstant))
    else if t[0] == INFINITY[0] then ParseLiteral(t, INFINITY, Err(JsonConstant))
    else if t[0] == MINUS && StartsWith(t[1..], INFINITY) then Err(JsonConstant)
    else ParseNumber(t)
  }

  function ParseValue(t: Str): (r: Reading<Json>)
    ensures r.Ok? ==> |r.value.rest| < |t|
    ensures r.Ok? ==> UniqueKeys(r.value.value)
    decreases |t|, 1
  {
    if t == [] then Err(InvalidJson)
    else if t[0] == QUOTE then
      var s :- ParseStringBody(t[1..]);
      Ok(Parsed(String(s.value), s.rest))
    else if t[0] == OPEN_OBJECT then ParseObject(SkipSpace(t[1..]))
    else if t[0] == OPEN_ARRAY then ParseArray(SkipSpace(t[1..]))
    else ParseScalar(t)
  }

  /** An object after its brace; repeated keys are refused once it closes. */
  function ParseObject(t: Str): (r: Reading<Json>)
    ensures r.Ok? ==> |r.value.rest| < |t|
    ensures r.Ok? ==> UniqueKeys(r.value.value)
    decreases |t|, 4
  {
    if t != [] && t[0] == CLOSE_OBJECT then Ok(Parsed(Object([]), t[1..]))
    else
      var ms :- ParseMembers(t);
      if DistinctKeys(ms.value) then Ok(Parsed(Object(ms.value), ms.rest)) else Err(DuplicateKey)
  }

  function ParseArray(t: Str): (r: Reading<Json>)
    ensures r.Ok? ==> |r.value.rest| < |t|
    ensures r.Ok? ==> UniqueKeys(r.value.value)
    decreases |t|, 4
  {
    if t != [] && t[0] == CLOSE_ARRAY then Ok(Parsed(Array([]), t[1..]))
    else
      var vs :- ParseElements(t);
      Ok(Parsed(Array(vs.value), vs.rest))
  }

  function ParseElements(t: Str): (r: Reading<seq<Json>>)
    ensures r.Ok? ==> |r.value.rest| < |t|
    ensures r.Ok? ==> forall i :: 0 <= i < |r.value.value| ==> UniqueKeys(r.value.value[i])
    decreases |t|, 2
  {
    var v :- ParseValue(t);
    var u := SkipSpace(v.rest);
    if u == [] then Err(InvalidJson)
    else if u[0] == CLOSE_ARRAY then Ok(Parsed([v.value], u[1..]))
    else if u[0] != COMMA then Err(InvalidJson)
    else
      var more :- ParseElements(SkipSpace(u[1..]));
      Ok(Parsed([v.value] + more.value, more.rest))
  }

  function ParseMember(t: Str): (r: Reading<Member>)
    ensures r.Ok? ==> |r.value.rest| < |t|
    ensures r.Ok? ==> UniqueKeys(r.value.value.value)
    decreases |t|, 2
  {
    if t == [] || t[0] != QUOTE then Err(InvalidJson)
    else
      var key :- ParseStringBody(t[1..]);
      var u := SkipSpace(key.rest);
      if u == [] || u[0] != COLON then Err(InvalidJson)
      else
        var v :- ParseValue(SkipSpace(u[1..]));
        Ok(Parsed(Member(key.value, v.value), v.rest))
  }

  function ParseMembers(t: Str): (r: Reading<seq<Member>>)
    ensures r.Ok? ==> |r.value.rest| < |t|
    ensures r.Ok? ==> forall i :: 0 <= i < |r.value.value| ==> UniqueKeys(r.value.value[i].value)
    decreases |t|, 3
  {
    var m :- ParseMember(t);
    var u := SkipSpace(m.rest);
    if u == [] then Err(InvalidJson)
    else if u[0] == CLOSE_OBJECT then Ok(Parsed([m.value], u[1..]))
    else if u[0] != COMMA then Err(InvalidJson)
    else
      var more :- ParseMembers(SkipSpace(u[1..]));
      Ok(Parsed([m.value] + more.value, more.rest))
  }

  /** A whole text holding one value, with space allowed around it. */
  function Loads(t: Str): (r: Result<Json, Error>)
    ensures r.Ok? ==> UniqueKeys(r.value)
  {
    var v :- ParseValue(SkipSpace(t));
    if SkipSpace(v.rest) == [] then Ok(v.value) else Err(InvalidJson)
  }

  // ---- reading back what the printer wrote ---------------------------------------------------

  lemma {:induction false} DecimalReads(n: nat)
    ensures forall i :: 0 <= i < |Decimal(n)| ==> IsDigit(Decimal(n)[i])
    ensures DigitsValue(Decimal(n)) == n
    ensures |Decimal(n)| >= 1
    ensures Decimal(n)[0] == ZERO ==> n == 0 && |Decimal(n)| == 1
  {
    if n >= 10 {
      DecimalReads(n / 10);
      assert Decimal(n)[..|Decimal(n)| - 1] == Decimal(n / 10);
    }
  }

  /** What can follow a value inside an array or object, or at the end of the text. */
  predicate Delimited(rest: Str) {
    rest == [] || rest[0] == COMMA || rest[0] == CLOSE_ARRAY || rest[0] == CLOSE_OBJECT
  }

  lemma {:induction false} DigitRunStops(ds: Str, rest: Str)
    requires forall i :: 0 <= i < |ds| ==> IsDigit(ds[i])
    requires Delimited(rest)
    ensures DigitRun(ds + rest) == |ds|
  {
    var t := ds + rest;
    assert forall i :: 0 <= i < |ds| ==> IsDigit(t[i]);
    assert |t| > |ds| ==> !IsDigit(t[|ds|]);
  }

  lemma NoTail(n: int, rest: Str, negative: bool)
    requires Delimited(rest)
    ensures FinishNumber(n, rest, negative) == Parsed(Int(if negative then -n else n), rest)
  {
    assert rest[0..] == rest;
  }

  lemma DigitsRead(ds: Str, negative: bool, rest: Str)
    requires forall i :: 0 <= i < |ds| ==> IsDigit(ds[i])
    requires ds != [] && (ds[0] == ZERO ==> |ds| == 1)
    requires Delimited(rest)
    ensures ParseMagnitude(ds + rest, negative)
         == Ok(Parsed(Int(if negative then -DigitsValue(ds) else DigitsValue(ds)), rest))
  {
    hide FinishNumber, DigitRun, DigitsValue;
    var t := ds + rest;
    var k := |ds|;
    assert t[0] == ds[0];
    DigitRunStops(ds, rest);
    assert t[..k] == ds && t[k..] == rest;
    NoTail(DigitsValue(ds), rest, negative);
  }

  lemma UnsignedReads(ds: Str, rest: Str)
    requires ds != [] && IsDigit(ds[0])
    ensures ParseValue(ds + rest) == ParseMagnitude(ds + rest, false)
  {
    hide ParseStringBody, ParseObject, ParseArray, ParseMagnitude, ParseLiteral, SkipSpace;
    assert (ds + rest)[0] == ds[0];
  }

  lemma SignedReads(ds: Str, rest: Str)
    requires ds != [] && IsDigit(ds[0])
    ensures ParseValue([MINUS] + ds + rest) == ParseMagnitude(ds + rest, true)
  {
    hide ParseStringBody, ParseObject, ParseArray, ParseMagnitude, ParseLiteral, SkipSpace;
    Assoc([MINUS], ds, rest);
    Cons(MINUS, ds + rest);
    assert (ds + rest)[0] == ds[0];
  }

  lemma NonnegativeReads(n: int, rest: Str)
    requires n >= 0 && Delimited(rest)
    ensures ParseValue(IntText(n) + rest) == Ok(Parsed(Int(n), rest))
  {
    hide ParseValue, ParseMagnitude;
    DecimalReads(n);
    UnsignedReads(Decimal(n), rest);
    DigitsRead(Decimal(n), false, rest);
  }

  lemma NegativeReads(n: int, rest: Str)
    requires n < 0 && Delimited(rest)
    ensures ParseValue(IntText(n) + rest) == Ok(Parsed(Int(n), rest))
  {
    hide ParseValue, ParseMagnitude;
    DecimalReads(-n);
    SignedReads(Decimal(-n), rest);
    DigitsRead(Decimal(-n), true, rest);
  }

  lemma IntReads(n: int, rest: Str)
    requires Delimited(rest)
    ensures ParseValue(IntText(n) + rest) == Ok(Parsed(Int(n), rest))
  {
    hide *;
    if n < 0 {
      NegativeReads(n, rest);
    } else {
      NonnegativeReads(n, rest);
    }
  }

  lemma HexReads(d: int)
    requires 0 <= d < 16
    ensures HexValue(HexDigit(d)) == Some(d)
  {
  }

  lemma Hex4Digits(n: int)
    requires 0 <= n < 0x1_0000
    ensures n == n / 0x1000 * 0x1000 + n / 0x100 % 16 * 0x100 + n / 16 % 16 * 16 + n % 16
  {
    assert n / 16 == n / 0x100 * 16 + n / 16 % 16;
    assert n / 0x100 == n / 0x1000 * 16 + n / 0x100 % 16;
  }

  lemma Hex4Reads(n: int, rest: Str)
    requires 0 <= n < 0x1_0000
    ensures ParseHex4(Hex4(n) + rest) == Ok(Parsed(n, rest))
  {
    Split(Hex4(n), rest);
    HexReads(n / 0x1000);
    HexReads(n / 0x100 % 16);
    HexReads(n / 16 % 16);
    HexReads(n % 16);
    Hex4Digits(n);
  }

  lemma EscapeReads(n: int, rest: Str)
    requires 0 <= n < 0x1_0000
    ensures ParseChar(UnicodeEscape(n) + rest) == ParseUnicodeEscape(Hex4(n) + rest)
    ensures (UnicodeEscape(n) + rest)[0] == BACKSLASH && (UnicodeEscape(n) + rest)[1] == LETTER_U
    ensures (UnicodeEscape(n) + rest)[2..] == Hex4(n) + rest
  {
    Assoc([BACKSLASH, LETTER_U], Hex4(n), rest);
    Split([BACKSLASH, LETTER_U], Hex4(n) + rest);
  }

  lemma JoinReads(hi: CodePoint, lo: CodePoint, rest: Str)
    requires IsHigh(hi) && IsLow(lo)
    ensures ParseUnicodeEscape(Hex4(hi) + (UnicodeEscape(lo) + rest))
         == Ok(Parsed(0x1_0000 + (hi - 0xD800) * 0x400 + (lo - 0xDC00), rest))
  {
    EscapeReads(lo, rest);
    Hex4Reads(hi, UnicodeEscape(lo) + rest);
    Hex4Reads(lo, rest);
  }

  lemma PairReads(c: CodePoint, hi: CodePoint, lo: CodePoint, rest: Str)
    requires IsHigh(hi) && IsLow(lo) && c == 0x1_0000 + (hi - 0xD800) * 0x400 + (lo - 0xDC00)
    ensures ParseChar(UnicodeEscape(hi) + UnicodeEscape(lo) + rest) == Ok(Parsed(c, rest))
    ensures (UnicodeEscape(hi) + UnicodeEscape(lo) + rest)[0] == BACKSLASH
  {
    Assoc(UnicodeEscape(hi), UnicodeEscape(lo), rest);
    EscapeReads(hi, UnicodeEscape(lo) + rest);
    JoinReads(hi, lo, rest);
  }

  lemma ShortReads(c: CodePoint, rest: Str)
    requires c < 0x80 && |EscapeChar(c)| <= 2
    ensures ParseChar(EscapeChar(c) + rest) == Ok(Parsed(c, rest))
    ensures (EscapeChar(c) + rest)[0] != QUOTE
  {
    Split(EscapeChar(c), rest);
  }

  lemma LongReads(c: CodePoint, rest: Str)
    requires c < 0x1_0000 && !IsSurrogate(c)
    ensures ParseChar(UnicodeEscape(c) + rest) == Ok(Parsed(c, rest))
    ensures (UnicodeEscape(c) + rest)[0] != QUOTE
  {
    EscapeReads(c, rest);
    Hex4Reads(c, rest);
  }

  /** An escaped character is read back, whatever follows it. */
  lemma CharReads(c: CodePoint, rest: Str)
    requires !IsSurrogate(c)
    ensures ParseChar(EscapeChar(c) + rest) == Ok(Parsed(c, rest))
    ensures (EscapeChar(c) + rest)[0] != QUOTE
  {
    hide ParseChar, UnicodeEscape;
    if c >= 0x1_0000 {
      PairReads(c, 0xD800 + (c - 0x1_0000) / 0x400, 0xDC00 + (c - 0x1_0000) % 0x400, rest);
    } else if c < 0x80 && |EscapeChar(c)| <= 2 {
      ShortReads(c, rest);
    } else {
      LongReads(c, rest);
    }
  }

  lemma {:induction false} StringReads(s: Str, rest: Str)
    requires NoSurrogate(s)
    ensures ParseStringBody(Escape(s) + ([QUOTE] + rest)) == Ok(Parsed(s, rest))
  {
    hide ParseChar, EscapeChar;
    if s == [] {
      assert [] + ([QUOTE] + rest) == [QUOTE] + rest;
      Cons(QUOTE, rest);
    } else {
      var tail := Escape(s[1..]) + ([QUOTE] + rest);
      Assoc(EscapeChar(s[0]), Escape(s[1..]), [QUOTE] + rest);
      CharReads(s[0], tail);
      StringReads(s[1..], rest);
      assert s == [s[0]] + s[1..];
    }
  }

  lemma QuotedText(s: Str, rest: Str)
    ensures Quoted(s) + rest == [QUOTE] + (Escape(s) + ([QUOTE] + rest))
  {
  }

  lemma QuotedReads(s: Str, rest: Str)
    requires NoSurrogate(s)
    ensures ParseValue(Quoted(s) + rest) == Ok(Parsed(String(s), rest))
  {
    QuotedText(s, rest);
    Cons(QUOTE, Escape(s) + ([QUOTE] + rest));
    StringReads(s, rest);
  }

  lemma LiteralReads(word: Str, meaning: Json, rest: Str)
    requires word != []
    ensures ParseLiteral(word + rest, word, Ok(meaning)) == Ok(Parsed(meaning, rest))
  {
    Split(word, rest);
  }

  /** How a printed value starts: never with space or a closing bracket. */
  lemma CompactStarts(v: Json, rest: Str)
    requires Clean(v)
    ensures var t := Compact(v) + rest;
      t != [] && !IsSpace(t[0]) && t[0] != CLOSE_ARRAY && t[0] != CLOSE_OBJECT
  {
    match v
    case Int(n) => DecimalReads(if n < 0 then -n else n);
    case _ =>
  }

  lemma EmptyReads(rest: Str)
    ensures ParseArray([CLOSE_ARRAY] + rest) == Ok(Parsed(Array([]), rest))
    ensures ParseObject([CLOSE_OBJECT] + rest) == Ok(Parsed(Object([]), rest))
  {
    Cons(CLOSE_ARRAY, rest);
    Cons(CLOSE_OBJECT, rest);
  }

  lemma BracketsRead(u: Str)
    requires u != [] && !IsSpace(u[0])
    ensures ParseValue([OPEN_ARRAY] + u) == ParseArray(u)
    ensures ParseValue([OPEN_OBJECT] + u) == ParseObject(u)
  {
    Cons(OPEN_ARRAY, u);
    Cons(OPEN_OBJECT, u);
  }

  /** The reader is the inverse of the printer on every clean value with unique keys. */
  lemma {:induction false} ValueReads(v: Json, rest: Str)
    requires Clean(v) && UniqueKeys(v) && Delimited(rest)
    ensures ParseValue(Compact(v) + rest) == Ok(Parsed(v, rest))
    decreases v, 1
  {
    match v
    case Null => LiteralReads(NULL, v, rest);
    case Bool(b) => LiteralReads(if b then TRUE else FALSE, v, rest);
    case Int(n) => IntReads(n, rest);
    case String(s) => QuotedReads(s, rest);
    case Array(items) => ArrayReads(items, rest);
    case Object(members) => ObjectReads(members, rest);
  }

  lemma {:induction false} ArrayReads(items: seq<Json>, rest: Str)
    requires Clean(Array(items)) && UniqueKeys(Array(items))
    ensures ParseValue(Compact(Array(items)) + rest) == Ok(Parsed(Array(items), rest))
    decreases items, 1
  {
    var tail := [CLOSE_ARRAY] + rest;
    hide ParseValue, ParseElements;
    var u := CompactItems(items) + tail;
    WrappedText(OPEN_ARRAY, CompactItems(items), CLOSE_ARRAY, rest);
    if items == [] {
      EmptyReads(rest);
      assert u == tail;
    } else {
      ElementsRead(items, rest);
    }
    BracketsRead(u);
  }

  lemma {:induction false} ObjectReads(members: seq<Member>, rest: Str)
    requires Clean(Object(members)) && UniqueKeys(Object(members))
    ensures ParseValue(Compact(Object(members)) + rest) == Ok(Parsed(Object(members), rest))
    decreases members, 1
  {
    var tail := [CLOSE_OBJECT] + rest;
    hide ParseValue, ParseMembers;
    var u := CompactMembers(members) + tail;
    WrappedText(OPEN_OBJECT, CompactMembers(members), CLOSE_OBJECT, rest);
    if members == [] {
      EmptyReads(rest);
      assert u == tail;
    } else {
      MembersRead(members, rest);
    }
    BracketsRead(u);
  }

  lemma WrappedText(open: CodePoint, text: Str, close: CodePoint, rest: Str)
    ensures [open] + text + [close] + rest == [open] + (text + ([close] + rest))
  {
  }

  lemma ListText(separator: CodePoint, first: Str, more: Str, tail: Str)
    ensures first + [separator] + more + tail == first + ([separator] + (more + tail))
  {
  }

  lemma {:induction false} ElementsRead(items: seq<Json>, rest: Str)
    requires items != []
    requires forall i :: 0 <= i < |items| ==> Clean(items[i]) && UniqueKeys(items[i])
    ensures var t := CompactItems(items) + ([CLOSE_ARRAY] + rest);
      t != [] && !IsSpace(t[0]) && t[0] != CLOSE_ARRAY
      && ParseElements(t) == Ok(Parsed(items, rest))
    decreases items, 0
  {
    hide Compact, ParseElements, ParseValue, Clean, UniqueKeys;
    var tail := [CLOSE_ARRAY] + rest;
    if |items| == 1 {
      CompactStarts(items[0], tail);
      ValueReads(items[0], tail);
      LastElementReads(Compact(items[0]) + tail, items[0], rest);
      assert items == [items[0]];
    } else {
      var more := CompactItems(items[1..]) + tail;
      ListText(COMMA, Compact(items[0]), CompactItems(items[1..]), tail);
      CompactStarts(items[0], [COMMA] + more);
      ValueReads(items[0], [COMMA] + more);
      ElementsRead(items[1..], rest);
      NextElementsRead(Compact(items[0]) + ([COMMA] + more), items[0], more, items[1..], rest);
      assert items == [items[0]] + items[1..];
    }
  }

  lemma LastElementReads(t: Str, v: Json, rest: Str)
    requires ParseValue(t) == Ok(Parsed(v, [CLOSE_ARRAY] + rest))
    ensures ParseElements(t) == Ok(Parsed([v], rest))
  {
    hide ParseValue;
    Cons(CLOSE_ARRAY, rest);
  }

  lemma NextElementsRead(t: Str, v: Json, more: Str, vs: seq<Json>, rest: Str)
    requires ParseValue(t) == Ok(Parsed(v, [COMMA] + more))
    requires more != [] && !IsSpace(more[0]) && ParseElements(more) == Ok(Parsed(vs, rest))
    ensures ParseElements(t) == Ok(Parsed([v] + vs, rest))
  {
    hide ParseValue;
    Cons(COMMA, more);
  }

  lemma {:induction false} MemberReads(m: Member, rest: Str)
    requires NoSurrogate(m.key) && Clean(m.value) && UniqueKeys(m.value) && Delimited(rest)
    ensures var t := CompactMember(m) + rest;
      t != [] && t[0] == QUOTE && ParseMember(t) == Ok(Parsed(m, rest))
    decreases m, 2
  {
    hide Compact, CompactMember, Escape, ParseStringBody, ParseMember, ParseValue;
    var value := Compact(m.value) + rest;
    var body := Escape(m.key) + ([QUOTE] + ([COLON] + value));
    MemberText(m, rest);
    Cons(QUOTE, body);
    StringReads(m.key, [COLON] + value);
    CompactStarts(m.value, rest);
    ValueReads(m.value, rest);
    ColonReads([QUOTE] + body, m, value, rest);
  }

  lemma MemberText(m: Member, rest: Str)
    ensures CompactMember(m) + rest
         == [QUOTE] + (Escape(m.key) + ([QUOTE] + ([COLON] + (Compact(m.value) + rest))))
  {
    hide Compact, Escape;
    QuotedText(m.key, [COLON] + (Compact(m.value) + rest));
    ListText(COLON, Quoted(m.key), Compact(m.value), rest);
  }

  lemma ColonReads(t: Str, m: Member, value: Str, rest: Str)
    requires t != [] && t[0] == QUOTE
    requires ParseStringBody(t[1..]) == Ok(Parsed(m.key, [COLON] + value))
    requires value != [] && !IsSpace(value[0])
    requires ParseValue(value) == Ok(Parsed(m.value, rest))
    ensures ParseMember(t) == Ok(Parsed(m, rest))
  {
    hide ParseStringBody, ParseValue;
    Cons(COLON, value);
  }

  lemma LastMemberReads(t: Str, m: Member, rest: Str)
    requires ParseMember(t) == Ok(Parsed(m, [CLOSE_OBJECT] + rest))
    ensures ParseMembers(t) == Ok(Parsed([m], rest))
  {
    hide ParseMember;
    Cons(CLOSE_OBJECT, rest);
  }

  lemma NextMembersRead(t: Str, m: Member, more: Str, ms: seq<Member>, rest: Str)
    requires ParseMember(t) == Ok(Parsed(m, [COMMA] + more))
    requires more != [] && !IsSpace(more[0]) && ParseMembers(more) == Ok(Parsed(ms, rest))
    ensures ParseMembers(t) == Ok(Parsed([m] + ms, rest))
  {
    hide ParseMember;
    Cons(COMMA, more);
  }

  lemma {:induction false} MembersRead(members: seq<Member>, rest: Str)
    requires members != []
    requires forall i :: 0 <= i < |members| ==>
      NoSurrogate(members[i].key) && Clean(members[i].value) && UniqueKeys(members[i].value)
    ensures var t := CompactMembers(members) + ([CLOSE_OBJECT] + rest);
      t != [] && t[0] == QUOTE && ParseMembers(t) == Ok(Parsed(members, rest))
    decreases members, 0
  {
    hide CompactMember, ParseMembers, ParseMember, Clean, UniqueKeys;
    var m, tail := members[0], [CLOSE_OBJECT] + rest;
    if |members| == 1 {
      MemberReads(m, tail);
      LastMemberReads(CompactMember(m) + tail, m, rest);
      assert members == [m];
    } else {
      var more := CompactMembers(members[1..]) + tail;
      ListText(COMMA, CompactMember(m), CompactMembers(members[1..]), tail);
      MemberReads(m, [COMMA] + more);
      MembersRead(members[1..], rest);
      NextMembersRead(CompactMember(m) + ([COMMA] + more), m, more, members[1..], rest);
      assert members == [m] + members[1..];
    }
  }

  lemma LoadsInvertsCompact(v: Json)
    requires Clean(v) && UniqueKeys(v)
    ensures Loads(Compact(v)) == Ok(v)
  {
    CompactStarts(v, []);
    assert Compact(v) + [] == Compact(v);
    ValueReads(v, []);
  }
}
