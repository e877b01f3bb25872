/** Canonical JSONL: one compact, key-sorted, ASCII JSON object per line, each line ended by LF. */
module CanonicalJsonl {
  import opened Text
  import opened Outcomes
  import opened Json
  import opened Scanner
  import opened Spelling

  const LF := 0x0A
  const CR := 0x0D
  const BOM: seq<Byte> := [0xEF, 0xBB, 0xBF]

  // ---- UTF-8 and ASCII -----------------------------------------------------------------------

  predicate IsContinuation(b: Byte) {
    0x80 <= b <= 0xBF
  }

  /** Strict UTF-8: no overlong form, no surrogate, nothing above U+10FFFF. */
  function DecodeUtf8(b: seq<Byte>): Option<Str> {
    if b == [] then Some([])
    else if b[0] < 0x80 then Prepend(b[0], DecodeUtf8(b[1..]))
    else if 0xC2 <= b[0] <= 0xDF && |b| >= 2 && IsContinuation(b[1]) then
      Prepend(Bits(b[0], 0xC0) * 0x40 + Bits(b[1], 0x80), DecodeUtf8(b[2..]))
    else if 0xE0 <= b[0] <= 0xEF && |b| >= 3 && IsContinuation(b[1]) && IsContinuation(b[2]) then
      var c := Bits(b[0], 0xE0) * 0x1000 + Bits(b[1], 0x80) * 0x40 + Bits(b[2], 0x80);
      if c < 0x800 || IsSurrogate(c) then None else Prepend(c, DecodeUtf8(b[3..]))
    else if 0xF0 <= b[0] <= 0xF4 && |b| >= 4
            && IsContinuation(b[1]) && IsContinuation(b[2]) && IsContinuation(b[3]) then
      var c := Bits(b[0], 0xF0) * 0x4_0000 + Bits(b[1], 0x80) * 0x1000 + Bits(b[2], 0x80) * 0x40
               + Bits(b[3], 0x80);
      if c < 0x1_0000 || c > 0x10_FFFF then None else Prepend(c, DecodeUtf8(b[4..]))
    else None
  }

  /** The payload bits of a UTF-8 byte under its marker. */
  function Bits(b: Byte, marker: int): int {
    b as int - marker
  }

  function Prepend(c: CodePoint, rest: Option<Str>): Option<Str> {
    match rest
    case Some(s) => Some([c] + s)
    case None => None
  }

  function EncodeAscii(t: Str): Option<seq<Byte>> {
    if forall i :: 0 <= i < |t| ==> t[i] < 0x80 then Some(t) else None
  }

  lemma {:induction false} AsciiDecodesToItself(b: seq<Byte>)
    requires forall i :: 0 <= i < |b| ==> b[i] < 0x80
    ensures DecodeUtf8(b) == Some(b)
  {
    if b != [] {
      AsciiDecodesToItself(b[1..]);
      assert b == [b[0]] + b[1..];
    }
  }

  // ---- the iterative value check -------------------------------------------------------------

  function Weight(v: Json): nat
    decreases v, 1
  {
    match v
    case Array(items) => 1 + TotalWeight(items)
    case Object(members) => 1 + MembersWeight(members)
    case _ => 1
  }

  function TotalWeight(items: seq<Json>): nat
    decreases items, 0
  {
    if items == [] then 0 else Weight(items[0]) + TotalWeight(items[1..])
  }

  function MembersWeight(members: seq<Member>): nat
    decreases members, 0
  {
    if members == [] then 0 else Weight(members[0].value) + MembersWeight(members[1..])
  }

  function Values(members: seq<Member>): (vs: seq<Json>)
    ensures |vs| == |members|
    ensures forall i :: 0 <= i < |members| ==> vs[i] == members[i].value
    ensures TotalWeight(vs) == MembersWeight(members)
  {
    if members == [] then [] else [members[0].value] + Values(members[1..])
  }

  lemma {:induction false} TotalWeightOfConcat(a: seq<Json>, b: seq<Json>)
    ensures TotalWeight(a + b) == TotalWeight(a) + TotalWeight(b)
  {
    if a == [] {
      assert a + b == b;
    } else {
      TotalWeightOfConcat(a[1..], b);
      assert (a + b)[1..] == a[1..] + b;
    }
  }

  lemma PopWeighs(stack: seq<Json>)
    requires stack != []
    ensures TotalWeight(stack) == TotalWeight(stack[..|stack| - 1]) + Weight(stack[|stack| - 1])
  {
    var n := |stack| - 1;
    TotalWeightOfConcat(stack[..n], [stack[n]]);
    assert stack == stack[..n] + [stack[n]];
    assert TotalWeight([stack[n]]) == Weight(stack[n]) + TotalWeight([stack[n]][1..]);
  }

  predicate KeysClean(members: seq<Member>) {
    forall i :: 0 <= i < |members| ==> NoSurrogate(members[i].key)
  }

  /** The first defect met when values are taken off the end of a stack and their children pushed. */
  function FirstDefect(stack: seq<Json>): Option<Error>
    decreases TotalWeight(stack)
  {
    if stack == [] then None
    else
      PopWeighs(stack);
      var rest := stack[..|stack| - 1];
      match stack[|stack| - 1]
      case Float => Some(FloatValue)
      case Opaque => Some(NotEncodable)
      case String(s) => if NoSurrogate(s) then FirstDefect(rest) else Some(LoneSurrogate)
      case Object(members) =>
        TotalWeightOfConcat(rest, Values(members));
        if KeysClean(members) then FirstDefect(rest + Values(members)) else Some(LoneSurrogate)
      case Array(items) =>
        TotalWeightOfConcat(rest, items);
        FirstDefect(rest + items)
      case _ => FirstDefect(rest)
  }

  predicate AllClean(stack: seq<Json>) {
    forall i :: 0 <= i < |stack| ==> Clean(stack[i])
  }

  /** The stack walk misses nothing: it is clean exactly when every value is clean all the way down. */
  lemma {:induction false} FirstDefectIsComplete(stack: seq<Json>)
    ensures FirstDefect(stack) == None <==> AllClean(stack)
    decreases TotalWeight(stack)
  {
    if stack != [] {
      PopWeighs(stack);
      var n := |stack| - 1;
      var (rest, top) := (stack[..n], stack[n]);
      assert AllClean(stack) <==> AllClean(rest) && Clean(top);
      match top
      case Float =>
      case Opaque =>
      case Object(members) =>
        TotalWeightOfConcat(rest, Values(members));
        if KeysClean(members) {
          FirstDefectIsComplete(rest + Values(members));
          AllCleanOfConcat(rest, Values(members));
        }
      case Array(items) =>
        TotalWeightOfConcat(rest, items);
        FirstDefectIsComplete(rest + items);
        AllCleanOfConcat(rest, items);
      case _ => FirstDefectIsComplete(rest);
    }
  }

  lemma AllCleanOfConcat(a: seq<Json>, b: seq<Json>)
    ensures AllClean(a + b) <==> AllClean(a) && AllClean(b)
  {
    if AllClean(a + b) {
      forall i | 0 <= i < |b| ensures Clean(b[i]) {
        assert b[i] == (a + b)[|a| + i];
      }
      forall i | 0 <= i < |a| ensures Clean(a[i]) {
        assert a[i] == (a + b)[i];
      }
    }
  }

  lemma CleanMeansNoDefect(v: Json)
    ensures FirstDefect([v]) == None <==> Clean(v)
  {
    FirstDefectIsComplete([v]);
    assert [v][0] == v;
  }

  method RejectNoncanonicalValues(value: Json) returns (defect: Option<Error>)
    ensures defect == FirstDefect([value])
    ensures defect == None <==> Clean(value)
  {
    CleanMeansNoDefect(value);
    var stack := [value];
    while stack != []
      invariant FirstDefect(stack) == FirstDefect([value])
      decreases TotalWeight(stack)
    {
      PopWeighs(stack);
      var current := stack[|stack| - 1];
      stack := stack[..|stack| - 1];
      match current
      case Float => return Some(FloatValue);
      case Opaque => return Some(NotEncodable);
      case String(s) =>
        if !NoSurrogate(s) {
          return Some(LoneSurrogate);
        }
      case Object(members) =>
        TotalWeightOfConcat(stack, Values(members));
        if !KeysClean(members) {
          return Some(LoneSurrogate);
        }
        stack := stack + Values(members);
      case Array(items) =>
        TotalWeightOfConcat(stack, items);
        stack := stack + items;
      case _ =>
    }
    return None;
  }

  /** The hook run on the pairs of every object the reader closes. */
  method RejectDuplicateKeys(pairs: seq<Member>) returns (r: Result<Json, Error>)
    ensures r == if DistinctKeys(pairs) then Ok(Object(pairs)) else Err(DuplicateKey)
  {
    var seen: set<Str> := {};
    for i := 0 to |pairs|
      invariant seen == set j | 0 <= j < i :: pairs[j].key
      invariant DistinctKeys(pairs[..i])
    {
      if pairs[i].key in seen {
        return Err(DuplicateKey);
      }
      seen := seen + {pairs[i].key};
    }
    assert pairs[..|pairs|] == pairs;
    return Ok(Object(pairs));
  }

  // ---- one line ------------------------------------------------------------------------------

  /** A record as Python holds it: an object with nothing unencodable in it. */
  predicate IsRecord(v: Json) {
    v.Object? && UniqueKeys(v) && Clean(v)
  }

  function EncodeLine(v: Json): Result<seq<Byte>, Error> {
    if !v.Object? then Err(NotAnObject)
    else
      match FirstDefect([v])
      case Some(e) => Err(e)
      case None =>
        match EncodeAscii(Dumps(v))
        case Some(bytes) => Ok(bytes + [LF])
        case None => Err(NotEncodable)
  }

  function ParseLine(line: seq<Byte>): Result<Json, Error> {
    match DecodeUtf8(line)
    case None => Err(InvalidUtf8)
    case Some(text) =>
      var value :- Loads(text);
      if !value.Object? then Err(NotAnObject)
      else
        match FirstDefect([value])
        case Some(e) => Err(e)
        case None => if EncodeAscii(Dumps(value)) == Some(line) then Ok(value) else Err(NotCanonical)
  }

  lemma {:induction false} InsertFirst(m: Member, sorted: seq<Member>)
    requires SortedMembers([m] + sorted)
    ensures Insert(m, sorted) == [m] + sorted
  {
    if sorted != [] {
      assert ([m] + sorted)[0] == m && ([m] + sorted)[1] == sorted[0];
    }
  }

  lemma {:induction false} SortMembersOfSorted(members: seq<Member>)
    requires SortedMembers(members)
    ensures SortMembers(members) == members
  {
    if members != [] {
      SortMembersOfSorted(members[1..]);
      assert members == [members[0]] + members[1..];
      InsertFirst(members[0], members[1..]);
    }
  }

  /** A value already in key order is its own normal form. */
  lemma {:induction false} SortKeysOfSorted(v: Json)
    requires SortedKeys(v)
    ensures SortKeys(v) == v
  {
    match v
    case Array(items) =>
      SortItemsAt(items);
      forall i | 0 <= i < |items| ensures SortItems(items)[i] == items[i] {
        SortKeysOfSorted(items[i]);
      }
      assert SortItems(items) == items;
    case Object(members) =>
      SortValuesAt(members);
      forall i | 0 <= i < |members| ensures SortValues(members)[i] == members[i] {
        SortKeysOfSorted(members[i].value);
      }
      assert SortValues(members) == members;
      SortMembersOfSorted(members);
    case _ =>
  }

  lemma DumpsIsAscii(v: Json)
    ensures Printable(Dumps(v))
    ensures EncodeAscii(Dumps(v)) == Some(Dumps(v))
  {
    CompactIsPrintable(SortKeys(v));
  }

  /** Parsing a written record gives the record back, with every object's members in key order. */
  lemma LineRoundTrip(v: Json)
    requires IsRecord(v)
    ensures EncodeLine(v) == Ok(Dumps(v) + [LF])
    ensures ParseLine(EncodeLine(v).value[..|EncodeLine(v).value| - 1]) == Ok(SortKeys(v))
  {
    var line := Dumps(v);
    CleanMeansNoDefect(v);
    DumpsIsAscii(v);
    assert (line + [LF])[..|line|] == line;
    AsciiDecodesToItself(line);
    SortKeysNormalises(v);
    LoadsInvertsCompact(SortKeys(v));
    CleanMeansNoDefect(SortKeys(v));
    SortKeysOfSorted(SortKeys(v));
  }

  /** An accepted line is the one encoding of the record it gives: the record is in normal form. */
  lemma AcceptedLine(line: seq<Byte>)
    requires ParseLine(line).Ok?
    ensures var v := ParseLine(line).value;
      IsRecord(v) && SortedKeys(v) && EncodeLine(v) == Ok(line + [LF])
  {
    var v := ParseLine(line).value;
    CleanMeansNoDefect(v);
    DumpsIsAscii(v);
    LineRoundTrip(v);
    assert (line + [LF])[..|line|] == line;
    SortKeysNormalises(v);
  }

  /** Two records share an encoding only if they are the same dict up to member order. */
  lemma EncodingIsInjective(v: Json, w: Json)
    requires IsRecord(v) && IsRecord(w)
    ensures EncodeLine(v) == EncodeLine(w) <==> SortKeys(v) == SortKeys(w)
  {
    LineRoundTrip(v);
    LineRoundTrip(w);
  }

  // ---- a whole file --------------------------------------------------------------------------

  function FindLf(raw: seq<Byte>): (k: nat)
    ensures k <= |raw|
    ensures forall i :: 0 <= i < k ==> raw[i] != LF
    ensures k < |raw| ==> raw[k] == LF
  {
    if raw == [] || raw[0] == LF then 0 else 1 + FindLf(raw[1..])
  }

  predicate LimitReached(limit: Option<int>, index: nat) {
    limit.Some? && index >= limit.value
  }

  function ParseLines(raw: seq<Byte>, limit: Option<int>, index: nat): Result<seq<Json>, Error>
    decreases |raw|
  {
    if raw == [] then Ok([])
    else
      var end := FindLf(raw);
      if end == |raw| then Err(NoFinalLineFeed)
      else if end == 0 then Err(BlankLine)
      else if LimitReached(limit, index) then Err(TooManyRecords)
      else
        var first :- ParseLine(raw[..end]);
        var more :- ParseLines(raw[end + 1..], limit, index + 1);
        Ok([first] + more)
  }

  function ParseRecords(raw: seq<Byte>, limit: Option<int>): Result<seq<Json>, Error> {
    if limit.Some? && limit.value < 0 then Err(InvalidLimit)
    else if BOM <= raw then Err(ByteOrderMark)
    else if CR in raw then Err(CarriageReturn)
    else if raw == [] || raw[|raw| - 1] != LF then Err(NoFinalLineFeed)
    else ParseLines(raw, limit, 0)
  }

  method ParseCanonicalJsonlRecords(raw: seq<Byte>, limit: Option<int>)
    returns (r: Result<seq<Json>, Error>)
    ensures r == ParseRecords(raw, limit)
  {
    if limit.Some? && limit.value < 0 {
      return Err(InvalidLimit);
    }
    if BOM <= raw {
      return Err(ByteOrderMark);
    }
    if CR in raw {
      return Err(CarriageReturn);
    }
    if raw == [] || raw[|raw| - 1] != LF {
      return Err(NoFinalLineFeed);
    }
    r := ParseLinesLoop(raw, limit);
  }

  method ParseLinesLoop(raw: seq<Byte>, limit: Option<int>) returns (r: Result<seq<Json>, Error>)
    ensures r == ParseLines(raw, limit, 0)
  {
    hide ParseLine, FindLf, ParseLines;
    var records: seq<Json> := [];
    var start, index := 0, 0;
    assert raw[0..] == raw;
    AfterNone(ParseLines(raw, limit, 0));
    while start < |raw|
      invariant start <= |raw| && index >= 0
      invariant ParseLines(raw, limit, 0) == After(records, ParseLines(raw[start..], limit, index))
      decreases |raw| - start
    {
      var end := start + FindLf(raw[start..]);
      LineAt(raw, start, limit, index);
      if end == |raw| {
        return Err(NoFinalLineFeed);
      }
      var line := raw[start..end];
      start := end + 1;
      if line == [] {
        return Err(BlankLine);
      }
      if LimitReached(limit, index) {
        return Err(TooManyRecords);
      }
      match ParseLine(line)
      case Err(e) => return Err(e);
      case Ok(v) =>
        AfterOne(records, v, ParseLines(raw[start..], limit, index + 1));
        records := records + [v];
        index := index + 1;
    }
    NoLinesLeft(limit, index);
    assert raw[start..] == [] && records + [] == records;
    return Ok(records);
  }

  lemma NoLinesLeft(limit: Option<int>, index: nat)
    ensures ParseLines([], limit, index) == Ok([])
  {
  }

  /** One turn of the line loop, on the whole buffer instead of its tail. */
  lemma LineAt(raw: seq<Byte>, start: nat, limit: Option<int>, index: nat)
    requires start < |raw|
    ensures var end := start + FindLf(raw[start..]);
      && start <= end <= |raw|
      && ParseLines(raw[start..], limit, index) ==
         if end == |raw| then Err(NoFinalLineFeed)
         else if end == start then Err(BlankLine)
         else if LimitReached(limit, index) then Err(TooManyRecords)
         else
           match ParseLine(raw[start..end])
           case Err(e) => Err(e)
           case Ok(v) => After([v], ParseLines(raw[end + 1..], limit, index + 1))
  {
    hide ParseLine, FindLf;
    var tail := raw[start..];
    var k := FindLf(tail);
    assert raw[start..start + k] == tail[..k];
    if k < |tail| {
      assert raw[start + k + 1..] == tail[k + 1..];
    }
  }

  function After(records: seq<Json>, more: Result<seq<Json>, Error>): Result<seq<Json>, Error> {
    match more
    case Ok(rs) => Ok(records + rs)
    case Err(e) => Err(e)
  }

  lemma AfterNone(more: Result<seq<Json>, Error>)
    ensures After([], more) == more
  {
    if more.Ok? {
      assert [] + more.value == more.value;
    }
  }

  lemma AfterOne(records: seq<Json>, v: Json, more: Result<seq<Json>, Error>)
    ensures After(records + [v], more) == After(records, After([v], more))
  {
    if more.Ok? {
      assert records + [v] + more.value == records + ([v] + more.value);
    }
  }

  /** The file a list of records is written to. */
  function Lines(records: seq<Json>): seq<Byte> {
    if records == [] then [] else DumpsBytes(records[0]) + [LF] + Lines(records[1..])
  }

  function DumpsBytes(v: Json): (bytes: seq<Byte>)
    ensures bytes == Dumps(v) && Printable(bytes)
  {
    DumpsIsAscii(v);
    Dumps(v)
  }

  predicate AllRecords(records: seq<Json>) {
    forall i :: 0 <= i < |records| ==> IsRecord(records[i])
  }

  predicate WithinLimit(limit: Option<int>, count: nat) {
    limit.Some? ==> count <= limit.value
  }

  lemma FindLfAfter(line: Str, rest: seq<Byte>)
    requires Printable(line)
    ensures FindLf(line + [LF] + rest) == |line|
  {
    var t := line + [LF] + rest;
    assert forall i :: 0 <= i < |line| ==> t[i] == line[i];
    assert t[|line|] == LF;
  }

  lemma {:induction false} LinesAreBytes(records: seq<Json>)
    ensures forall i :: 0 <= i < |Lines(records)| ==>
      Lines(records)[i] == LF || 0x20 <= Lines(records)[i] <= 0x7E
  {
    if records != [] {
      DumpsIsAscii(records[0]);
      LinesAreBytes(records[1..]);
    }
  }

  lemma FirstLine(line: seq<Byte>, rest: seq<Byte>, limit: Option<int>, index: nat, v: Json)
    requires Printable(line) && line != [] && ParseLine(line) == Ok(v) && !LimitReached(limit, index)
    ensures ParseLines(line + [LF] + rest, limit, index) == After([v], ParseLines(rest, limit, index + 1))
  {
    hide ParseLine, FindLf;
    var raw := line + [LF] + rest;
    FindLfAfter(line, rest);
    assert raw[..|line|] == line && raw[|line| + 1..] == rest;
  }

  lemma {:induction false} LinesRoundTrip(records: seq<Json>, limit: Option<int>, index: nat)
    requires AllRecords(records) && WithinLimit(limit, index + |records|)
    ensures ParseLines(Lines(records), limit, index) == Ok(SortItems(records))
  {
    if records != [] {
      hide ParseLine, ParseLines, DumpsBytes, Dumps, SortKeys, EncodeLine, IsRecord;
      var line := DumpsBytes(records[0]);
      RecordLine(records[0]);
      FirstLine(line, Lines(records[1..]), limit, index, SortKeys(records[0]));
      LinesRoundTrip(records[1..], limit, index + 1);
    } else {
      assert ParseLines([], limit, index) == Ok([]);
    }
  }

  lemma RecordLine(v: Json)
    requires IsRecord(v)
    ensures ParseLine(DumpsBytes(v)) == Ok(SortKeys(v)) && DumpsBytes(v) != []
  {
    hide ParseLine, SortKeys;
    LineRoundTrip(v);
    DumpsIsNotEmpty(v);
    assert (Dumps(v) + [LF])[..|Dumps(v)|] == Dumps(v);
  }

  lemma DumpsIsNotEmpty(v: Json)
    requires IsRecord(v)
    ensures Dumps(v) != [] && Dumps(v)[0] == OPEN_OBJECT
  {
    SortKeysNormalises(v);
  }

  /** Writing any non-empty list of records and parsing the file gives the list back, up to member
      order, whenever the record limit admits it. */
  lemma RecordsRoundTrip(records: seq<Json>, limit: Option<int>)
    requires records != [] && AllRecords(records) && WithinLimit(limit, |records|)
    ensures ParseRecords(Lines(records), limit) == Ok(SortItems(records))
  {
    hide ParseLines, DumpsBytes, Dumps;
    LinesEndWithLf(records);
    LinesPassScreening(records);
    LinesRoundTrip(records, limit, 0);
  }

  lemma LinesPassScreening(records: seq<Json>)
    ensures !(BOM <= Lines(records)) && CR !in Lines(records)
  {
    hide Lines;
    var raw := Lines(records);
    LinesAreBytes(records);
    assert raw != [] ==> raw[0] <= 0x7E;
  }

  lemma {:induction false} LinesEndWithLf(records: seq<Json>)
    requires records != []
    ensures Lines(records) != [] && Lines(records)[|Lines(records)| - 1] == LF
  {
    if |records| > 1 {
      LinesEndWithLf(records[1..]);
    }
  }

  lemma ConsLines(v: Json, records: seq<Json>)
    ensures Lines([v] + records) == DumpsBytes(v) + [LF] + Lines(records)
    ensures SortItems([v] + records) == [SortKeys(v)] + SortItems(records)
    ensures AllRecords([v] + records) <==> IsRecord(v) && AllRecords(records)
  {
    var rs := [v] + records;
    assert rs[0] == v && rs[1..] == records;
    assert AllRecords(rs) <==> IsRecord(rs[0]) && AllRecords(rs[1..]);
  }

  lemma AcceptedBytes(line: seq<Byte>)
    requires ParseLine(line).Ok?
    ensures var v := ParseLine(line).value; IsRecord(v) && SortKeys(v) == v && DumpsBytes(v) == line
  {
    var v := ParseLine(line).value;
    AcceptedLine(line);
    LineRoundTrip(v);
    assert Dumps(v) == (Dumps(v) + [LF])[..|Dumps(v)|] == line;
    SortKeysOfSorted(v);
  }

  lemma {:induction false} AcceptedLines(raw: seq<Byte>, limit: Option<int>, index: nat)
    requires ParseLines(raw, limit, index).Ok?
    requires limit.Some? ==> index <= limit.value
    ensures var rs := ParseLines(raw, limit, index).value;
      AllRecords(rs) && SortItems(rs) == rs && raw == Lines(rs) && WithinLimit(limit, index + |rs|)
    decreases |raw|
  {
    hide ParseLine, ParseLines, DumpsBytes, FindLf, IsRecord, SortKeys, Lines, SortItems;
    if raw != [] {
      var end := FindLf(raw);
      ParsedLine(raw, limit, index);
      var line, tail := raw[..end], raw[end + 1..];
      AcceptedBytes(line);
      AcceptedLines(tail, limit, index + 1);
      ConsLines(ParseLine(line).value, ParseLines(tail, limit, index + 1).value);
    } else {
      NothingParsed(limit, index);
    }
  }

  lemma NothingParsed(limit: Option<int>, index: nat)
    ensures ParseLines([], limit, index) == Ok([]) && Lines([]) == [] && SortItems([]) == []
  {
  }

  lemma ParsedLine(raw: seq<Byte>, limit: Option<int>, index: nat)
    requires raw != [] && ParseLines(raw, limit, index).Ok?
    ensures var end := FindLf(raw);
      && end < |raw| && raw == raw[..end] + [LF] + raw[end + 1..] && !LimitReached(limit, index)
      && ParseLine(raw[..end]).Ok? && ParseLines(raw[end + 1..], limit, index + 1).Ok?
      && ParseLines(raw, limit, index).value
         == [ParseLine(raw[..end]).value] + ParseLines(raw[end + 1..], limit, index + 1).value
  {
    hide ParseLine;
  }

  /** What the parser accepts, exactly: the encodings of non-empty lists of key-ordered records
      within the limit. */
  lemma AcceptedExactly(raw: seq<Byte>, limit: Option<int>, records: seq<Json>)
    ensures ParseRecords(raw, limit) == Ok(records) <==>
      && records != [] && AllRecords(records) && SortItems(records) == records
      && raw == Lines(records) && WithinLimit(limit, |records|)
  {
    if ParseRecords(raw, limit) == Ok(records) {
      AcceptedLines(raw, limit, 0);
    }
    if records != [] && AllRecords(records) && WithinLimit(limit, |records|) {
      RecordsRoundTrip(records, limit);
    }
  }

  /** Two accepted files with the same records are the same bytes, and two lists of records written
      to the same bytes hold the same dicts. */
  lemma FilesAreInjective(a: seq<Json>, b: seq<Json>)
    requires AllRecords(a) && AllRecords(b)
    ensures Lines(a) == Lines(b) <==> SortItems(a) == SortItems(b)
  {
    if Lines(a) == Lines(b) {
      LinesRoundTrip(a, None, 0);
      LinesRoundTrip(b, None, 0);
    }
    if SortItems(a) == SortItems(b) {
      LinesDependOnNormalForm(a, b);
    }
  }

  lemma {:induction false} LinesDependOnNormalForm(a: seq<Json>, b: seq<Json>)
    requires SortItems(a) == SortItems(b)
    ensures Lines(a) == Lines(b)
  {
    SortItemsAt(a);
    SortItemsAt(b);
    if a != [] {
      assert SortItems(a)[0] == SortKeys(a[0]) && SortItems(b)[0] == SortKeys(b[0]);
      assert SortItems(a)[1..] == SortItems(a[1..]) && SortItems(b)[1..] == SortItems(b[1..]);
      LinesDependOnNormalForm(a[1..], b[1..]);
    }
  }

  // ---- accepted bytes, without the printer ---------------------------------------------------

  /** No float, no opaque value and no code point in U+D800 to U+DFFF anywhere. */
  lemma CleanExactly(v: Json)
    ensures Clean(v) <==>
      match v
      case Null => true
      case Bool(_) => true
      case Int(_) => true
      case Float => false
      case Opaque => false
      case String(s) => forall i :: 0 <= i < |s| ==> s[i] < 0xD800 || s[i] > 0xDFFF
      case Array(items) => forall i :: 0 <= i < |items| ==> Clean(items[i])
      case Object(members) =>
        forall i :: 0 <= i < |members| ==>
          Clean(String(members[i].key)) && Clean(members[i].value)
  {
  }

  /** The keys of every object go up: at the first difference by code point, or by ending first. */
  lemma KeysAscend(v: Json)
    ensures SortedKeys(v) <==>
      match v
      case Array(items) => forall i :: 0 <= i < |items| ==> SortedKeys(items[i])
      case Object(members) =>
        && (forall i, j :: 0 <= i < j < |members| ==> Precedes(members[i].key, members[j].key))
        && forall i :: 0 <= i < |members| ==> SortedKeys(members[i].value)
      case _ => true
  {
    hide Less, Precedes;
    forall a: Str, b: Str ensures Less(a, b) <==> Precedes(a, b) {
      LessIsLexicographic(a, b);
    }
  }

  /** A record is written by its encoding, to the code point, with a line feed after it. */
  lemma EncodingWrites(v: Json)
    requires IsRecord(v)
    ensures EncodeLine(v).Ok?
    ensures var line := EncodeLine(v).value;
      line != [] && line[|line| - 1] == 0x0A && Writes(SortKeys(v), line[..|line| - 1]) && Spelled(line[..|line| - 1])
  {
    hide Writes, Spelled, Compact;
    LineRoundTrip(v);
    SortKeysNormalises(v);
    CompactWrites(SortKeys(v));
    SpelledCompact(SortKeys(v));
    assert (Dumps(v) + [LF])[..|Dumps(v)|] == Dumps(v);
  }

  lemma SpelledCompact(v: Json)
    requires Clean(v)
    ensures Spelled(Compact(v))
  {
    hide Compact;
    CompactSpelled(v, []);
    assert Compact(v) + [] == Compact(v);
  }

  /** What a line must be to be accepted, said of its bytes: spelled in the one allowed way, the text of an
      object, nothing in it a float or a lone surrogate, and every object's keys in order. */
  lemma AcceptedSpelling(line: seq<Byte>, v: Json)
    ensures ParseLine(line) == Ok(v) <==>
      Spelled(line) && Loads(line) == Ok(v) && v.Object? && Clean(v) && SortedKeys(v)
    ensures ParseLine(line) == Ok(v) ==> Writes(v, line)
  {
    hide Spelled, Writes, Loads, Compact, FirstDefect, SortKeys, Clean, SortedKeys, DecodeUtf8;
    if ParseLine(line) == Ok(v) {
      AcceptedLine(line);
      SortKeysOfSorted(v);
      DumpsIsAscii(v);
      LineRoundTrip(v);
      assert (Dumps(v) + [LF])[..|Dumps(v)|] == Dumps(v) && (line + [LF])[..|line|] == line;
      SpelledCompact(v);
      CompactWrites(v);
      LoadsInvertsCompact(v);
    }
    if Spelled(line) && Loads(line) == Ok(v) && v.Object? && Clean(v) && SortedKeys(v) {
      SpelledIsAscii(line);
      AsciiDecodesToItself(line);
      LoadedIsCompact(line, v);
      SortKeysOfSorted(v);
      CleanMeansNoDefect(v);
      DumpsIsAscii(v);
    }
  }

  /** The same without the reader: a line is accepted for exactly the record it writes. */
  lemma AcceptedWriting(line: seq<Byte>, v: Json)
    ensures ParseLine(line) == Ok(v) <==> v.Object? && Clean(v) && SortedKeys(v) && Writes(v, line)
  {
    hide Spelled, Writes, Loads, Compact, FirstDefect, SortKeys, Clean, SortedKeys, DecodeUtf8, ParseLine;
    AcceptedSpelling(line, v);
    if v.Object? && Clean(v) && SortedKeys(v) && Writes(v, line) {
      WritesExactly(v, line);
      SpelledCompact(v);
      SortedMeansUnique(v);
      LoadsInvertsCompact(v);
    }
  }

  lemma {:induction false} SortedMeansUnique(v: Json)
    requires SortedKeys(v)
    ensures UniqueKeys(v)
  {
    match v
    case Array(items) =>
      forall i | 0 <= i < |items| ensures UniqueKeys(items[i]) {
        SortedMeansUnique(items[i]);
      }
    case Object(members) =>
      SortedAreDistinct(members);
      forall i | 0 <= i < |members| ensures UniqueKeys(members[i].value) {
        SortedMeansUnique(members[i].value);
      }
    case _ =>
  }

  /** A line writes an object with nothing in it a float or a lone surrogate and every object's keys in
      order. */
  ghost predicate TakenFor(line: seq<Byte>, v: Json) {
    v.Object? && Clean(v) && SortedKeys(v) && Writes(v, line)
  }

  lemma TakenIsDumped(line: seq<Byte>, v: Json)
    ensures TakenFor(line, v) <==> IsRecord(v) && SortKeys(v) == v && line == Dumps(v)
  {
    hide Spelled, Writes, Loads, FirstDefect, SortKeys, Clean, SortedKeys, DecodeUtf8, Dumps, ParseLine, IsRecord;
    AcceptedWriting(line, v);
    if TakenFor(line, v) {
      AcceptedLine(line);
      SortKeysOfSorted(v);
      LineRoundTrip(v);
      assert (Dumps(v) + [LF])[..|Dumps(v)|] == Dumps(v) && (line + [LF])[..|line|] == line;
    }
    if IsRecord(v) && SortKeys(v) == v {
      LineRoundTrip(v);
      assert (Dumps(v) + [LF])[..|Dumps(v)|] == Dumps(v);
      AcceptedWriting(Dumps(v), v);
    }
  }

  /** The lines with a line feed after each. */
  function Terminated(lines: seq<seq<Byte>>): seq<Byte> {
    if lines == [] then [] else lines[0] + [0x0A] + Terminated(lines[1..])
  }

  ghost predicate HoldsLines(raw: seq<Byte>, records: seq<Json>) {
    exists lines: seq<seq<Byte>> :: |lines| == |records| && raw == Terminated(lines)
      && forall i :: 0 <= i < |lines| ==> TakenFor(lines[i], records[i])
  }

  /** Which files are accepted for which records: at least one line and no more than the limit, a line feed
      after each, and each taken for its record. */
  lemma AcceptedFileExactly(raw: seq<Byte>, limit: Option<int>, records: seq<Json>)
    ensures ParseRecords(raw, limit) == Ok(records) <==>
      records != [] && (limit.Some? ==> |records| <= limit.value) && HoldsLines(raw, records)
  {
    hide ParseRecords, HoldsLines, Lines, AllRecords, SortItems;
    AcceptedExactly(raw, limit, records);
    LinesExactly(raw, records);
  }

  lemma LinesExactly(raw: seq<Byte>, records: seq<Json>)
    ensures AllRecords(records) && SortItems(records) == records && raw == Lines(records) <==> HoldsLines(raw, records)
  {
    hide TakenFor, IsRecord, SortKeys, Dumps, SortItems, Lines, Terminated;
    SortItemsAt(records);
    forall i | 0 <= i < |records| ensures TakenFor(DumpsBytes(records[i]), records[i]) <==>
      IsRecord(records[i]) && SortKeys(records[i]) == records[i]
    {
      TakenIsDumped(DumpsBytes(records[i]), records[i]);
    }
    var dumps := seq(|records|, i requires 0 <= i < |records| => DumpsBytes(records[i]));
    LinesOfDumps(records, dumps);
    if HoldsLines(raw, records) {
      var lines :| |lines| == |records| && raw == Terminated(lines)
        && forall i :: 0 <= i < |lines| ==> TakenFor(lines[i], records[i]);
      forall i | 0 <= i < |lines|
        ensures lines[i] == dumps[i] && IsRecord(records[i]) && SortItems(records)[i] == records[i]
      {
        TakenIsDumped(lines[i], records[i]);
      }
      assert lines == dumps && SortItems(records) == records;
    }
  }

  lemma {:induction false} LinesOfDumps(records: seq<Json>, dumps: seq<seq<Byte>>)
    requires |dumps| == |records| && forall i :: 0 <= i < |records| ==> dumps[i] == DumpsBytes(records[i])
    ensures Lines(records) == Terminated(dumps)
  {
    hide DumpsBytes;
    if records != [] {
      LinesOfDumps(records[1..], dumps[1..]);
    }
  }
}
