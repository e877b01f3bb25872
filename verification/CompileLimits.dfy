/** The caps the loader and the source verifier enforce, and checked 64-bit sums. */
module CompileLimits {
  import opened Outcomes

  const U64_MAX := 0xFFFF_FFFF_FFFF_FFFF

  datatype Limits = Limits(
    fileCount: int,
    fileBytes: int,
    totalBytes: int,
    sectionCount: int,
    sectionBytesTotal: int,
    serializedInputTotal: int,
    catalogRecordCount: int,
    obligationCount: int,
    pathCount: int,
    hashBuffer: int,
    parserInput: int,
    pathBytes: int,
    pathBytesTotal: int)

  const FROZEN := Limits(
    256, 4_194_304, 67_108_864, 1024, 33_554_432, 16_777_216, 512, 256, 32_768, 65_536, 4_194_304,
    4_096, 16_777_216)

  /** Componentwise order. */
  predicate Within(a: Limits, b: Limits) {
    && a.fileCount <= b.fileCount
    && a.fileBytes <= b.fileBytes
    && a.totalBytes <= b.totalBytes
    && a.sectionCount <= b.sectionCount
    && a.sectionBytesTotal <= b.sectionBytesTotal
    && a.serializedInputTotal <= b.serializedInputTotal
    && a.catalogRecordCount <= b.catalogRecordCount
    && a.obligationCount <= b.obligationCount
    && a.pathCount <= b.pathCount
    && a.hashBuffer <= b.hashBuffer
    && a.parserInput <= b.parserInput
    && a.pathBytes <= b.pathBytes
    && a.pathBytesTotal <= b.pathBytesTotal
  }

  const ONES := Limits(1, 1, 1, 1, 1, 1, 1, 1, 1, 1, 1, 1, 1)

  /** What construction demands: every field positive and no larger than its frozen value. */
  predicate Valid(l: Limits) {
    Within(ONES, l) && Within(l, FROZEN)
  }

  /** The limits a caller may construct, number by number. */
  lemma ValidExactly(l: Limits)
    ensures Valid(l) <==>
      && 1 <= l.fileCount <= 256 && 1 <= l.fileBytes <= 4_194_304 && 1 <= l.totalBytes <= 67_108_864
      && 1 <= l.sectionCount <= 1024 && 1 <= l.sectionBytesTotal <= 33_554_432
      && 1 <= l.serializedInputTotal <= 16_777_216 && 1 <= l.catalogRecordCount <= 512
      && 1 <= l.obligationCount <= 256 && 1 <= l.pathCount <= 32_768 && 1 <= l.hashBuffer <= 65_536
      && 1 <= l.parserInput <= 4_194_304 && 1 <= l.pathBytes <= 4_096 && 1 <= l.pathBytesTotal <= 16_777_216
  {
  }

  datatype Refused = OutOfRange | Overflow

  function CheckedNonnegative(n: int): (r: Result<int, Refused>)
    ensures r.Ok? <==> 0 <= n <= 0xFFFF_FFFF_FFFF_FFFF
    ensures r.Ok? ==> r.value == n
  {
    if 0 <= n <= U64_MAX then Ok(n) else Err(OutOfRange)
  }

  /** Both operands and the sum must be 64-bit; the sum is never wrapped. */
  function CheckedAdd(left: int, right: int): (r: Result<int, Refused>)
    ensures r.Ok? <==> 0 <= left && 0 <= right && left + right <= 0xFFFF_FFFF_FFFF_FFFF
    ensures r.Ok? ==> r.value == left + right
    ensures r == Err(Overflow) <==> 0 <= left <= U64_MAX && 0 <= right <= U64_MAX && left + right > U64_MAX
  {
    var a :- CheckedNonnegative(left);
    var b :- CheckedNonnegative(right);
    if a + b > U64_MAX then Err(Overflow) else Ok(a + b)
  }

  /** The source tests left > U64_MAX // right instead of forming the product. */
  function CheckedMul(left: int, right: int): (r: Result<int, Refused>)
    ensures r.Ok? <==> 0 <= left <= U64_MAX && 0 <= right <= U64_MAX && left * right <= 0xFFFF_FFFF_FFFF_FFFF
    ensures r.Ok? ==> r.value == left * right
  {
    var a :- CheckedNonnegative(left);
    var b :- CheckedNonnegative(right);
    if a == 0 || b == 0 then Ok(0)
    else
      QuotientGuards(a, b);
      if a > U64_MAX / b then Err(Overflow) else Ok(a * b)
  }

  lemma QuotientGuards(a: int, b: int)
    requires a > 0 && b > 0
    ensures a > U64_MAX / b <==> a * b > U64_MAX
  {
    var q := U64_MAX / b;
    assert q * b <= U64_MAX < (q + 1) * b;
    if a > q {
      assert a * b >= (q + 1) * b;
    } else {
      assert a * b <= q * b;
    }
  }
}
