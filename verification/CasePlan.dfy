/** The expansion of a lane's matrices into numbered cases. */
module CasePlan {
  import opened Text
  import opened Outcomes
  import opened Json
  import opened Scanner
  import Spelling

  datatype Dimension<V> = Dimension(id: Str, values: seq<V>)

  datatype Matrix<V> = Matrix(id: Str, dimensions: seq<Dimension<V>>)

  datatype PlannedCase<V> = PlannedCase(
    caseId: Str, matrixId: Str, ordinal: nat, parameters: map<Str, V>, diagnosticOnly: bool)

  // ---- mixed radix ---------------------------------------------------------------------------

  function Sizes<V>(dimensions: seq<Dimension<V>>): (s: seq<nat>)
    ensures |s| == |dimensions|
  {
    seq(|dimensions|, i requires 0 <= i < |dimensions| => |dimensions[i].values|)
  }

  /** How many index tuples there are: the product of the sizes. */
  function Volume(sizes: seq<nat>): nat {
    if sizes == [] then 1 else Volume(sizes[..|sizes| - 1]) * sizes[|sizes| - 1]
  }

  /** A tuple of indices, one into each dimension. */
  predicate IsTuple(sizes: seq<nat>, t: seq<nat>) {
    |t| == |sizes| && forall i :: 0 <= i < |t| ==> t[i] < sizes[i]
  }

  /** The place of a tuple when the last index moves fastest. */
  function Rank(sizes: seq<nat>, t: seq<nat>): nat
    requires |t| == |sizes|
  {
    if t == [] then 0
    else
      var n := |t| - 1;
      Rank(sizes[..n], t[..n]) * sizes[n] + t[n]
  }

  function TupleAt(sizes: seq<nat>, k: nat): (t: seq<nat>)
    requires k < Volume(sizes)
    ensures |t| == |sizes|
  {
    if sizes == [] then []
    else
      var n := |sizes| - 1;
      Quotient(k, Volume(sizes[..n]), sizes[n]);
      TupleAt(sizes[..n], k / sizes[n]) + [k % sizes[n]]
  }

  lemma Quotient(k: nat, rows: nat, width: nat)
    requires k < rows * width
    ensures width > 0 && k / width < rows && k == k / width * width + k % width
  {
    assert width == 0 ==> rows * width == 0;
    RowsInOrder(rows, k / width, width);
  }

  lemma RowsInOrder(a: nat, b: nat, width: nat)
    ensures a <= b ==> a * width <= b * width
  {
  }

  lemma RowsApart(a: nat, b: nat, width: nat)
    ensures a < b ==> a * width + width <= b * width
  {
    if a < b {
      assert (a + 1) * width <= b * width;
    }
  }

  lemma CompareRows(row: nat, other: nat, column: nat, otherColumn: nat, width: nat)
    requires column < width && otherColumn < width
    ensures row * width + column < other * width + otherColumn
       <==> row < other || (row == other && column < otherColumn)
  {
    RowsApart(row, other, width);
    RowsApart(other, row, width);
  }

  lemma Compose(row: nat, column: nat, rows: nat, width: nat)
    requires row < rows && column < width
    ensures row * width + column < rows * width
    ensures (row * width + column) / width == row && (row * width + column) % width == column
  {
    var k: nat := row * width + column;
    RowsApart(row, rows, width);
    RowsApart(row, k / width, width);
    RowsApart(k / width, row, width);
    assert k == k / width * width + k % width;
  }

  /** Tuples and their places determine each other. */
  lemma {:induction false} RankIsABijection(sizes: seq<nat>, t: seq<nat>)
    requires IsTuple(sizes, t)
    ensures Rank(sizes, t) < Volume(sizes) && TupleAt(sizes, Rank(sizes, t)) == t
  {
    if t != [] {
      var n := |t| - 1;
      RankIsABijection(sizes[..n], t[..n]);
      Compose(Rank(sizes[..n], t[..n]), t[n], Volume(sizes[..n]), sizes[n]);
      assert t == t[..n] + [t[n]];
    }
  }

  lemma {:induction false} TupleAtIsATuple(sizes: seq<nat>, k: nat)
    requires k < Volume(sizes)
    ensures IsTuple(sizes, TupleAt(sizes, k)) && Rank(sizes, TupleAt(sizes, k)) == k
  {
    if sizes != [] {
      var n := |sizes| - 1;
      var t := TupleAt(sizes, k);
      Quotient(k, Volume(sizes[..n]), sizes[n]);
      TupleAtIsATuple(sizes[..n], k / sizes[n]);
      assert t[..n] == TupleAt(sizes[..n], k / sizes[n]);
    }
  }

  /** Lexicographic order of equally long tuples. */
  predicate Before(a: seq<nat>, b: seq<nat>)
    requires |a| == |b|
  {
    a != [] &&
    var n := |a| - 1;
    Before(a[..n], b[..n]) || (a[..n] == b[..n] && a[n] < b[n])
  }

  /** The first index that differs decides. */
  lemma {:induction false} BeforeExactly(a: seq<nat>, b: seq<nat>)
    requires |a| == |b|
    ensures Before(a, b) <==> exists i :: 0 <= i < |a| && a[..i] == b[..i] && a[i] < b[i]
  {
    if a != [] {
      var n := |a| - 1;
      BeforeExactly(a[..n], b[..n]);
      forall i | 0 <= i < n ensures a[..i] == a[..n][..i] && b[..i] == b[..n][..i] {
      }
    }
  }

  /** Earlier place, lexicographically smaller tuple: the last dimension moves fastest. */
  lemma {:induction false} RankIsLexicographic(sizes: seq<nat>, a: seq<nat>, b: seq<nat>)
    requires IsTuple(sizes, a) && IsTuple(sizes, b)
    ensures Rank(sizes, a) < Rank(sizes, b) <==> Before(a, b)
  {
    hide TupleAt, Volume;
    if a != [] {
      var n := |a| - 1;
      CompareRows(Rank(sizes[..n], a[..n]), Rank(sizes[..n], b[..n]), a[n], b[n], sizes[n]);
      RankIsLexicographic(sizes[..n], a[..n], b[..n]);
      RankIsLexicographic(sizes[..n], b[..n], a[..n]);
      RankIsABijection(sizes[..n], a[..n]);
      RankIsABijection(sizes[..n], b[..n]);
    }
  }

  // ---- combinations --------------------------------------------------------------------------

  /** itertools.product: each earlier combination extended by every value of the next dimension. */
  function Product<V>(dimensions: seq<Dimension<V>>): (r: seq<seq<V>>)
    ensures |r| == Volume(Sizes(dimensions))
  {
    if dimensions == [] then [[]]
    else
      var n := |dimensions| - 1;
      var rows, pool := Product(dimensions[..n]), dimensions[n].values;
      assert Sizes(dimensions)[..n] == Sizes(dimensions[..n]);
      seq(|rows| * |pool|, k requires 0 <= k < |rows| * |pool| =>
        Quotient(k, |rows|, |pool|);
        rows[k / |pool|] + [pool[k % |pool|]])
  }

  /** The values a tuple of indices picks. */
  function Picked<V>(dimensions: seq<Dimension<V>>, t: seq<nat>): (r: seq<V>)
    requires IsTuple(Sizes(dimensions), t)
    ensures |r| == |t|
  {
    seq(|t|, i requires 0 <= i < |t| => dimensions[i].values[t[i]])
  }

  /** Entry k of the product is the combination with place k, so each combination occurs once. */
  lemma {:induction false} ProductAt<V>(dimensions: seq<Dimension<V>>, k: nat)
    requires k < Volume(Sizes(dimensions))
    ensures IsTuple(Sizes(dimensions), TupleAt(Sizes(dimensions), k))
    ensures Product(dimensions)[k] == Picked(dimensions, TupleAt(Sizes(dimensions), k))
  {
    var sizes := Sizes(dimensions);
    TupleAtIsATuple(sizes, k);
    if dimensions != [] {
      var n := |dimensions| - 1;
      assert sizes[..n] == Sizes(dimensions[..n]);
      Quotient(k, Volume(sizes[..n]), sizes[n]);
      ProductAt(dimensions[..n], k / sizes[n]);
      var t := TupleAt(sizes, k);
      assert t[..n] == TupleAt(sizes[..n], k / sizes[n]);
      assert Picked(dimensions, t) == Picked(dimensions[..n], t[..n]) + [dimensions[n].values[t[n]]];
    }
  }

  /** dict(zip(names, combination)): a later value wins a repeated name. */
  function Bound<V>(dimensions: seq<Dimension<V>>, values: seq<V>): map<Str, V>
    requires |values| == |dimensions|
  {
    if values == [] then map[]
    else
      var n := |values| - 1;
      Bound(dimensions[..n], values[..n])[dimensions[n].id := values[n]]
  }

  lemma {:induction false} BoundAt<V>(dimensions: seq<Dimension<V>>, values: seq<V>, i: nat)
    requires i < |values| == |dimensions|
    requires forall j :: i < j < |dimensions| ==> dimensions[j].id != dimensions[i].id
    ensures dimensions[i].id in Bound(dimensions, values)
    ensures Bound(dimensions, values)[dimensions[i].id] == values[i]
  {
    var n := |values| - 1;
    if i < n {
      BoundAt(dimensions[..n], values[..n], i);
    }
  }

  // ---- the plan ------------------------------------------------------------------------------

  const DOT: CodePoint := '.' as int

  function Zeros(n: nat): (z: Str)
    ensures |z| == n && forall i :: 0 <= i < n ==> z[i] == ZERO
  {
    seq(n, _ => ZERO)
  }

  /** At least four digits, padded on the left. */
  function Padded(n: nat): Str {
    var d := Decimal(n);
    if |d| < 4 then Zeros(4 - |d|) + d else d
  }

  function CaseId(lane: Str, matrix: Str, ordinal: nat): Str {
    lane + [DOT] + matrix + [DOT] + Padded(ordinal)
  }

  function CaseCount<V>(matrices: seq<Matrix<V>>): nat {
    if matrices == [] then 0
    else CaseCount(matrices[..|matrices| - 1]) + Volume(Sizes(matrices[|matrices| - 1].dimensions))
  }

  /** The case for a combination of a matrix. */
  function Planned<V>(lane: Str, matrix: Matrix<V>, place: nat, ordinal: nat, diagnostic: set<Str>): PlannedCase<V>
    requires place < Volume(Sizes(matrix.dimensions))
  {
    ProductAt(matrix.dimensions, place);
    var id := CaseId(lane, matrix.id, ordinal);
    PlannedCase(id, matrix.id, ordinal,
      Bound(matrix.dimensions, Picked(matrix.dimensions, TupleAt(Sizes(matrix.dimensions), place))),
      id in diagnostic)
  }

  /** The cases of a matrix stand together, in the order of their combinations. */
  ghost predicate Block<V>(lane: Str, matrices: seq<Matrix<V>>, m: nat, diagnostic: set<Str>,
      cases: seq<PlannedCase<V>>)
    requires m < |matrices|
  {
    var start := CaseCount(matrices[..m]);
    var end := start + Volume(Sizes(matrices[m].dimensions));
    end <= |cases|
    && forall k :: start <= k < end ==> cases[k] == Planned(lane, matrices[m], k - start, k + 1, diagnostic)
  }

  /** The plan lists, matrix by matrix and in lexicographic order, one case for each combination,
      numbered from 1; so the closing count check never fires. */
  method ExpandCasePlan<V>(lane: Str, matrices: seq<Matrix<V>>, diagnostic: set<Str>)
    returns (r: Result<seq<PlannedCase<V>>, ()>)
    ensures r.Ok? && |r.value| == CaseCount(matrices)
    ensures forall m :: 0 <= m < |matrices| ==> Block(lane, matrices, m, diagnostic, r.value)
  {
    hide Block, Volume;
    var cases: seq<PlannedCase<V>> := [];
    for i := 0 to |matrices|
      invariant |cases| == CaseCount(matrices[..i])
      invariant forall m :: 0 <= m < i ==> Block(lane, matrices, m, diagnostic, cases)
    {
      var more := Cases(lane, matrices[i], |cases|, diagnostic);
      forall m | 0 <= m < i ensures Block(lane, matrices, m, diagnostic, cases + more) {
        BlockStays(lane, matrices, m, diagnostic, cases, more);
      }
      BlockAdded(lane, matrices, i, diagnostic, cases, more);
      assert matrices[..i + 1][..i] == matrices[..i];
      cases := cases + more;
    }
    assert matrices[..|matrices|] == matrices;
    if |cases| != CaseCount(matrices) {
      return Err(());
    }
    return Ok(cases);
  }

  lemma BlockStays<V>(lane: Str, matrices: seq<Matrix<V>>, m: nat, diagnostic: set<Str>,
      cases: seq<PlannedCase<V>>, more: seq<PlannedCase<V>>)
    requires m < |matrices| && Block(lane, matrices, m, diagnostic, cases)
    ensures Block(lane, matrices, m, diagnostic, cases + more)
  {
    hide Planned, Volume, Sizes;
  }

  lemma BlockAdded<V>(lane: Str, matrices: seq<Matrix<V>>, m: nat, diagnostic: set<Str>,
      cases: seq<PlannedCase<V>>, more: seq<PlannedCase<V>>)
    requires m < |matrices| && |cases| == CaseCount(matrices[..m])
    requires |more| == Volume(Sizes(matrices[m].dimensions))
    requires forall j :: 0 <= j < |more| ==>
      more[j] == Planned(lane, matrices[m], j, |cases| + j + 1, diagnostic)
    ensures Block(lane, matrices, m, diagnostic, cases + more)
  {
    hide Planned, Volume, Sizes;
    assert forall k :: |cases| <= k < |cases| + |more| ==> (cases + more)[k] == more[k - |cases|];
  }

  /** The inner loop: the cases of one matrix, numbered on from the ordinal reached. */
  method Cases<V>(lane: Str, matrix: Matrix<V>, reached: nat, diagnostic: set<Str>)
    returns (cases: seq<PlannedCase<V>>)
    ensures |cases| == Volume(Sizes(matrix.dimensions))
    ensures forall j :: 0 <= j < |cases| ==> cases[j] == Planned(lane, matrix, j, reached + j + 1, diagnostic)
  {
    hide Planned, Volume, Sizes;
    cases := [];
    var ordinal := reached;
    var combinations := Product(matrix.dimensions);
    for k := 0 to |combinations|
      invariant |cases| == k && ordinal == reached + k
      invariant forall j :: 0 <= j < k ==> cases[j] == Planned(lane, matrix, j, reached + j + 1, diagnostic)
    {
      ordinal := ordinal + 1;
      var next := Case(lane, matrix, k, combinations, ordinal, diagnostic);
      cases := cases + [next];
    }
  }

  method Case<V>(lane: Str, matrix: Matrix<V>, k: nat, combinations: seq<seq<V>>, ordinal: nat, diagnostic: set<Str>)
    returns (c: PlannedCase<V>)
    requires combinations == Product(matrix.dimensions) && k < |combinations|
    ensures c == Planned(lane, matrix, k, ordinal, diagnostic)
  {
    ProductAt(matrix.dimensions, k);
    var id := CaseId(lane, matrix.id, ordinal);
    return PlannedCase(id, matrix.id, ordinal, Bound(matrix.dimensions, combinations[k]), id in diagnostic);
  }

  /** A combination of a matrix, with the position its case takes. */
  predicate Cell<V>(matrices: seq<Matrix<V>>, k: nat, m: nat, j: nat) {
    m < |matrices| && j < Volume(Sizes(matrices[m].dimensions)) && k == CaseCount(matrices[..m]) + j
  }

  /** Every position in the plan belongs to a combination, and to only one. */
  lemma {:induction false} EveryCaseHasACell<V>(matrices: seq<Matrix<V>>, k: nat) returns (m: nat, j: nat)
    requires k < CaseCount(matrices)
    ensures Cell(matrices, k, m, j)
    ensures forall p, q :: Cell(matrices, k, p, q) ==> p == m && q == j
  {
    var n := |matrices| - 1;
    var front := matrices[..n];
    if k < CaseCount(front) {
      m, j := EveryCaseHasACell(front, k);
      assert front[..m] == matrices[..m];
    } else {
      m, j := n, k - CaseCount(front);
    }
    forall p, q | Cell(matrices, k, p, q) ensures p == m && q == j {
      CellsDiffer(matrices, k, m, j, p, q);
      CellsDiffer(matrices, k, p, q, m, j);
    }
  }

  lemma CellsDiffer<V>(matrices: seq<Matrix<V>>, k: nat, m: nat, j: nat, p: nat, q: nat)
    requires Cell(matrices, k, m, j) && Cell(matrices, k, p, q)
    ensures m >= p && (m == p ==> j == q)
  {
    hide Volume, Sizes;
    if m < p {
      assert matrices[..m + 1][..m] == matrices[..m];
      CaseCountGrows(matrices, m + 1, p);
    }
  }

  lemma {:induction false} CaseCountGrows<V>(matrices: seq<Matrix<V>>, a: nat, b: nat)
    requires a <= b <= |matrices|
    ensures CaseCount(matrices[..a]) <= CaseCount(matrices[..b])
  {
    if a < b {
      CaseCountGrows(matrices, a, b - 1);
      assert matrices[..b][..b - 1] == matrices[..b - 1];
    }
  }

  lemma PaddedReads(n: nat)
    ensures DigitsValue(Padded(n)) == n
    ensures forall i :: 0 <= i < |Padded(n)| ==> Padded(n)[i] != DOT
  {
    DecimalReads(n);
    var d := Decimal(n);
    if |d| < 4 {
      LeadingZeros(4 - |d|, d);
    }
  }

  lemma {:induction false} LeadingZeros(n: nat, d: Str)
    requires d != []
    ensures DigitsValue(Zeros(n) + d) == DigitsValue(d)
    decreases |d|
  {
    var k := |d| - 1;
    assert (Zeros(n) + d)[..n + k] == Zeros(n) + d[..k];
    if k > 0 {
      LeadingZeros(n, d[..k]);
    } else {
      assert Zeros(n) + d[..k] == Zeros(n);
      OnlyZeros(n);
    }
  }

  lemma {:induction false} OnlyZeros(n: nat)
    ensures DigitsValue(Zeros(n)) == 0
  {
    if n > 0 {
      OnlyZeros(n - 1);
      assert Zeros(n)[..n - 1] == Zeros(n - 1);
    }
  }

  /** The lane, the matrix and the number between dots; the number in digits, with zeros up to four. */
  ghost predicate IsCaseId(id: Str, lane: Str, matrix: Str, n: nat) {
    exists z, d :: Spelling.WritesNat(n, d) && id == lane + [0x2E] + matrix + [0x2E] + (z + d)
      && |z| == (if |d| < 4 then 4 - |d| else 0) && forall i :: 0 <= i < |z| ==> z[i] == 0x30
  }

  lemma CaseIdReads(lane: Str, matrix: Str, n: nat)
    ensures IsCaseId(CaseId(lane, matrix, n), lane, matrix, n)
  {
    Spelling.DecimalWrites(n);
    hide Spelling.WritesNat;
    var d := Decimal(n);
    var z := Zeros(if |d| < 4 then 4 - |d| else 0);
    assert Padded(n) == z + d;
  }

  /** The case of a plan that has place j among the combinations of matrix m: its number is its position,
      its id is written from that number, it is diagnostic exactly when its id is listed, and it gives
      every dimension whose name no later one repeats the value its combination picks. */
  lemma CaseInFull<V>(lane: Str, matrices: seq<Matrix<V>>, diagnostic: set<Str>, cases: seq<PlannedCase<V>>,
      k: nat, m: nat, t: seq<nat>)
    requires m < |matrices| && IsTuple(Sizes(matrices[m].dimensions), t)
    requires Block(lane, matrices, m, diagnostic, cases)
    requires k == CaseCount(matrices[..m]) + Rank(Sizes(matrices[m].dimensions), t)
    ensures k < |cases| && cases[k].ordinal == k + 1 && cases[k].matrixId == matrices[m].id
    ensures IsCaseId(cases[k].caseId, lane, matrices[m].id, k + 1)
    ensures cases[k].diagnosticOnly <==> cases[k].caseId in diagnostic
    ensures var dims := matrices[m].dimensions;
      forall i :: 0 <= i < |t| && (forall j :: i < j < |t| ==> dims[j].id != dims[i].id) ==>
        dims[i].id in cases[k].parameters && cases[k].parameters[dims[i].id] == dims[i].values[t[i]]
  {
    hide Planned, Volume, IsCaseId, Bound, Rank;
    RankIsABijection(Sizes(matrices[m].dimensions), t);
    PlannedInFull(lane, matrices[m], t, k + 1, diagnostic);
  }

  lemma PlannedInFull<V>(lane: Str, matrix: Matrix<V>, t: seq<nat>, n: nat, diagnostic: set<Str>)
    requires IsTuple(Sizes(matrix.dimensions), t)
    ensures Rank(Sizes(matrix.dimensions), t) < Volume(Sizes(matrix.dimensions))
    ensures var c := Planned(lane, matrix, Rank(Sizes(matrix.dimensions), t), n, diagnostic);
      && c.ordinal == n && c.matrixId == matrix.id && IsCaseId(c.caseId, lane, matrix.id, n)
      && (c.diagnosticOnly <==> c.caseId in diagnostic)
      && var dims := matrix.dimensions;
      forall i :: 0 <= i < |t| && (forall j :: i < j < |t| ==> dims[j].id != dims[i].id) ==>
        dims[i].id in c.parameters && c.parameters[dims[i].id] == dims[i].values[t[i]]
  {
    hide Volume, IsCaseId, Rank, Bound, CaseId;
    var dims := matrix.dimensions;
    RankIsABijection(Sizes(dims), t);
    CaseIdReads(lane, matrix.id, n);
    forall i | 0 <= i < |t| && (forall j :: i < j < |t| ==> dims[j].id != dims[i].id)
      ensures dims[i].id in Bound(dims, Picked(dims, t))
      ensures Bound(dims, Picked(dims, t))[dims[i].id] == dims[i].values[t[i]]
    {
      BoundAt(dims, Picked(dims, t), i);
    }
  }

  /** What follows the last dot. */
  function Suffix(s: Str): Str {
    if s == [] || s[|s| - 1] == DOT then [] else Suffix(s[..|s| - 1]) + [s[|s| - 1]]
  }

  lemma {:induction false} SuffixOf(p: Str, x: Str)
    requires forall i :: 0 <= i < |x| ==> x[i] != DOT
    ensures Suffix(p + [DOT] + x) == x
  {
    var s := p + [DOT] + x;
    if x != [] {
      SuffixOf(p, x[..|x| - 1]);
      assert s[..|s| - 1] == p + [DOT] + x[..|x| - 1];
    }
  }

  /** Cases with different ordinals have different ids, whatever dots their lanes and matrices hold. */
  lemma CaseIdsAreDistinct(lane: Str, matrix: Str, otherLane: Str, otherMatrix: Str, a: nat, b: nat)
    requires CaseId(lane, matrix, a) == CaseId(otherLane, otherMatrix, b)
    ensures a == b
  {
    hide Padded, Decimal, DigitsValue, Suffix;
    PaddedReads(a);
    PaddedReads(b);
    SuffixOf(lane + [DOT] + matrix, Padded(a));
    SuffixOf(otherLane + [DOT] + otherMatrix, Padded(b));
  }
}
