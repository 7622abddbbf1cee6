/** Finite sums, and the triangular factorisation and solves of the Gaussian-process search, in exact
    reals. */
module LinearAlgebra {

  type Vector = seq<real>
  type Matrix = seq<Vector>

  /** Out of range, a vector or a matrix reads as zero. */
  function At(v: Vector, i: nat): real {
    if i < |v| then v[i] else 0.0
  }

  function Cell(m: Matrix, i: nat, j: nat): real {
    if i < |m| then At(m[i], j) else 0.0
  }

  ghost predicate Square(m: Matrix) {
    forall i | 0 <= i < |m| :: |m[i]| == |m|
  }

  ghost predicate Symmetric(m: Matrix) {
    forall i: nat, j: nat | i < |m| && j < |m| :: Cell(m, i, j) == Cell(m, j, i)
  }

  /******* Sums *******/

  function Sum(f: nat -> real, lo: nat, hi: nat): real
    decreases hi
  {
    if hi <= lo then 0.0 else Sum(f, lo, hi - 1) + f(hi - 1)
  }

  lemma {:induction false} SumSame(f: nat -> real, g: nat -> real, lo: nat, hi: nat)
    requires forall k: nat | lo <= k < hi :: f(k) == g(k)
    ensures Sum(f, lo, hi) == Sum(g, lo, hi)
    decreases hi
  {
    if lo < hi {
      SumSame(f, g, lo, hi - 1);
    }
  }

  lemma {:induction false} SumZero(f: nat -> real, lo: nat, hi: nat)
    requires forall k: nat | lo <= k < hi :: f(k) == 0.0
    ensures Sum(f, lo, hi) == 0.0
    decreases hi
  {
    if lo < hi {
      SumZero(f, lo, hi - 1);
    }
  }

  lemma {:induction false} SumNonNegative(f: nat -> real, lo: nat, hi: nat)
    requires forall k: nat | lo <= k < hi :: f(k) >= 0.0
    ensures Sum(f, lo, hi) >= 0.0
    decreases hi
  {
    if lo < hi {
      SumNonNegative(f, lo, hi - 1);
    }
  }

  lemma {:induction false} SumSplit(f: nat -> real, lo: nat, mid: nat, hi: nat)
    requires lo <= mid <= hi
    ensures Sum(f, lo, hi) == Sum(f, lo, mid) + Sum(f, mid, hi)
    decreases hi
  {
    if mid < hi {
      SumSplit(f, lo, mid, hi - 1);
    }
  }

  lemma {:induction false} SumAdd(f: nat -> real, g: nat -> real, h: nat -> real, lo: nat, hi: nat)
    requires forall k: nat | lo <= k < hi :: h(k) == f(k) + g(k)
    ensures Sum(h, lo, hi) == Sum(f, lo, hi) + Sum(g, lo, hi)
    decreases hi
  {
    if lo < hi {
      SumAdd(f, g, h, lo, hi - 1);
    }
  }

  lemma {:induction false} SumScale(c: real, f: nat -> real, h: nat -> real, lo: nat, hi: nat)
    requires forall k: nat | lo <= k < hi :: h(k) == c * f(k)
    ensures Sum(h, lo, hi) == c * Sum(f, lo, hi)
    decreases hi
  {
    if lo < hi {
      SumScale(c, f, h, lo, hi - 1);
      assert h(hi - 1) == c * f(hi - 1);
    }
  }

  /** One row, and one column, of a table of terms. */
  function RowOf(f: (nat, nat) -> real, i: nat): nat -> real {
    (j: nat) => f(i, j)
  }

  function ColumnOf(f: (nat, nat) -> real, j: nat): nat -> real {
    (i: nat) => f(i, j)
  }

  function RowSum(f: (nat, nat) -> real, m: nat): nat -> real {
    (i: nat) => Sum(RowOf(f, i), 0, m)
  }

  function ColumnSum(f: (nat, nat) -> real, n: nat): nat -> real {
    (j: nat) => Sum(ColumnOf(f, j), 0, n)
  }

  lemma {:induction false} SumSwap(f: (nat, nat) -> real, n: nat, m: nat)
    ensures Sum(RowSum(f, m), 0, n) == Sum(ColumnSum(f, n), 0, m)
    decreases n
  {
    if n == 0 {
      SumZero(ColumnSum(f, 0), 0, m);
    } else {
      SumSwap(f, n - 1, m);
      var last := RowOf(f, n - 1);
      forall j: nat | j < m ensures ColumnSum(f, n)(j) == ColumnSum(f, n - 1)(j) + last(j) {
      }
      SumAdd(ColumnSum(f, n - 1), last, ColumnSum(f, n), 0, m);
      assert RowSum(f, m)(n - 1) == Sum(last, 0, m);
    }
  }

  /******* Factorisation *******/

  const JITTER := 0.000000000001

  function Max(x: real, y: real): real {
    if x >= y then x else y
  }

  ghost predicate IsSqrt(sqrt: real -> real) {
    forall x | x >= 0.0 :: sqrt(x) >= 0.0 && sqrt(x) * sqrt(x) == x
  }

  /** The terms of the product of two rows. */
  function Products(m: Matrix, i: nat, j: nat): nat -> real {
    (k: nat) => Cell(m, i, k) * Cell(m, j, k)
  }

  /** What is left of an entry once the columns before it are accounted for. */
  function Residual(a: Matrix, l: Matrix, i: nat, j: nat): real {
    Cell(a, i, j) - Sum(Products(l, i, j), 0, j)
  }

  /** The defining equation of one entry of the factor. */
  ghost predicate Computed(a: Matrix, l: Matrix, i: nat, j: nat) {
    if i == j then
      Cell(l, i, i) > 0.0 && Cell(l, i, i) * Cell(l, i, i) == Max(Residual(a, l, i, i), JITTER)
    else
      Cell(l, i, j) * Cell(l, j, j) == Residual(a, l, i, j)
  }

  ghost predicate Factored(a: Matrix, l: Matrix) {
    && |l| == |a| && Square(l)
    && (forall i: nat, j: nat | i < j < |l| :: Cell(l, i, j) == 0.0)
    && (forall i: nat, j: nat | j <= i < |l| :: Computed(a, l, i, j))
  }

  /** The first rows, and the first entries of one more row, are done; the rest is zero. */
  ghost predicate FactoredUpTo(a: Matrix, l: Matrix, row: nat, column: nat) {
    && |l| == |a| && Square(l)
    && (forall i: nat, j: nat | i < |l| && j < |l| && (i < j || row < i || (i == row && column <= j)) ::
        Cell(l, i, j) == 0.0)
    && (forall i: nat, j: nat | j <= i < |l| && (i < row || (i == row && j < column)) :: Computed(a, l, i, j))
  }

  lemma ComputedSame(a: Matrix, l: Matrix, l': Matrix, i: nat, j: nat)
    requires j <= i && forall k: nat | k <= j :: Cell(l', i, k) == Cell(l, i, k) && Cell(l', j, k) == Cell(l, j, k)
    ensures Residual(a, l', i, j) == Residual(a, l, i, j)
    ensures Computed(a, l', i, j) <==> Computed(a, l, i, j)
  {
    SumSame(Products(l', i, j), Products(l, i, j), 0, j);
  }

  function WithCell(l: Matrix, row: nat, column: nat, x: real): Matrix
    requires row < |l| && column < |l[row]|
  {
    l[row := l[row][column := x]]
  }

  lemma CellsOf(l: Matrix, row: nat, column: nat, x: real)
    requires row < |l| && column < |l[row]|
    ensures forall i: nat, j: nat ::
      Cell(WithCell(l, row, column, x), i, j) == if i == row && j == column then x else Cell(l, i, j)
  {
  }

  lemma NewResidual(a: Matrix, l: Matrix, row: nat, column: nat, x: real)
    requires column <= row < |l| && column < |l[row]|
    ensures var l' := WithCell(l, row, column, x);
      && Residual(a, l', row, column) == Residual(a, l, row, column)
      && Cell(l', row, column) == x && (row != column ==> Cell(l', column, column) == Cell(l, column, column))
  {
    var l' := WithCell(l, row, column, x);
    CellsOf(l, row, column, x);
    SumSame(Products(l', row, column), Products(l, row, column), 0, column);
  }

  /** The new entry satisfies its equation. */
  lemma NewComputed(a: Matrix, l: Matrix, row: nat, column: nat, x: real)
    requires column <= row < |l| && column < |l[row]|
    requires if row == column then x > 0.0 && x * x == Max(Residual(a, l, row, row), JITTER)
      else x * Cell(l, column, column) == Residual(a, l, row, column)
    ensures Computed(a, WithCell(l, row, column, x), row, column)
  {
    NewResidual(a, l, row, column, x);
  }

  lemma OneMoreComputed(a: Matrix, l: Matrix, row: nat, column: nat, x: real)
    requires FactoredUpTo(a, l, row, column) && column <= row < |l|
    requires if row == column then x > 0.0 && x * x == Max(Residual(a, l, row, row), JITTER)
      else x * Cell(l, column, column) == Residual(a, l, row, column)
    ensures FactoredUpTo(a, WithCell(l, row, column, x), row, column + 1)
  {
    var l' := WithCell(l, row, column, x);
    CellsOf(l, row, column, x);
    NewComputed(a, l, row, column, x);
    forall i: nat, j: nat | j <= i < |l| && (i < row || (i == row && j < column)) ensures Computed(a, l', i, j) {
      ComputedSame(a, l, l', i, j);
    }
  }

  /** `_cholesky`, cell by cell into a preallocated table. */
  method Cholesky(matrix: Matrix, sqrt: real -> real) returns (result: array<Vector>)
    requires Square(matrix) && IsSqrt(sqrt)
    ensures fresh(result) && Factored(matrix, result[..])
  {
    var n := |matrix|;
    result := new Vector[n](_ => seq(n, _ => 0.0));
    for row := 0 to n
      invariant FactoredUpTo(matrix, result[..], row, 0)
    {
      for column := 0 to row + 1
        invariant FactoredUpTo(matrix, result[..], row, column)
      {
        var rows := result[..];
        var residual := Residual(matrix, rows, row, column);
        var entry;
        if row == column {
          entry := sqrt(Max(residual, JITTER));
        } else {
          assert Computed(matrix, rows, column, column);
          entry := residual / Cell(rows, column, column);
        }
        OneMoreComputed(matrix, rows, row, column, entry);
        result[row] := result[row][column := entry];
        assert result[..] == WithCell(rows, row, column, entry);
      }
    }
  }

  /******* What the factor multiplies to *******/

  /** An entry of the factor times its transpose. */
  function Gram(l: Matrix, i: nat, j: nat): real {
    Sum(Products(l, i, j), 0, |l|)
  }

  /** How much the floor under the pivots adds to a diagonal entry. */
  function Lift(a: Matrix, l: Matrix, i: nat): real {
    Max(Residual(a, l, i, i), JITTER) - Residual(a, l, i, i)
  }

  /** The matrix with the lifts on its diagonal. */
  function Lifted(a: Matrix, l: Matrix, i: nat, j: nat): real {
    Cell(a, i, j) + if i == j then Lift(a, l, i) else 0.0
  }

  lemma FactorEntry(a: Matrix, l: Matrix, i: nat, j: nat)
    requires Factored(a, l) && j <= i < |a|
    ensures Gram(l, i, j) == Lifted(a, l, i, j)
  {
    SumSplit(Products(l, i, j), 0, j + 1, |l|);
    SumZero(Products(l, i, j), j + 1, |l|);
    assert Computed(a, l, i, j);
  }

  /** The factor reproduces the matrix, up to a non-negative diagonal that vanishes exactly where the
      pivot does not fall below the floor. */
  lemma FactorProduct(a: Matrix, l: Matrix)
    requires Factored(a, l) && Symmetric(a)
    ensures forall i: nat, j: nat | i < |a| && j < |a| :: Gram(l, i, j) == Lifted(a, l, i, j)
    ensures forall i: nat | i < |a| ::
      && Lift(a, l, i) >= 0.0 && (Lift(a, l, i) == 0.0 <==> Residual(a, l, i, i) >= 0.000000000001)
      && (Lift(a, l, i) > 0.0 ==> Residual(a, l, i, i) + Lift(a, l, i) == 0.000000000001)
  {
    forall i: nat, j: nat | i < |a| && j < |a| ensures Gram(l, i, j) == Lifted(a, l, i, j) {
      if j <= i {
        FactorEntry(a, l, i, j);
      } else {
        FactorEntry(a, l, j, i);
        SumSame(Products(l, i, j), Products(l, j, i), 0, |l|);
      }
    }
  }

  /******* Triangular solves *******/

  /** The terms of a row, and of a column, of a matrix applied to a vector. */
  function RowTerms(m: Matrix, x: Vector, i: nat): nat -> real {
    (k: nat) => Cell(m, i, k) * At(x, k)
  }

  function ColumnTerms(m: Matrix, x: Vector, i: nat): nat -> real {
    (k: nat) => Cell(m, k, i) * At(x, k)
  }

  ghost predicate Solvable(m: Matrix) {
    forall i: nat | i < |m| :: Cell(m, i, i) != 0.0
  }

  /** The lower triangle of the matrix applied to `x` is `v`. */
  ghost predicate SolvesLower(m: Matrix, x: Vector, v: Vector) {
    |x| == |v| && forall i: nat | i < |v| :: Sum(RowTerms(m, x, i), 0, i + 1) == v[i]
  }

  /** The transpose of the lower triangle applied to `x` is `v`, from row `from` on. */
  ghost predicate SolvesUpper(m: Matrix, x: Vector, v: Vector, from: nat) {
    |x| == |v| && forall i: nat | from <= i < |v| :: Sum(ColumnTerms(m, x, i), i, |v|) == v[i]
  }

  lemma {:induction false} SameColumn(m: Matrix, x: Vector, y: Vector, i: nat, lo: nat, hi: nat)
    requires forall k: nat | lo <= k < hi :: At(x, k) == At(y, k)
    ensures Sum(ColumnTerms(m, x, i), lo, hi) == Sum(ColumnTerms(m, y, i), lo, hi)
  {
    forall k: nat | lo <= k < hi ensures ColumnTerms(m, x, i)(k) == ColumnTerms(m, y, i)(k) {
      assert At(x, k) == At(y, k);
    }
    SumSame(ColumnTerms(m, x, i), ColumnTerms(m, y, i), lo, hi);
  }

  lemma {:induction false} SameRow(m: Matrix, x: Vector, y: Vector, i: nat, lo: nat, hi: nat)
    requires forall k: nat | lo <= k < hi :: At(x, k) == At(y, k)
    ensures Sum(RowTerms(m, x, i), lo, hi) == Sum(RowTerms(m, y, i), lo, hi)
  {
    forall k: nat | lo <= k < hi ensures RowTerms(m, x, i)(k) == RowTerms(m, y, i)(k) {
      assert At(x, k) == At(y, k);
    }
    SumSame(RowTerms(m, x, i), RowTerms(m, y, i), lo, hi);
  }

  /** `_forward`. */
  method Forward(matrix: Matrix, values: Vector) returns (result: Vector)
    requires Solvable(matrix) && |values| == |matrix|
    ensures SolvesLower(matrix, result, values)
  {
    result := [];
    for row := 0 to |values|
      invariant SolvesLower(matrix, result, values[..row])
    {
      var residual := values[row] - Sum(RowTerms(matrix, result, row), 0, row);
      var longer := result + [residual / Cell(matrix, row, row)];
      forall i: nat | i <= row ensures Sum(RowTerms(matrix, longer, i), 0, i + 1) == values[i] {
        SameRow(matrix, longer, result, i, 0, if i < row then i + 1 else row);
      }
      result := longer;
    }
  }

  lemma {:induction false} FirstColumnTerm(m: Matrix, x: Vector, i: nat, n: nat)
    requires i < n
    ensures Sum(ColumnTerms(m, x, i), i, n) == Cell(m, i, i) * At(x, i) + Sum(ColumnTerms(m, x, i), i + 1, n)
  {
    SumSplit(ColumnTerms(m, x, i), i, i + 1, n);
    assert Sum(ColumnTerms(m, x, i), i, i) == 0.0;
  }

  lemma BackwardEntry(m: Matrix, x: Vector, row: nat, n: nat, entry: real, value: real)
    requires row < |x| == n
    requires Cell(m, row, row) * entry == value - Sum(ColumnTerms(m, x, row), row + 1, n)
    ensures Sum(ColumnTerms(m, x[row := entry], row), row, n) == value
  {
    FirstColumnTerm(m, x[row := entry], row, n);
    SameColumn(m, x[row := entry], x, row, row + 1, n);
    assert At(x[row := entry], row) == entry;
  }

  lemma BackwardStep(m: Matrix, x: Vector, v: Vector, row: nat, entry: real)
    requires row < |v| == |x| && SolvesUpper(m, x, v, row + 1)
    requires Cell(m, row, row) * entry == v[row] - Sum(ColumnTerms(m, x, row), row + 1, |v|)
    ensures SolvesUpper(m, x[row := entry], v, row)
  {
    var x' := x[row := entry];
    BackwardEntry(m, x, row, |v|, entry, v[row]);
    forall i: nat | row < i < |v| ensures Sum(ColumnTerms(m, x', i), i, |v|) == v[i] {
      SameColumn(m, x', x, i, i, |v|);
    }
  }

  /** `_backward`, from the last row up into a preallocated list. */
  method Backward(matrix: Matrix, values: Vector) returns (result: array<real>)
    requires Solvable(matrix) && |values| == |matrix|
    ensures fresh(result) && SolvesUpper(matrix, result[..], values, 0)
  {
    var n := |values|;
    result := new real[n](_ => 0.0);
    var row := n;
    while row > 0
      invariant 0 <= row <= n && SolvesUpper(matrix, result[..], values, row)
    {
      row := row - 1;
      var residual := values[row] - Sum(ColumnTerms(matrix, result[..], row), row + 1, n);
      ghost var earlier := result[..];
      var entry := residual / Cell(matrix, row, row);
      BackwardStep(matrix, earlier, values, row, entry);
      result[row] := entry;
      assert result[..] == earlier[row := entry];
    }
  }

  lemma {:induction false} LowerUnique(m: Matrix, x: Vector, y: Vector, v: Vector, n: nat)
    requires Solvable(m) && n <= |v| == |m| && SolvesLower(m, x, v) && SolvesLower(m, y, v)
    ensures x[..n] == y[..n]
  {
    if n > 0 {
      LowerUnique(m, x, y, v, n - 1);
      var i := n - 1;
      assert forall k: nat | k < i :: x[k] == x[..i][k] && y[k] == y[..i][k];
      SameRow(m, x, y, i, 0, i);
      assert Cell(m, i, i) * x[i] == Cell(m, i, i) * y[i];
      SameFactor(Cell(m, i, i), x[i], y[i]);
    }
  }

  lemma SameFactor(c: real, x: real, y: real)
    requires c != 0.0 && c * x == c * y
    ensures x == y
  {
  }

  lemma EqualProducts(c: real, x: real, y: real, a: real, b: real)
    requires c != 0.0 && a == c * x && b == c * y && a == b
    ensures x == y
  {
    SameFactor(c, x, y);
  }

  /** The first term of a column sum, as a number of its own. */
  lemma FirstTerm(m: Matrix, x: Vector, i: nat, n: nat) returns (first: real)
    requires i < n
    ensures first == Cell(m, i, i) * At(x, i)
    ensures Sum(ColumnTerms(m, x, i), i, n) == first + Sum(ColumnTerms(m, x, i), i + 1, n)
  {
    FirstColumnTerm(m, x, i, n);
    first := Cell(m, i, i) * At(x, i);
  }

  lemma {:induction false} UpperEntry(m: Matrix, x: Vector, y: Vector, i: nat, n: nat)
    requires i < n && Cell(m, i, i) != 0.0
    requires forall k: nat | i < k < n :: At(x, k) == At(y, k)
    requires Sum(ColumnTerms(m, x, i), i, n) == Sum(ColumnTerms(m, y, i), i, n)
    ensures At(x, i) == At(y, i)
  {
    SameColumn(m, x, y, i, i + 1, n);
    var a := FirstTerm(m, x, i, n);
    var b := FirstTerm(m, y, i, n);
    EqualProducts(Cell(m, i, i), At(x, i), At(y, i), a, b);
  }

  lemma {:induction false} UpperUnique(m: Matrix, x: Vector, y: Vector, v: Vector, from: nat)
    requires Solvable(m) && from <= |v| == |m| && SolvesUpper(m, x, v, from) && SolvesUpper(m, y, v, from)
    ensures x[from..] == y[from..]
    decreases |v| - from
  {
    if from < |v| {
      UpperUnique(m, x, y, v, from + 1);
      assert forall k: nat | from < k < |v| ::
        x[k] == x[from + 1..][k - from - 1] && y[k] == y[from + 1..][k - from - 1];
      UpperEntry(m, x, y, from, |v|);
      assert x[from..] == [x[from]] + x[from + 1..] && y[from..] == [y[from]] + y[from + 1..];
    }
  }
}
