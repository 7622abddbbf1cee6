/** What the factorisation and the two solves compute together: the posterior of the Gaussian process. */
module GaussianProcess {
  import opened LinearAlgebra

  function InnerTerms(u: Vector, v: Vector): nat -> real {
    (k: nat) => At(u, k) * At(v, k)
  }

  function Inner(u: Vector, v: Vector): real {
    Sum(InnerTerms(u, v), 0, |u|)
  }

  /** The transpose of a matrix applied to a vector. */
  function Transposed(m: Matrix, x: Vector): (y: Vector)
    ensures |y| == |m|
    ensures forall k: nat | k < |m| :: y[k] == Sum(ColumnTerms(m, x, k), 0, |m|)
  {
    seq(|m|, (k: nat) => Sum(ColumnTerms(m, x, k), 0, |m|))
  }

  function LiftedTerms(a: Matrix, l: Matrix, x: Vector, i: nat): nat -> real {
    (j: nat) => Lifted(a, l, i, j) * At(x, j)
  }

  /** `x` solves the system of the lifted matrix. */
  ghost predicate SolvesLifted(a: Matrix, l: Matrix, x: Vector, v: Vector) {
    |x| == |v| && forall i: nat | i < |v| :: Sum(LiftedTerms(a, l, x, i), 0, |v|) == v[i]
  }

  /******* The two triangles make the whole *******/

  lemma LowerRow(a: Matrix, l: Matrix, y: Vector, i: nat)
    requires Factored(a, l) && i < |l|
    ensures Sum(RowTerms(l, y, i), 0, |l|) == Sum(RowTerms(l, y, i), 0, i + 1)
  {
    SumSplit(RowTerms(l, y, i), 0, i + 1, |l|);
    SumZero(RowTerms(l, y, i), i + 1, |l|);
  }

  lemma UpperColumn(a: Matrix, l: Matrix, x: Vector, i: nat)
    requires Factored(a, l) && i < |l|
    ensures Sum(ColumnTerms(l, x, i), 0, |l|) == Sum(ColumnTerms(l, x, i), i, |l|)
  {
    SumSplit(ColumnTerms(l, x, i), 0, i, |l|);
    SumZero(ColumnTerms(l, x, i), 0, i);
  }

  lemma UpperIsTransposed(a: Matrix, l: Matrix, x: Vector, y: Vector)
    requires Factored(a, l) && |x| == |y| == |l|
    ensures SolvesUpper(l, x, y, 0) <==> y == Transposed(l, x)
  {
    forall i: nat | i < |l| ensures Transposed(l, x)[i] == Sum(ColumnTerms(l, x, i), i, |l|) {
      UpperColumn(a, l, x, i);
    }
  }

  lemma Reorder(a: real, b: real, c: real)
    ensures a * b * c == c * (a * b) == a * (b * c) == b * (a * c)
  {
  }

  function GramTerms(l: Matrix, x: Vector, i: nat): nat -> real {
    (j: nat) => Gram(l, i, j) * At(x, j)
  }

  function TripleTerms(l: Matrix, x: Vector, i: nat): (nat, nat) -> real {
    (j: nat, k: nat) => Cell(l, i, k) * Cell(l, j, k) * At(x, j)
  }

  lemma TripleTerm(l: Matrix, x: Vector, i: nat, j: nat, k: nat)
    ensures TripleTerms(l, x, i)(j, k) == At(x, j) * Products(l, i, j)(k)
    ensures TripleTerms(l, x, i)(j, k) == Cell(l, i, k) * ColumnTerms(l, x, k)(j)
  {
    var a, b, c := Cell(l, i, k), Cell(l, j, k), At(x, j);
    Reorder(a, b, c);
    assert TripleTerms(l, x, i)(j, k) == a * b * c;
    assert Products(l, i, j)(k) == a * b && ColumnTerms(l, x, k)(j) == b * c;
  }

  lemma TripleRow(l: Matrix, x: Vector, i: nat, j: nat)
    ensures RowSum(TripleTerms(l, x, i), |l|)(j) == GramTerms(l, x, i)(j)
  {
    var f := RowOf(TripleTerms(l, x, i), j);
    forall k: nat | k < |l| ensures f(k) == At(x, j) * Products(l, i, j)(k) {
      TripleTerm(l, x, i, j, k);
    }
    SumScale(At(x, j), Products(l, i, j), f, 0, |l|);
    var g := Gram(l, i, j);
    assert RowSum(TripleTerms(l, x, i), |l|)(j) == At(x, j) * g;
    Commute(At(x, j), g);
  }

  lemma TripleColumn(l: Matrix, x: Vector, i: nat, k: nat)
    requires k < |l|
    ensures ColumnSum(TripleTerms(l, x, i), |l|)(k) == RowTerms(l, Transposed(l, x), i)(k)
  {
    var f := ColumnOf(TripleTerms(l, x, i), k);
    forall j: nat | j < |l| ensures f(j) == Cell(l, i, k) * ColumnTerms(l, x, k)(j) {
      TripleTerm(l, x, i, j, k);
    }
    SumScale(Cell(l, i, k), ColumnTerms(l, x, k), f, 0, |l|);
  }

  /** A row of the factor times its transpose times a vector, associated both ways. */
  lemma GramApplies(l: Matrix, x: Vector, i: nat)
    ensures Sum(GramTerms(l, x, i), 0, |l|) == Sum(RowTerms(l, Transposed(l, x), i), 0, |l|)
  {
    var f, n := TripleTerms(l, x, i), |l|;
    forall j: nat | j < n ensures RowSum(f, n)(j) == GramTerms(l, x, i)(j) {
      TripleRow(l, x, i, j);
    }
    forall k: nat | k < n ensures ColumnSum(f, n)(k) == RowTerms(l, Transposed(l, x), i)(k) {
      TripleColumn(l, x, i, k);
    }
    SumSame(RowSum(f, n), GramTerms(l, x, i), 0, n);
    SumSwap(f, n, n);
    SumSame(ColumnSum(f, n), RowTerms(l, Transposed(l, x), i), 0, n);
  }

  lemma LiftedTermIs(a: Matrix, l: Matrix, x: Vector, i: nat, j: nat)
    requires Gram(l, i, j) == Lifted(a, l, i, j)
    ensures LiftedTerms(a, l, x, i)(j) == GramTerms(l, x, i)(j)
  {
  }

  lemma LiftedRow(a: Matrix, l: Matrix, x: Vector, i: nat)
    requires Factored(a, l) && Symmetric(a) && i < |a|
    ensures Sum(LiftedTerms(a, l, x, i), 0, |l|) == Sum(RowTerms(l, Transposed(l, x), i), 0, |l|)
  {
    FactorProduct(a, l);
    forall j: nat | j < |l| ensures LiftedTerms(a, l, x, i)(j) == GramTerms(l, x, i)(j) {
      LiftedTermIs(a, l, x, i, j);
    }
    SumSame(LiftedTerms(a, l, x, i), GramTerms(l, x, i), 0, |l|);
    GramApplies(l, x, i);
  }

  lemma LiftedIffLower(a: Matrix, l: Matrix, x: Vector, v: Vector)
    requires Factored(a, l) && Symmetric(a) && |x| == |v| == |a|
    ensures SolvesLifted(a, l, x, v) <==> SolvesLower(l, Transposed(l, x), v)
  {
    var q := Transposed(l, x);
    forall i: nat | i < |v| ensures Sum(LiftedTerms(a, l, x, i), 0, |v|) == Sum(RowTerms(l, q, i), 0, i + 1) {
      LiftedRow(a, l, x, i);
      LowerRow(a, l, q, i);
    }
  }

  /** The forward and then the backward solve give the one solution of the lifted system. */
  lemma SolvesExactly(a: Matrix, l: Matrix, y: Vector, x: Vector, v: Vector)
    requires Factored(a, l) && Symmetric(a) && |v| == |a|
    requires SolvesLower(l, y, v) && SolvesUpper(l, x, y, 0)
    ensures SolvesLifted(a, l, x, v)
    ensures forall z | SolvesLifted(a, l, z, v) :: z == x
  {
    UpperIsTransposed(a, l, x, y);
    LiftedIffLower(a, l, x, v);
    DiagonalSolvable(a, l);
    forall z | SolvesLifted(a, l, z, v) ensures z == x {
      LiftedIffLower(a, l, z, v);
      LowerUnique(l, Transposed(l, z), y, v, |v|);
      assert Transposed(l, z) == y;
      UpperIsTransposed(a, l, z, y);
      UpperUnique(l, z, x, y, 0);
    }
  }

  lemma DiagonalSolvable(a: Matrix, l: Matrix)
    requires Factored(a, l)
    ensures Solvable(l)
  {
    forall i: nat | i < |l| ensures Cell(l, i, i) != 0.0 {
      assert Computed(a, l, i, i);
    }
  }

  /******* The variance *******/

  function EnergyTerms(l: Matrix, x: Vector, y: Vector): (nat, nat) -> real {
    (i: nat, k: nat) => Cell(l, i, k) * At(y, k) * At(x, i)
  }

  lemma EnergyTerm(l: Matrix, x: Vector, y: Vector, i: nat, k: nat)
    ensures EnergyTerms(l, x, y)(i, k) == At(x, i) * RowTerms(l, y, i)(k)
    ensures EnergyTerms(l, x, y)(i, k) == At(y, k) * ColumnTerms(l, x, k)(i)
  {
    var a, b, c := Cell(l, i, k), At(y, k), At(x, i);
    Reorder(a, b, c);
    assert EnergyTerms(l, x, y)(i, k) == a * b * c;
    assert RowTerms(l, y, i)(k) == a * b && ColumnTerms(l, x, k)(i) == a * c;
  }

  lemma EnergyRow(l: Matrix, x: Vector, y: Vector, i: nat)
    ensures RowSum(EnergyTerms(l, x, y), |l|)(i) == At(x, i) * Sum(RowTerms(l, y, i), 0, |l|)
  {
    var g := RowOf(EnergyTerms(l, x, y), i);
    forall k: nat | k < |l| ensures g(k) == At(x, i) * RowTerms(l, y, i)(k) {
      EnergyTerm(l, x, y, i, k);
    }
    SumScale(At(x, i), RowTerms(l, y, i), g, 0, |l|);
    assert RowSum(EnergyTerms(l, x, y), |l|)(i) == Sum(g, 0, |l|);
  }

  lemma EnergyColumn(l: Matrix, x: Vector, y: Vector, k: nat)
    ensures ColumnSum(EnergyTerms(l, x, y), |l|)(k) == At(y, k) * Sum(ColumnTerms(l, x, k), 0, |l|)
  {
    var g := ColumnOf(EnergyTerms(l, x, y), k);
    forall i: nat | i < |l| ensures g(i) == At(y, k) * ColumnTerms(l, x, k)(i) {
      EnergyTerm(l, x, y, i, k);
    }
    SumScale(At(y, k), ColumnTerms(l, x, k), g, 0, |l|);
    assert ColumnSum(EnergyTerms(l, x, y), |l|)(k) == Sum(g, 0, |l|);
  }

  lemma EnergyRowIs(l: Matrix, x: Vector, y: Vector, v: Vector, i: nat)
    requires At(v, i) == Sum(RowTerms(l, y, i), 0, |l|)
    ensures RowSum(EnergyTerms(l, x, y), |l|)(i) == InnerTerms(v, x)(i)
  {
    EnergyRow(l, x, y, i);
    Commute(At(v, i), At(x, i));
  }

  lemma EnergyColumnIs(l: Matrix, x: Vector, y: Vector, k: nat)
    requires k < |l|
    ensures ColumnSum(EnergyTerms(l, x, y), |l|)(k) == InnerTerms(y, Transposed(l, x))(k)
  {
    EnergyColumn(l, x, y, k);
    assert At(Transposed(l, x), k) == Sum(ColumnTerms(l, x, k), 0, |l|);
  }

  lemma Commute(a: real, b: real)
    ensures a * b == b * a
  {
  }

  /** The factor applied to `y`, times `x`, is `y` times the transposed factor applied to `x`. */
  lemma Adjoint(l: Matrix, x: Vector, y: Vector, v: Vector)
    requires |v| == |l| == |y| && forall i: nat | i < |l| :: v[i] == Sum(RowTerms(l, y, i), 0, |l|)
    ensures Inner(v, x) == Inner(y, Transposed(l, x))
  {
    var f, n := EnergyTerms(l, x, y), |l|;
    forall i: nat | i < n ensures RowSum(f, n)(i) == InnerTerms(v, x)(i) {
      EnergyRowIs(l, x, y, v, i);
    }
    forall k: nat | k < n ensures ColumnSum(f, n)(k) == InnerTerms(y, Transposed(l, x))(k) {
      EnergyColumnIs(l, x, y, k);
    }
    SumSame(RowSum(f, n), InnerTerms(v, x), 0, n);
    SumSwap(f, n, n);
    SumSame(ColumnSum(f, n), InnerTerms(y, Transposed(l, x)), 0, n);
  }

  /** The squares of the projected covariances add up to the covariances times the solution for them. */
  lemma ProjectedSquares(a: Matrix, l: Matrix, projected: Vector, w: Vector, k: Vector)
    requires Factored(a, l) && Symmetric(a) && |k| == |a|
    requires SolvesLower(l, projected, k) && SolvesLifted(a, l, w, k)
    ensures Inner(projected, projected) == Inner(k, w)
  {
    LiftedIffLower(a, l, w, k);
    DiagonalSolvable(a, l);
    LowerUnique(l, projected, Transposed(l, w), k, |k|);
    assert projected == Transposed(l, w);
    forall i: nat | i < |l| ensures k[i] == Sum(RowTerms(l, projected, i), 0, |l|) {
      LowerRow(a, l, projected, i);
    }
    Adjoint(l, w, projected, k);
  }

  /******* When the factorisation is exact *******/

  function Applied(m: Matrix, x: Vector): (y: Vector)
    ensures |y| == |m|
    ensures forall i: nat | i < |m| :: y[i] == Sum(RowTerms(m, x, i), 0, |m|)
  {
    seq(|m|, (i: nat) => Sum(RowTerms(m, x, i), 0, |m|))
  }

  /** The quadratic form of a matrix. */
  function Quadratic(m: Matrix, x: Vector): real {
    Inner(Applied(m, x), x)
  }

  ghost predicate PositiveSemidefinite(m: Matrix) {
    forall x: Vector | |x| == |m| :: Quadratic(m, x) >= 0.0
  }

  function LiftSquares(a: Matrix, l: Matrix, x: Vector): nat -> real {
    (i: nat) => Lift(a, l, i) * (At(x, i) * At(x, i))
  }

  function LiftTerm(a: Matrix, l: Matrix, x: Vector, i: nat): nat -> real {
    (j: nat) => if i == j then Lift(a, l, i) * At(x, j) else 0.0
  }

  lemma {:induction false} SumSingle(f: nat -> real, i: nat, n: nat)
    requires i < n && forall k: nat | k < n && k != i :: f(k) == 0.0
    ensures Sum(f, 0, n) == f(i)
  {
    SumSplit(f, 0, i, n);
    SumSplit(f, i, i + 1, n);
    SumZero(f, 0, i);
    SumZero(f, i + 1, n);
    assert Sum(f, i, i) == 0.0;
  }

  lemma LiftedTermSplits(a: Matrix, l: Matrix, x: Vector, i: nat, j: nat)
    ensures LiftedTerms(a, l, x, i)(j) == RowTerms(a, x, i)(j) + LiftTerm(a, l, x, i)(j)
  {
    AddTimes(Cell(a, i, j), Lift(a, l, i), At(x, j));
  }

  lemma AddTimes(a: real, b: real, x: real)
    ensures (a + b) * x == a * x + b * x
  {
  }

  lemma LiftedSplits(a: Matrix, l: Matrix, x: Vector, i: nat)
    requires i < |a|
    ensures Sum(LiftedTerms(a, l, x, i), 0, |a|) == Sum(RowTerms(a, x, i), 0, |a|) + Lift(a, l, i) * At(x, i)
  {
    forall j: nat | j < |a| ensures LiftedTerms(a, l, x, i)(j) == RowTerms(a, x, i)(j) + LiftTerm(a, l, x, i)(j) {
      LiftedTermSplits(a, l, x, i, j);
    }
    SumAdd(RowTerms(a, x, i), LiftTerm(a, l, x, i), LiftedTerms(a, l, x, i), 0, |a|);
    SumSingle(LiftTerm(a, l, x, i), i, |a|);
  }

  lemma EnergyTermIs(a: Matrix, l: Matrix, x: Vector, i: nat, v: Vector)
    requires At(v, i) == At(Applied(a, x), i) + Lift(a, l, i) * At(x, i)
    ensures InnerTerms(v, x)(i) == InnerTerms(Applied(a, x), x)(i) + LiftSquares(a, l, x)(i)
  {
    Distribute(At(Applied(a, x), i), Lift(a, l, i), At(x, i));
  }

  lemma EnergyEntry(a: Matrix, l: Matrix, x: Vector, i: nat, v: Vector)
    requires Factored(a, l) && Symmetric(a) && |x| == |a| && i < |a|
    requires |v| == |a| && v[i] == Sum(RowTerms(l, Transposed(l, x), i), 0, |l|)
    ensures At(v, i) == At(Applied(a, x), i) + Lift(a, l, i) * At(x, i)
  {
    LiftedRow(a, l, x, i);
    LiftedSplits(a, l, x, i);
    assert At(Applied(a, x), i) == Sum(RowTerms(a, x, i), 0, |a|);
  }

  lemma Distribute(a: real, d: real, x: real)
    ensures (a + d * x) * x == a * x + d * (x * x)
  {
  }

  /** The quadratic form is the squared length of the transposed factor's image, less the lifts. */
  lemma QuadraticIs(a: Matrix, l: Matrix, x: Vector)
    requires Factored(a, l) && Symmetric(a) && |x| == |a|
    ensures var q := Transposed(l, x);
      Quadratic(a, x) == Inner(q, q) - Sum(LiftSquares(a, l, x), 0, |a|)
  {
    var q := Transposed(l, x);
    var v := Applied(l, q);
    Adjoint(l, x, q, v);
    forall i: nat | i < |a| ensures InnerTerms(v, x)(i) == InnerTerms(Applied(a, x), x)(i) + LiftSquares(a, l, x)(i) {
      EnergyEntry(a, l, x, i, v);
      EnergyTermIs(a, l, x, i, v);
    }
    SumAdd(InnerTerms(Applied(a, x), x), LiftSquares(a, l, x), InnerTerms(v, x), 0, |a|);
  }

  /** A triangular system with non-zero diagonal always has a solution. */
  lemma UpperSolution(m: Matrix, v: Vector) returns (x: Vector)
    requires Solvable(m) && |v| == |m|
    ensures SolvesUpper(m, x, v, 0)
  {
    x := seq(|v|, _ => 0.0);
    var row := |v|;
    while row > 0
      invariant 0 <= row <= |v| && SolvesUpper(m, x, v, row)
    {
      row := row - 1;
      var entry := (v[row] - Sum(ColumnTerms(m, x, row), row + 1, |v|)) / Cell(m, row, row);
      BackwardStep(m, x, v, row, entry);
      x := x[row := entry];
    }
  }

  lemma SquareNonNegative(x: real)
    ensures x * x >= 0.0
  {
  }

  lemma SumAtLeastTerm(f: nat -> real, i: nat, n: nat)
    requires i < n && forall k: nat | k < n :: f(k) >= 0.0
    ensures Sum(f, 0, n) >= f(i)
  {
    SumSplit(f, 0, i, n);
    SumSplit(f, i, i + 1, n);
    SumNonNegative(f, 0, i);
    SumNonNegative(f, i + 1, n);
    assert Sum(f, i, i) == 0.0;
  }

  lemma LiftSquaresNonNegative(a: Matrix, l: Matrix, x: Vector, i: nat)
    requires Factored(a, l) && i < |a|
    ensures LiftSquares(a, l, x)(i) >= 0.0
  {
    SquareNonNegative(At(x, i));
  }

  lemma ZeroSolution(l: Matrix, v: Vector, from: nat) returns (zeros: Vector)
    requires forall k: nat | from <= k < |v| :: v[k] == 0.0
    ensures SolvesUpper(l, zeros, v, from) && forall k: nat | k < |v| :: zeros[k] == 0.0
  {
    zeros := seq(|v|, _ => 0.0);
    forall i: nat | from <= i < |v| ensures Sum(ColumnTerms(l, zeros, i), i, |v|) == v[i] {
      forall k: nat | i <= k < |v| ensures ColumnTerms(l, zeros, i)(k) == 0.0 {
        assert At(zeros, k) == 0.0;
      }
      SumZero(ColumnTerms(l, zeros, i), i, |v|);
    }
  }

  lemma SolvesFrom(l: Matrix, y: Vector, v: Vector, from: nat)
    requires SolvesUpper(l, y, v, 0)
    ensures SolvesUpper(l, y, v, from)
  {
  }

  lemma ZeroBelow(l: Matrix, y: Vector, v: Vector, r: nat)
    requires Solvable(l) && r < |v| == |l| && SolvesUpper(l, y, v, 0) && forall k: nat | r < k < |v| :: v[k] == 0.0
    ensures forall k: nat | r < k < |v| :: y[k] == 0.0
  {
    var zeros := ZeroSolution(l, v, r + 1);
    SolvesFrom(l, y, v, r + 1);
    UpperUnique(l, y, zeros, v, r + 1);
    forall k: nat | r < k < |v| ensures y[k] == 0.0 {
      assert y[k] == y[r + 1..][k - r - 1] == zeros[r + 1..][k - r - 1] == zeros[k];
    }
  }

  /** Where the triangular system has zeros below `r` and the diagonal entry at `r`, its solution has 1. */
  lemma UnitAt(l: Matrix, y: Vector, v: Vector, r: nat)
    requires Solvable(l) && r < |v| == |l| && SolvesUpper(l, y, v, 0)
    requires v[r] == Cell(l, r, r) && forall k: nat | r < k < |v| :: v[k] == 0.0
    ensures At(y, r) == 1.0
  {
    ZeroBelow(l, y, v, r);
    forall k: nat | r + 1 <= k < |v| ensures ColumnTerms(l, y, r)(k) == 0.0 {
      assert At(y, k) == 0.0;
    }
    SumZero(ColumnTerms(l, y, r), r + 1, |v|);
    var first := FirstTerm(l, y, r, |v|);
    EqualProducts(Cell(l, r, r), At(y, r), 1.0, first, Cell(l, r, r));
  }

  lemma UnitSquare(v: Vector, r: nat, x: real)
    requires r < |v| && v[r] == x && forall k: nat | k < |v| && k != r :: v[k] == 0.0
    ensures Inner(v, v) == x * x
  {
    SumSingle(InnerTerms(v, v), r, |v|);
  }

  /** Every pivot bounds the quadratic form from above at some vector with a 1 in its place. */
  lemma PivotBound(a: Matrix, l: Matrix, r: nat) returns (y: Vector)
    requires Factored(a, l) && Symmetric(a) && r < |a|
    ensures |y| == |a| && At(y, r) == 1.0 && Quadratic(a, y) <= Residual(a, l, r, r)
  {
    DiagonalSolvable(a, l);
    var v := seq(|a|, (k: nat) => if k == r then Cell(l, r, r) else 0.0);
    y := UpperSolution(l, v);
    UnitAt(l, y, v, r);
    UpperIsTransposed(a, l, y, v);
    QuadraticIs(a, l, y);
    UnitSquare(v, r, Cell(l, r, r));
    forall i: nat | i < |a| ensures LiftSquares(a, l, y)(i) >= 0.0 {
      LiftSquaresNonNegative(a, l, y, i);
    }
    SumAtLeastTerm(LiftSquares(a, l, y), r, |a|);
    assert LiftSquares(a, l, y)(r) == Lift(a, l, r) by {
      assert At(y, r) * At(y, r) == 1.0;
    }
    assert Computed(a, l, r, r);
  }

  const NUGGET := 0.000001

  /** A covariance matrix is a kernel matrix with the nugget on its diagonal. */
  ghost predicate Regularised(k: Matrix, a: Matrix) {
    && |k| == |a|
    && forall i: nat, j: nat | i < |a| && j < |a| :: Cell(a, i, j) == Cell(k, i, j) + if i == j then NUGGET else 0.0
  }

  function NuggetTerm(x: Vector, i: nat): nat -> real {
    (j: nat) => if i == j then NUGGET * At(x, j) else 0.0
  }

  function NuggetSquares(nugget: real, x: Vector): nat -> real {
    (i: nat) => nugget * (At(x, i) * At(x, i))
  }

  lemma RegularisedRow(k: Matrix, a: Matrix, x: Vector, i: nat)
    requires Regularised(k, a) && i < |a|
    ensures At(Applied(a, x), i) == At(Applied(k, x), i) + NUGGET * At(x, i)
  {
    forall j: nat | j < |a| ensures RowTerms(a, x, i)(j) == RowTerms(k, x, i)(j) + NuggetTerm(x, i)(j) {
      assert Cell(a, i, j) == Cell(k, i, j) + if i == j then NUGGET else 0.0;
      AddTimes(Cell(k, i, j), if i == j then NUGGET else 0.0, At(x, j));
    }
    SumAdd(RowTerms(k, x, i), NuggetTerm(x, i), RowTerms(a, x, i), 0, |a|);
    SumSingle(NuggetTerm(x, i), i, |a|);
  }

  lemma RegularisedTerm(nugget: real, u: Vector, v: Vector, x: Vector, i: nat)
    requires At(v, i) == At(u, i) + nugget * At(x, i)
    ensures InnerTerms(v, x)(i) == InnerTerms(u, x)(i) + NuggetSquares(nugget, x)(i)
  {
    Distribute(At(u, i), nugget, At(x, i));
  }

  lemma RegularisedQuadratic(k: Matrix, a: Matrix, x: Vector)
    requires Regularised(k, a) && |x| == |a|
    ensures Quadratic(a, x) == Quadratic(k, x) + NUGGET * Inner(x, x)
  {
    var f, g, h := InnerTerms(Applied(k, x), x), NuggetSquares(NUGGET, x), InnerTerms(Applied(a, x), x);
    forall i: nat | i < |a| ensures h(i) == f(i) + g(i) {
      RegularisedRow(k, a, x, i);
      RegularisedTerm(NUGGET, Applied(k, x), Applied(a, x), x, i);
    }
    SumAdd(f, g, h, 0, |a|);
    SumScale(NUGGET, InnerTerms(x, x), g, 0, |a|);
  }

  lemma InnerAtLeastSquare(y: Vector, r: nat)
    requires r < |y|
    ensures Inner(y, y) >= At(y, r) * At(y, r)
  {
    forall i: nat | i < |y| ensures InnerTerms(y, y)(i) >= 0.0 {
      SquareNonNegative(At(y, i));
    }
    SumAtLeastTerm(InnerTerms(y, y), r, |y|);
  }

  lemma PivotAboveNugget(k: Matrix, a: Matrix, l: Matrix, r: nat)
    requires Regularised(k, a) && PositiveSemidefinite(k) && Symmetric(a) && Factored(a, l) && r < |a|
    ensures Residual(a, l, r, r) >= NUGGET && Lift(a, l, r) == 0.0
  {
    var y := PivotBound(a, l, r);
    RegularisedQuadratic(k, a, y);
    InnerAtLeastSquare(y, r);
    assert Quadratic(k, y) >= 0.0;
  }

  /** The nugget makes the factorisation exact: no pivot of a regularised positive semidefinite matrix
      falls below the nugget, so the floor under the pivots is never used. */
  lemma RegularisedIsExact(k: Matrix, a: Matrix, l: Matrix)
    requires Regularised(k, a) && PositiveSemidefinite(k) && Symmetric(a) && Factored(a, l)
    ensures forall r: nat | r < |a| :: Residual(a, l, r, r) >= NUGGET && Lift(a, l, r) == 0.0
    ensures forall i: nat, j: nat | i < |a| && j < |a| :: Gram(l, i, j) == Cell(a, i, j)
  {
    forall r: nat | r < |a| ensures Residual(a, l, r, r) >= NUGGET && Lift(a, l, r) == 0.0 {
      PivotAboveNugget(k, a, l, r);
    }
    FactorProduct(a, l);
  }

  /** Conversely, a matrix whose factorisation needs no lift is positive semidefinite. */
  lemma ExactIsSemidefinite(a: Matrix, l: Matrix)
    requires Symmetric(a) && Factored(a, l) && forall r: nat | r < |a| :: Lift(a, l, r) == 0.0
    ensures PositiveSemidefinite(a)
  {
    forall x: Vector | |x| == |a| ensures Quadratic(a, x) >= 0.0 {
      QuadraticIs(a, l, x);
      SumZero(LiftSquares(a, l, x), 0, |a|);
      var q := Transposed(l, x);
      forall i: nat | i < |a| ensures InnerTerms(q, q)(i) >= 0.0 {
        SquareNonNegative(At(q, i));
      }
      SumNonNegative(InnerTerms(q, q), 0, |a|);
    }
  }

  /******* The posterior *******/

  function DifferenceSquares(left: Vector, right: Vector): nat -> real {
    (k: nat) => (At(left, k) - At(right, k)) * (At(left, k) - At(right, k))
  }

  function Distance(sqrt: real -> real, left: Vector, right: Vector): real
    requires |left| == |right|
  {
    sqrt(Sum(DifferenceSquares(left, right), 0, |left|))
  }

  function Kernel(exp: real -> real, sqrt: real -> real, left: Vector, right: Vector): real
    requires |left| == |right|
  {
    Gaussian(exp, Distance(sqrt, left, right))
  }

  function Gaussian(exp: real -> real, distance: real): real {
    exp(-(distance * distance) / (2.0 * 0.25 * 0.25))
  }

  lemma KernelSymmetric(exp: real -> real, sqrt: real -> real, left: Vector, right: Vector)
    requires |left| == |right|
    ensures Kernel(exp, sqrt, left, right) == Kernel(exp, sqrt, right, left)
  {
    forall k: nat ensures DifferenceSquares(left, right)(k) == DifferenceSquares(right, left)(k) {
      NegatedSquare(At(left, k), At(right, k));
    }
    SumSame(DifferenceSquares(left, right), DifferenceSquares(right, left), 0, |left|);
    assert Distance(sqrt, left, right) == Distance(sqrt, right, left);
  }

  lemma NegatedSquare(x: real, y: real)
    ensures (x - y) * (x - y) == (y - x) * (y - x)
  {
  }

  /******* What the kernel is *******/

  /** The sum of the squared differences, coordinate by coordinate. */
  function SquaredDistance(left: Vector, right: Vector): real
    requires |left| == |right|
  {
    Sum(DifferenceSquares(left, right), 0, |left|)
  }

  lemma SquaredDistanceAppend(left: Vector, right: Vector, x: real, y: real)
    requires |left| == |right|
    ensures SquaredDistance([], []) == 0.0
    ensures SquaredDistance(left + [x], right + [y]) == SquaredDistance(left, right) + (x - y) * (x - y)
  {
    var f, g := DifferenceSquares(left + [x], right + [y]), DifferenceSquares(left, right);
    forall k: nat | k < |left| ensures f(k) == g(k) {
      assert At(left + [x], k) == At(left, k) && At(right + [y], k) == At(right, k);
    }
    SumSame(f, g, 0, |left|);
    assert f(|left|) == (x - y) * (x - y);
  }

  lemma SquaredDistanceNonNegative(left: Vector, right: Vector)
    requires |left| == |right|
    ensures SquaredDistance(left, right) >= 0.0
  {
    forall k: nat | k < |left| ensures DifferenceSquares(left, right)(k) >= 0.0 {
      SquareNonNegative(At(left, k) - At(right, k));
    }
    SumNonNegative(DifferenceSquares(left, right), 0, |left|);
  }

  /** The kernel is the exponential of minus eight times the sum of the squared differences. */
  lemma KernelIs(exp: real -> real, sqrt: real -> real, left: Vector, right: Vector)
    requires IsSqrt(sqrt) && |left| == |right|
    ensures Kernel(exp, sqrt, left, right) == exp(-8.0 * SquaredDistance(left, right))
  {
    SquaredDistanceNonNegative(left, right);
    GaussianIs(exp, Distance(sqrt, left, right), SquaredDistance(left, right));
  }

  lemma GaussianIs(exp: real -> real, distance: real, square: real)
    requires distance * distance == square
    ensures Gaussian(exp, distance) == exp(-8.0 * square)
  {
    assert -square / (2.0 * 0.25 * 0.25) == -8.0 * square;
  }

  lemma {:induction false} NoDistance(point: Vector)
    ensures SquaredDistance(point, point) == 0.0
  {
    forall k: nat | k < |point| ensures DifferenceSquares(point, point)(k) == 0.0 {
    }
    SumZero(DifferenceSquares(point, point), 0, |point|);
  }

  /** It is `exp(0)` where the points agree and `exp(-1/2)` at a distance of a quarter, and for an increasing `exp` it
      falls strictly as the squared distance grows. */
  lemma KernelFalls(exp: real -> real, sqrt: real -> real, point: Vector, near: Vector, far: Vector)
    requires IsSqrt(sqrt) && |point| == |near| == |far| && forall x, y | x < y :: exp(x) < exp(y)
    ensures Kernel(exp, sqrt, point, point) == exp(0.0)
    ensures SquaredDistance(point, far) == 0.0625 ==> Kernel(exp, sqrt, point, far) == exp(-0.5)
    ensures SquaredDistance(point, near) < SquaredDistance(point, far) <==>
      Kernel(exp, sqrt, point, far) < Kernel(exp, sqrt, point, near)
  {
    KernelIs(exp, sqrt, point, point);
    KernelIs(exp, sqrt, point, near);
    KernelIs(exp, sqrt, point, far);
    NoDistance(point);
    var x, y := -8.0 * SquaredDistance(point, far), -8.0 * SquaredDistance(point, near);
    assert x < y ==> exp(x) < exp(y);
    assert y < x ==> exp(y) < exp(x);
  }

  ghost predicate SameLength(points: seq<Vector>, length: nat) {
    forall i | 0 <= i < |points| :: |points[i]| == length
  }

  function KernelMatrix(exp: real -> real, sqrt: real -> real, points: seq<Vector>, length: nat,
                        nugget: real): (m: Matrix)
    requires SameLength(points, length)
    ensures |m| == |points| && Square(m)
    ensures forall i: nat, j: nat | i < |m| && j < |m| ::
      Cell(m, i, j) == Kernel(exp, sqrt, points[i], points[j]) + if i == j then nugget else 0.0
  {
    seq(|points|, (i: nat) requires i < |points| =>
      seq(|points|, (j: nat) requires j < |points| =>
        Kernel(exp, sqrt, points[i], points[j]) + if i == j then nugget else 0.0))
  }

  function ToPoint(exp: real -> real, sqrt: real -> real, points: seq<Vector>, vector: Vector): Vector
    requires SameLength(points, |vector|)
  {
    seq(|points|, (i: nat) requires i < |points| => Kernel(exp, sqrt, points[i], vector))
  }

  /** The entries of the covariance matrix and of the covariances with the point. */
  lemma Covariances(exp: real -> real, sqrt: real -> real, points: seq<Vector>, vector: Vector, i: nat, j: nat)
    requires IsSqrt(sqrt) && SameLength(points, |vector|) && i < |points| && j < |points|
    ensures Cell(KernelMatrix(exp, sqrt, points, |vector|, NUGGET), i, j) ==
      exp(-8.0 * SquaredDistance(points[i], points[j])) + if i == j then 0.000001 else 0.0
    ensures At(ToPoint(exp, sqrt, points, vector), i) == exp(-8.0 * SquaredDistance(points[i], vector))
  {
    KernelIs(exp, sqrt, points[i], points[j]);
    KernelIs(exp, sqrt, points[i], vector);
  }

  lemma CovarianceSymmetric(exp: real -> real, sqrt: real -> real, points: seq<Vector>, length: nat)
    requires SameLength(points, length)
    ensures Symmetric(KernelMatrix(exp, sqrt, points, length, NUGGET))
    ensures Regularised(KernelMatrix(exp, sqrt, points, length, 0.0), KernelMatrix(exp, sqrt, points, length, NUGGET))
  {
    var m := KernelMatrix(exp, sqrt, points, length, NUGGET);
    forall i: nat, j: nat | i < |m| && j < |m| ensures Cell(m, i, j) == Cell(m, j, i) {
      KernelSymmetric(exp, sqrt, points[i], points[j]);
    }
  }

  /** The mean and the variance are those of a Gaussian process with the given covariances, a factor of
      the lifted matrix standing for its inverse. */
  ghost predicate IsPosterior(covariance: Matrix, outcomes: Vector, toPoint: Vector, l: Matrix, alpha: Vector,
                              w: Vector, mean: real, variance: real) {
    && Factored(covariance, l)
    && SolvesLifted(covariance, l, alpha, outcomes)
    && SolvesLifted(covariance, l, w, toPoint)
    && mean == Inner(toPoint, alpha)
    && variance == Max(0.000000001, 1.0 - Inner(toPoint, w))
  }

  /** The variance is what the observations leave of 1, and never less than 1e-9. */
  lemma PosteriorValues(covariance: Matrix, outcomes: Vector, toPoint: Vector, l: Matrix, alpha: Vector, w: Vector,
                        mean: real, variance: real)
    requires IsPosterior(covariance, outcomes, toPoint, l, alpha, w, mean, variance)
    ensures mean == Inner(toPoint, alpha)
    ensures variance == if Inner(toPoint, w) < 0.999999999 then 1.0 - Inner(toPoint, w) else 0.000000001
  {
  }

  /** `_posterior`. */
  method Posterior(points: seq<Vector>, outcomes: Vector, vector: Vector, exp: real -> real, sqrt: real -> real)
    returns (mean: real, variance: real)
    requires IsSqrt(sqrt) && |points| == |outcomes| && SameLength(points, |vector|)
    ensures exists l, alpha, w ::
      IsPosterior(KernelMatrix(exp, sqrt, points, |vector|, NUGGET), outcomes, ToPoint(exp, sqrt, points, vector),
                  l, alpha, w, mean, variance)
    ensures 0.000000001 <= variance <= 1.0
  {
    var covariance := KernelMatrix(exp, sqrt, points, |vector|, NUGGET);
    CovarianceSymmetric(exp, sqrt, points, |vector|);
    var factor := Cholesky(covariance, sqrt);
    var l := factor[..];
    DiagonalSolvable(covariance, l);
    var y := Forward(l, outcomes);
    var alpha := Backward(l, y);
    SolvesExactly(covariance, l, y, alpha[..], outcomes);
    var toPoint := ToPoint(exp, sqrt, points, vector);
    mean := Inner(toPoint, alpha[..]);
    var projected := Forward(l, toPoint);
    variance := Max(0.000000001, 1.0 - Inner(projected, projected));
    ghost var w := UpperSolution(l, projected);
    SolvesExactly(covariance, l, projected, w, toPoint);
    ProjectedSquares(covariance, l, projected, w, toPoint);
    ProjectedNonNegative(projected);
    assert IsPosterior(covariance, outcomes, toPoint, l, alpha[..], w, mean, variance);
  }

  function Excess(excess: real, x: Vector, i: nat): nat -> real {
    (j: nat) => if i == j then excess * At(x, j) else 0.0
  }

  lemma ExcessTerm(a: Matrix, l: Matrix, x: Vector, toPoint: Vector, i: nat, j: nat)
    requires At(toPoint, j) == Cell(a, i, j) - if i == j then NUGGET else 0.0
    ensures LiftedTerms(a, l, x, i)(j) == InnerTerms(toPoint, x)(j) + Excess(NUGGET + Lift(a, l, i), x, i)(j)
  {
    var excess := if i == j then NUGGET + Lift(a, l, i) else 0.0;
    assert Lifted(a, l, i, j) == At(toPoint, j) + excess;
    AddTimes(At(toPoint, j), excess, At(x, j));
  }

  /** A row of the matrix without the nugget, times the solution of the lifted system. */
  lemma RowTimesSolution(a: Matrix, l: Matrix, x: Vector, v: Vector, toPoint: Vector, i: nat, excess: real)
    requires SolvesLifted(a, l, x, v) && i < |a| == |toPoint| == |v| && excess == NUGGET + Lift(a, l, i)
    requires forall j: nat | j < |a| :: At(toPoint, j) == Cell(a, i, j) - if i == j then NUGGET else 0.0
    ensures Inner(toPoint, x) == At(v, i) - excess * At(x, i)
  {
    var f := Excess(excess, x, i);
    forall j: nat | j < |a| ensures LiftedTerms(a, l, x, i)(j) == InnerTerms(toPoint, x)(j) + f(j) {
      ExcessTerm(a, l, x, toPoint, i, j);
    }
    SumAdd(InnerTerms(toPoint, x), f, LiftedTerms(a, l, x, i), 0, |a|);
    SumSingle(f, i, |a|);
    assert f(i) == excess * At(x, i);
  }

  /** The covariances with an observed point are its row of the covariance matrix without the nugget. */
  lemma ObservedRow(exp: real -> real, sqrt: real -> real, points: seq<Vector>, i: nat)
    requires IsSqrt(sqrt) && i < |points| && SameLength(points, |points[i]|)
    ensures var a, toPoint :=
        KernelMatrix(exp, sqrt, points, |points[i]|, NUGGET), ToPoint(exp, sqrt, points, points[i]);
      && |a| == |toPoint| == |points| && At(toPoint, i) == exp(0.0)
      && forall j: nat | j < |a| :: At(toPoint, j) == Cell(a, i, j) - if i == j then NUGGET else 0.0
  {
    var a, toPoint := KernelMatrix(exp, sqrt, points, |points[i]|, NUGGET), ToPoint(exp, sqrt, points, points[i]);
    forall j: nat | j < |a| ensures At(toPoint, j) == Cell(a, i, j) - if i == j then NUGGET else 0.0 {
      KernelSymmetric(exp, sqrt, points[i], points[j]);
    }
    KernelIs(exp, sqrt, points[i], points[i]);
    NoDistance(points[i]);
  }

  /** At an observed point the mean is the outcome there, and the variance the kernel's own deficit, up to the nugget
      (and the lift, if there is one) times a coefficient of the two solutions. */
  lemma PosteriorAtObserved(points: seq<Vector>, outcomes: Vector, i: nat, exp: real -> real, sqrt: real -> real,
                            l: Matrix, alpha: Vector, w: Vector, mean: real, variance: real) returns (excess: real)
    requires IsSqrt(sqrt) && i < |points| == |outcomes| && SameLength(points, |points[i]|)
    requires IsPosterior(KernelMatrix(exp, sqrt, points, |points[i]|, NUGGET), outcomes,
                         ToPoint(exp, sqrt, points, points[i]), l, alpha, w, mean, variance)
    ensures excess == NUGGET + Lift(KernelMatrix(exp, sqrt, points, |points[i]|, NUGGET), l, i)
    ensures mean == outcomes[i] - excess * At(alpha, i)
    ensures variance == Max(0.000000001, 1.0 - exp(0.0) + excess * At(w, i))
  {
    var a, toPoint := KernelMatrix(exp, sqrt, points, |points[i]|, NUGGET), ToPoint(exp, sqrt, points, points[i]);
    ObservedRow(exp, sqrt, points, i);
    excess := NUGGET + Lift(a, l, i);
    RowTimesSolution(a, l, alpha, outcomes, toPoint, i, excess);
    RowTimesSolution(a, l, w, toPoint, toPoint, i, excess);
  }

  lemma ProjectedNonNegative(p: Vector)
    ensures Inner(p, p) >= 0.0
  {
    forall i: nat ensures InnerTerms(p, p)(i) >= 0.0 {
      SquareNonNegative(At(p, i));
    }
    SumNonNegative(InnerTerms(p, p), 0, |p|);
  }

  /** For a positive semidefinite kernel the systems solved are those of the covariance matrix itself, so
      the posterior is the textbook one. */
  lemma PosteriorIsExact(k: Matrix, covariance: Matrix, outcomes: Vector, toPoint: Vector, l: Matrix, alpha: Vector,
                         w: Vector, mean: real, variance: real)
    requires Regularised(k, covariance) && PositiveSemidefinite(k) && Symmetric(covariance)
    requires |outcomes| == |toPoint| == |covariance|
    requires IsPosterior(covariance, outcomes, toPoint, l, alpha, w, mean, variance)
    ensures Applied(covariance, alpha) == outcomes && Applied(covariance, w) == toPoint
  {
    RegularisedIsExact(k, covariance, l);
    forall i: nat | i < |covariance|
      ensures Applied(covariance, alpha)[i] == outcomes[i] && Applied(covariance, w)[i] == toPoint[i]
    {
      LiftedSplits(covariance, l, alpha, i);
      LiftedSplits(covariance, l, w, i);
    }
  }
}
