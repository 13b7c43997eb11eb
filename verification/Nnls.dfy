/**
  Non-negative least squares by cyclic coordinate descent on the normal equations, as the cost model
  fit solves it.  Floating-point numbers are exact reals.
*/
module Nnls {
  import opened Numbers

  const MAX_FIT_SWEEPS: nat := 500
  const FIT_TOLERANCE: real := 0.000000000001

  // ---------------------------------------------------------------- finite sums

  function Sum(n: nat, f: int -> real): real {
    if n == 0 then 0.0 else Sum(n - 1, f) + f(n - 1)
  }

  lemma {:induction false} SumEqual(n: nat, f: int -> real, g: int -> real)
    requires forall i :: 0 <= i < n ==> f(i) == g(i)
    ensures Sum(n, f) == Sum(n, g)
  {
    if n > 0 {
      SumEqual(n - 1, f, g);
    }
  }

  lemma {:induction false} SumAtMost(n: nat, f: int -> real, g: int -> real)
    requires forall i :: 0 <= i < n ==> f(i) <= g(i)
    ensures Sum(n, f) <= Sum(n, g)
  {
    if n > 0 {
      SumAtMost(n - 1, f, g);
    }
  }

  lemma {:induction false} SumAdd(n: nat, f: int -> real, g: int -> real, h: int -> real)
    requires forall i :: 0 <= i < n ==> h(i) == f(i) + g(i)
    ensures Sum(n, h) == Sum(n, f) + Sum(n, g)
  {
    if n > 0 {
      SumAdd(n - 1, f, g, h);
    }
  }

  lemma {:induction false} SumScale(n: nat, c: real, f: int -> real, h: int -> real)
    requires forall i :: 0 <= i < n ==> h(i) == Times(c, f(i))
    ensures Sum(n, h) == Times(c, Sum(n, f))
  {
    if n > 0 {
      SumScale(n - 1, c, f, h);
    }
  }

  lemma {:induction false} SumZero(n: nat, f: int -> real)
    requires forall i :: 0 <= i < n ==> f(i) == 0.0
    ensures Sum(n, f) == 0.0
  {
    if n > 0 {
      SumZero(n - 1, f);
    }
  }

  /** A sum of non-negative terms is at least each of them, so it vanishes only if they all do. */
  lemma {:induction false} SumCovers(n: nat, f: int -> real, k: nat)
    requires forall i :: 0 <= i < n ==> f(i) >= 0.0
    requires k < n
    ensures 0.0 <= f(k) <= Sum(n, f)
  {
    if k < n - 1 {
      SumCovers(n - 1, f, k);
    } else {
      SumZero(n - 1, i => 0.0);
      SumAtMost(n - 1, i => 0.0, f);
    }
  }

  /** A sum with one term that is not zero. */
  lemma {:induction false} SumSingle(n: nat, f: int -> real, k: nat)
    requires k < n && forall i :: 0 <= i < n && i != k ==> f(i) == 0.0
    ensures Sum(n, f) == f(k)
  {
    if k < n - 1 {
      SumSingle(n - 1, f, k);
    } else {
      SumZero(n - 1, f);
    }
  }

  lemma {:induction false} SumSub(n: nat, f: int -> real, g: int -> real, h: int -> real)
    requires forall i :: 0 <= i < n ==> h(i) == f(i) - g(i)
    ensures Sum(n, h) == Sum(n, f) - Sum(n, g)
  {
    if n > 0 {
      SumSub(n - 1, f, g, h);
    }
  }

  ghost function Row(f: (int, int) -> real, r: int): int -> real {
    j => f(r, j)
  }

  ghost function Column(f: (int, int) -> real, j: int): int -> real {
    r => f(r, j)
  }

  ghost function RowSums(n: nat, f: (int, int) -> real): int -> real {
    r => Sum(n, Row(f, r))
  }

  ghost function ColumnSums(m: nat, f: (int, int) -> real): int -> real {
    j => Sum(m, Column(f, j))
  }

  /** Summing by rows or by columns is the same. */
  lemma {:induction false} SumSwap(m: nat, n: nat, f: (int, int) -> real)
    ensures Sum(m, RowSums(n, f)) == Sum(n, ColumnSums(m, f))
  {
    if m == 0 {
      SumZero(n, ColumnSums(m, f));
    } else {
      SumSwap(m - 1, n, f);
      SumAdd(n, ColumnSums(m - 1, f), Row(f, m - 1), ColumnSums(m, f));
    }
  }

  // ---------------------------------------------------------------- the problem

  datatype Problem = Problem(rows: seq<seq<real>>, targets: seq<real>)

  /** At least one row, no row shorter than the first, one target per row. */
  predicate WellFormed(p: Problem) {
    |p.rows| > 0 && |p.targets| == |p.rows| && forall r :: 0 <= r < |p.rows| ==> |p.rows[0]| <= |p.rows[r]|
  }

  function Width(p: Problem): nat
    requires WellFormed(p)
  {
    |p.rows[0]|
  }

  function At(v: seq<real>, i: int): real {
    if 0 <= i < |v| then v[i] else 0.0
  }

  function X(p: Problem, r: int, i: int): real {
    if 0 <= r < |p.rows| then At(p.rows[r], i) else 0.0
  }

  function GramTerms(p: Problem, i: int, j: int): int -> real {
    r => Times(X(p, r, i), X(p, r, j))
  }

  function Gram(p: Problem, i: int, j: int): real {
    Sum(|p.rows|, GramTerms(p, i, j))
  }

  function XtyTerms(p: Problem, i: int): int -> real {
    r => Times(X(p, r, i), At(p.targets, r))
  }

  function Xty(p: Problem, i: int): real {
    Sum(|p.rows|, XtyTerms(p, i))
  }

  ghost function Fitted(p: Problem, c: seq<real>, r: int): int -> real {
    j => Times(X(p, r, j), At(c, j))
  }

  /** Row r of Xc - y. */
  ghost function Residual(p: Problem, c: seq<real>, r: int): real
    requires WellFormed(p)
  {
    Sum(Width(p), Fitted(p, c, r)) - At(p.targets, r)
  }

  ghost function Squares(p: Problem, c: seq<real>): int -> real
    requires WellFormed(p)
  {
    r => Times(Residual(p, c, r), Residual(p, c, r))
  }

  /** The squared norm of Xc - y. */
  ghost function Objective(p: Problem, c: seq<real>): real
    requires WellFormed(p)
  {
    Sum(|p.rows|, Squares(p, c))
  }

  ghost function SlopeTerms(p: Problem, c: seq<real>, i: int): int -> real
    requires WellFormed(p)
  {
    r => Times(X(p, r, i), Residual(p, c, r))
  }

  /** Half the partial derivative of the objective in coordinate i. */
  ghost function Slope(p: Problem, c: seq<real>, i: int): real
    requires WellFormed(p)
  {
    Sum(|p.rows|, SlopeTerms(p, c, i))
  }

  // ---------------------------------------------------------------- normal equations

  ghost function GramRow(p: Problem, c: seq<real>, i: int): int -> real {
    j => Times(Gram(p, i, j), At(c, j))
  }

  ghost function Products(p: Problem, c: seq<real>, i: int): (int, int) -> real {
    (r, j) => Times(X(p, r, i), Times(X(p, r, j), At(c, j)))
  }

  lemma Rotate(a: real, b: real, c: real)
    ensures Times(a, Times(b, c)) == Times(c, Times(a, b))
  {
  }

  lemma Commute(a: real, b: real)
    ensures Times(a, b) == Times(b, a)
  {
  }

  lemma ProductColumn(p: Problem, c: seq<real>, i: int, j: int)
    ensures ColumnSums(|p.rows|, Products(p, c, i))(j) == GramRow(p, c, i)(j)
  {
    var column := Column(Products(p, c, i), j);
    forall r | 0 <= r < |p.rows|
      ensures column(r) == Times(At(c, j), GramTerms(p, i, j)(r))
    {
      Rotate(X(p, r, i), X(p, r, j), At(c, j));
    }
    SumScale(|p.rows|, At(c, j), GramTerms(p, i, j), column);
    Commute(At(c, j), Gram(p, i, j));
  }

  /** The slope read off the Gram matrix. */
  lemma SlopeByGram(p: Problem, c: seq<real>, i: int)
    requires WellFormed(p)
    ensures Slope(p, c, i) == Sum(Width(p), GramRow(p, c, i)) - Xty(p, i)
  {
    var m, n, f := |p.rows|, Width(p), Products(p, c, i);
    forall r | 0 <= r < m
      ensures SlopeTerms(p, c, i)(r) == RowSums(n, f)(r) - XtyTerms(p, i)(r)
    {
      SumScale(n, X(p, r, i), Fitted(p, c, r), Row(f, r));
    }
    SumSub(m, RowSums(n, f), XtyTerms(p, i), SlopeTerms(p, c, i));
    SumSwap(m, n, f);
    forall j | 0 <= j < n
      ensures ColumnSums(m, f)(j) == GramRow(p, c, i)(j)
    {
      ProductColumn(p, c, i, j);
    }
    SumEqual(n, ColumnSums(m, f), GramRow(p, c, i));
  }

  // ---------------------------------------------------------------- convexity

  ghost function Uphill(p: Problem, c: seq<real>, d: seq<real>): int -> real
    requires WellFormed(p)
  {
    j => Times(At(d, j) - At(c, j), Slope(p, c, j))
  }

  ghost function Shifts(p: Problem, c: seq<real>, d: seq<real>, r: int): int -> real {
    j => Times(X(p, r, j), At(d, j) - At(c, j))
  }

  ghost function Crosses(p: Problem, c: seq<real>, d: seq<real>): (int, int) -> real
    requires WellFormed(p)
  {
    (r, j) => Times(Residual(p, c, r), Times(X(p, r, j), At(d, j) - At(c, j)))
  }

  ghost function ShiftSquares(p: Problem, c: seq<real>, d: seq<real>): int -> real
    requires WellFormed(p)
  {
    r => Times(Sum(Width(p), Shifts(p, c, d, r)), Sum(Width(p), Shifts(p, c, d, r)))
  }

  ghost function Tangent(p: Problem, c: seq<real>, d: seq<real>): int -> real
    requires WellFormed(p)
  {
    r => Times(Residual(p, c, r), Residual(p, c, r)) + Times(2.0, RowSums(Width(p), Crosses(p, c, d))(r))
  }

  /** Moving from c to d adds to each residual the move's own fitted value. */
  lemma ResidualShift(p: Problem, c: seq<real>, d: seq<real>, r: int)
    requires WellFormed(p)
    ensures Residual(p, d, r) == Residual(p, c, r) + Sum(Width(p), Shifts(p, c, d, r))
  {
    SumAdd(Width(p), Fitted(p, c, r), Shifts(p, c, d, r), Fitted(p, d, r));
  }

  lemma SquareOfSum(a: real, s: real)
    ensures Times(a + s, a + s) == Times(a, a) + 2.0 * Times(a, s) + Times(s, s)
  {
  }

  lemma RowExpansion(p: Problem, c: seq<real>, d: seq<real>, r: int)
    requires WellFormed(p)
    ensures Squares(p, d)(r) == Tangent(p, c, d)(r) + ShiftSquares(p, c, d)(r)
  {
    var a, s := Residual(p, c, r), Sum(Width(p), Shifts(p, c, d, r));
    ResidualShift(p, c, d, r);
    assert Residual(p, d, r) == a + s;
    SumScale(Width(p), a, Shifts(p, c, d, r), Row(Crosses(p, c, d), r));
    assert RowSums(Width(p), Crosses(p, c, d))(r) == Times(a, s);
    SquareOfSum(a, s);
  }

  lemma CrossColumn(p: Problem, c: seq<real>, d: seq<real>, j: int)
    requires WellFormed(p)
    ensures ColumnSums(|p.rows|, Crosses(p, c, d))(j) == Uphill(p, c, d)(j)
  {
    SumScale(|p.rows|, At(d, j) - At(c, j), SlopeTerms(p, c, j), Column(Crosses(p, c, d), j));
  }

  ghost function Doubled(f: int -> real): int -> real {
    i => Times(2.0, f(i))
  }

  lemma TangentSum(p: Problem, c: seq<real>, d: seq<real>)
    requires WellFormed(p)
    ensures Sum(|p.rows|, Tangent(p, c, d)) ==
            Objective(p, c) + 2.0 * Sum(|p.rows|, RowSums(Width(p), Crosses(p, c, d)))
  {
    var rows := RowSums(Width(p), Crosses(p, c, d));
    SumAdd(|p.rows|, Squares(p, c), Doubled(rows), Tangent(p, c, d));
    SumScale(|p.rows|, 2.0, rows, Doubled(rows));
  }

  /** The objective at d, expanded around c: value, slopes along the move, and the squared move. */
  lemma Expansion(p: Problem, c: seq<real>, d: seq<real>)
    requires WellFormed(p)
    ensures Objective(p, d)
         == Objective(p, c) + 2.0 * Sum(Width(p), Uphill(p, c, d)) + Sum(|p.rows|, ShiftSquares(p, c, d))
  {
    var m, n, f := |p.rows|, Width(p), Crosses(p, c, d);
    forall r | 0 <= r < m
      ensures Squares(p, d)(r) == Tangent(p, c, d)(r) + ShiftSquares(p, c, d)(r)
    {
      RowExpansion(p, c, d, r);
    }
    SumAdd(m, Tangent(p, c, d), ShiftSquares(p, c, d), Squares(p, d));
    TangentSum(p, c, d);
    SumSwap(m, n, f);
    forall j | 0 <= j < n
      ensures ColumnSums(m, f)(j) == Uphill(p, c, d)(j)
    {
      CrossColumn(p, c, d, j);
    }
    SumEqual(n, ColumnSums(m, f), Uphill(p, c, d));
  }

  /** The objective lies above its tangent plane at every point. */
  lemma Convex(p: Problem, c: seq<real>, d: seq<real>)
    requires WellFormed(p)
    ensures Objective(p, d) >= Objective(p, c) + 2.0 * Sum(Width(p), Uphill(p, c, d))
  {
    Expansion(p, c, d);
    forall r | 0 <= r < |p.rows|
      ensures 0.0 <= ShiftSquares(p, c, d)(r)
    {
      SquarePositive(Sum(Width(p), Shifts(p, c, d, r)));
    }
    SumZero(|p.rows|, r => 0.0);
    SumAtMost(|p.rows|, r => 0.0, ShiftSquares(p, c, d));
  }

  // ---------------------------------------------------------------- one coordinate

  ghost predicate NonNegative(c: seq<real>) {
    forall i :: 0 <= i < |c| ==> c[i] >= 0.0
  }

  function Others(p: Problem, c: seq<real>, i: int): int -> real {
    j => if j == i then 0.0 else Times(Gram(p, i, j), At(c, j))
  }

  /** `xty[i] - sum(gram[i][j] * coeffs[j] for j != i)`. */
  function Rest(p: Problem, c: seq<real>, i: int): real
    requires WellFormed(p)
  {
    Xty(p, i) - Sum(Width(p), Others(p, c, i))
  }

  /** The new value of coordinate i: the minimum along it, clamped at zero. */
  function Update(p: Problem, c: seq<real>, i: int): (x: real)
    requires WellFormed(p) && Gram(p, i, i) > 0.0
    ensures x >= 0.0
  {
    MaxReal(0.0, Rest(p, c, i) / Gram(p, i, i))
  }

  ghost function Own(p: Problem, c: seq<real>, i: int): int -> real {
    j => if j == i then Times(Gram(p, i, j), At(c, j)) else 0.0
  }

  lemma SlopeByRest(p: Problem, c: seq<real>, i: nat)
    requires WellFormed(p) && i < Width(p)
    ensures Slope(p, c, i) == Times(Gram(p, i, i), At(c, i)) - Rest(p, c, i)
  {
    SlopeByGram(p, c, i);
    SumSingle(Width(p), Own(p, c, i), i);
    SumAdd(Width(p), Own(p, c, i), Others(p, c, i), GramRow(p, c, i));
  }

  /** The other coordinates' contribution does not see coordinate i. */
  lemma RestIgnoresOwn(p: Problem, c: seq<real>, i: nat, x: real)
    requires WellFormed(p) && i < |c|
    ensures Rest(p, c[i := x], i) == Rest(p, c, i)
  {
    SumEqual(Width(p), Others(p, c[i := x], i), Others(p, c, i));
  }

  lemma ClampedRoot(rest: real, g: real)
    requires g > 0.0
    ensures var x := MaxReal(0.0, rest / g); Times(g, x) - rest >= 0.0 && Times(x, Times(g, x) - rest) == 0.0
  {
    assert g * (rest / g) == rest;
  }

  /** After its update, a coordinate's slope is non-negative, and zero unless the coordinate is. */
  lemma UpdateSlope(p: Problem, c: seq<real>, i: nat)
    requires WellFormed(p) && i < Width(p) == |c| && Gram(p, i, i) > 0.0
    ensures var x := Update(p, c, i); var c' := c[i := x];
            Slope(p, c', i) >= 0.0 && Times(x, Slope(p, c', i)) == 0.0
  {
    var x := Update(p, c, i);
    var c' := c[i := x];
    RestIgnoresOwn(p, c, i, x);
    SlopeByRest(p, c', i);
    ClampedRoot(Rest(p, c, i), Gram(p, i, i));
  }

  lemma UphillProduct(z: real, x: real, s: real)
    requires z >= 0.0 && s >= 0.0 && Times(x, s) == 0.0
    ensures Times(z - x, s) >= 0.0
  {
    assert (z - x) * s == z * s - x * s;
  }

  lemma SquareOfProduct(x: real, e: real)
    ensures Times(Times(x, e), Times(x, e)) == Times(Times(e, e), Times(x, x))
  {
  }

  /** Along one coordinate the squared move is its Gram diagonal times the square of the step. */
  lemma CoordinateSquares(p: Problem, c: seq<real>, d: seq<real>, k: nat)
    requires WellFormed(p) && k < Width(p) && forall j :: 0 <= j < Width(p) && j != k ==> At(d, j) == At(c, j)
    ensures var e := At(d, k) - At(c, k); Sum(|p.rows|, ShiftSquares(p, c, d)) == Times(Times(e, e), Gram(p, k, k))
  {
    var e := At(d, k) - At(c, k);
    forall r | 0 <= r < |p.rows|
      ensures ShiftSquares(p, c, d)(r) == Times(Times(e, e), GramTerms(p, k, k)(r))
    {
      SumSingle(Width(p), Shifts(p, c, d, r), k);
      SquareOfProduct(X(p, r, k), e);
    }
    SumScale(|p.rows|, Times(e, e), GramTerms(p, k, k), ShiftSquares(p, c, d));
  }

  /**
    The update is the exact minimum along its coordinate: any other non-negative value there, the old one
    included, gives an objective larger by at least the Gram diagonal times the squared distance.
  */
  lemma UpdateMinimises(p: Problem, c: seq<real>, i: nat, z: real)
    requires WellFormed(p) && i < Width(p) == |c| && Gram(p, i, i) > 0.0 && z >= 0.0
    ensures var x := Update(p, c, i);
            Objective(p, c[i := x]) + Times(Times(z - x, z - x), Gram(p, i, i)) <= Objective(p, c[i := z])
  {
    var x := Update(p, c, i);
    var c', d := c[i := x], c[i := z];
    UpdateSlope(p, c, i);
    Expansion(p, c', d);
    CoordinateSquares(p, c', d, i);
    SumSingle(Width(p), Uphill(p, c', d), i);
    UphillProduct(z, x, Slope(p, c', i));
  }

  /** An update never increases the objective, and strictly decreases it if it moves the coordinate. */
  lemma UpdateDescends(p: Problem, c: seq<real>, i: nat)
    requires WellFormed(p) && i < Width(p) == |c| && Gram(p, i, i) > 0.0 && c[i] >= 0.0
    ensures var x := Update(p, c, i);
            && Objective(p, c[i := x]) <= Objective(p, c)
            && (x != c[i] ==> Objective(p, c[i := x]) < Objective(p, c))
  {
    var x := Update(p, c, i);
    UpdateMinimises(p, c, i, c[i]);
    assert c[i := c[i]] == c;
    SquarePositive(c[i] - x);
    PositiveProduct(Times(c[i] - x, c[i] - x), Gram(p, i, i));
  }

  lemma {:induction false} ZeroSquares(m: nat, p: Problem, i: int, r: nat)
    requires r < m && X(p, r, i) != 0.0
    ensures Sum(m, GramTerms(p, i, i)) > 0.0
  {
    SquarePositive(X(p, r, i));
    forall k | 0 <= k < m
      ensures GramTerms(p, i, i)(k) >= 0.0
    {
      SquarePositive(X(p, k, i));
    }
    SumCovers(m, GramTerms(p, i, i), r);
  }

  /** A column whose Gram diagonal is not positive is zero, so its slope is zero wherever we stand. */
  lemma SkippedColumn(p: Problem, c: seq<real>, i: int)
    requires WellFormed(p) && !(Gram(p, i, i) > 0.0)
    ensures Slope(p, c, i) == 0.0
    ensures forall j :: Gram(p, j, i) == 0.0
  {
    var m := |p.rows|;
    forall r | 0 <= r < m
      ensures X(p, r, i) == 0.0
    {
      if X(p, r, i) != 0.0 {
        ZeroSquares(m, p, i, r);
      }
    }
    SumZero(m, SlopeTerms(p, c, i));
    forall j
      ensures Gram(p, j, i) == 0.0
    {
      SumZero(m, GramTerms(p, j, i));
    }
  }

  // ---------------------------------------------------------------- sweeps

  ghost function AbsGram(p: Problem, i: int): int -> real {
    j => Abs(Gram(p, i, j))
  }

  /** How far coordinate i's slope can drift per unit by which the first k coordinates move. */
  ghost function Drift(p: Problem, i: int, k: nat): real {
    Sum(k, AbsGram(p, i))
  }

  /**
    Coordinate i satisfies the optimality conditions with slope g, and its slope has since drifted from g
    by no more than the first k coordinates' moves, of size at most delta, can make it.
  */
  ghost predicate Settled(p: Problem, c: seq<real>, i: int, k: nat, delta: real, g: real)
    requires WellFormed(p)
  {
    g >= 0.0 && Times(At(c, i), g) == 0.0 && Abs(Slope(p, c, i) - g) <= Times(delta, Drift(p, i, k))
  }

  /** The first k coordinates are settled; slope[i] is coordinate i's slope right after its own update. */
  ghost predicate NearOptimal(p: Problem, c: seq<real>, k: nat, delta: real, slope: seq<real>)
    requires WellFormed(p)
  {
    && |slope| == k <= |c| == Width(p) && delta >= 0.0
    && (forall i :: 0 <= i < k ==> Settled(p, c, i, k, delta, slope[i]))
  }

  ghost function GramShift(p: Problem, i: int, k: int, step: real): int -> real {
    j => if j == k then Times(Gram(p, i, j), step) else 0.0
  }

  lemma Distribute(g: real, x: real, y: real)
    ensures Times(g, x) == Times(g, y) + Times(g, x - y)
  {
  }

  lemma GramRowMoves(p: Problem, c: seq<real>, c': seq<real>, i: int, k: nat, x: real)
    requires WellFormed(p) && k < Width(p) == |c| && c' == c[k := x]
    ensures Sum(Width(p), GramRow(p, c', i)) == Sum(Width(p), GramRow(p, c, i)) + Times(Gram(p, i, k), x - c[k])
  {
    var shift := GramShift(p, i, k, x - c[k]);
    SumSingle(Width(p), shift, k);
    forall j | 0 <= j < Width(p)
      ensures GramRow(p, c', i)(j) == GramRow(p, c, i)(j) + shift(j)
    {
      if j == k {
        Distribute(Gram(p, i, k), x, c[k]);
      } else {
        assert At(c', j) == At(c, j);
      }
    }
    SumAdd(Width(p), GramRow(p, c, i), shift, GramRow(p, c', i));
  }

  /** Moving coordinate k changes the slope in coordinate i by the Gram entry times the move. */
  lemma SlopeMoves(p: Problem, c: seq<real>, c': seq<real>, i: int, k: nat, x: real)
    requires WellFormed(p) && k < Width(p) == |c| && c' == c[k := x]
    ensures Slope(p, c', i) == Slope(p, c, i) + Times(Gram(p, i, k), x - c[k])
  {
    SlopeByGram(p, c, i);
    SlopeByGram(p, c', i);
    GramRowMoves(p, c, c', i, k, x);
  }

  lemma {:induction false} DriftNonNegative(p: Problem, i: int, k: nat)
    ensures Drift(p, i, k) >= 0.0
  {
    SumZero(k, j => 0.0);
    SumAtMost(k, j => 0.0, AbsGram(p, i));
  }

  /** One more coordinate moved by at most the new delta: the drift bound grows by its Gram entry. */
  lemma DriftStep(error: real, gram: real, step: real, delta: real, delta': real, drift: real)
    requires error <= Times(delta, drift) && 0.0 <= delta <= delta' && drift >= 0.0 && Abs(step) <= delta'
    ensures error + Abs(Times(gram, step)) <= Times(delta', drift + Abs(gram))
  {
    MultiplyBound(delta, delta', drift);
    MultiplyBound(Abs(step), delta', Abs(gram));
    assert Abs(gram * step) == Abs(gram) * Abs(step);
    assert delta' * (drift + Abs(gram)) == delta' * drift + delta' * Abs(gram);
  }

  lemma MultiplyBound(a: real, b: real, m: real)
    requires a <= b && m >= 0.0
    ensures Times(a, m) <= Times(b, m)
  {
    assert b * m - a * m == (b - a) * m;
  }

  /** A settled coordinate stays settled, with the wider bound, when coordinate k moves to x. */
  lemma OthersStaySettled(p: Problem, c: seq<real>, c': seq<real>, i: nat, k: nat, x: real, delta: real, delta': real,
                          g: real)
    requires WellFormed(p) && i < k < Width(p) == |c| && 0.0 <= delta && Settled(p, c, i, k, delta, g)
    requires c' == c[k := x] && delta <= delta' && Abs(x - c[k]) <= delta'
    ensures Settled(p, c', i, k + 1, delta', g)
  {
    SlopeMoves(p, c, c', i, k, x);
    DriftNonNegative(p, i, k);
    DriftStep(Abs(Slope(p, c, i) - g), Gram(p, i, k), x - c[k], delta, delta', Drift(p, i, k));
    assert Drift(p, i, k + 1) == Drift(p, i, k) + Abs(Gram(p, i, k));
    AbsTriangle(Slope(p, c, i) - g, Times(Gram(p, i, k), x - c[k]));
  }

  lemma AbsTriangle(x: real, y: real)
    ensures Abs(x + y) <= Abs(x) + Abs(y)
  {
  }

  /** The coordinate just treated is settled at its own slope. */
  lemma OwnSettled(p: Problem, c: seq<real>, k: nat, delta: real)
    requires WellFormed(p) && delta >= 0.0 && Slope(p, c, k) >= 0.0 && Times(At(c, k), Slope(p, c, k)) == 0.0
    ensures Settled(p, c, k, k + 1, delta, Slope(p, c, k))
  {
    DriftNonNegative(p, k, k + 1);
    PositiveProduct(delta, Drift(p, k, k + 1));
  }

  lemma SweepUpdate(p: Problem, c: seq<real>, c': seq<real>, k: nat, x: real, delta: real, delta': real,
                    slope: seq<real>, slope': seq<real>)
    requires WellFormed(p) && NearOptimal(p, c, k, delta, slope) && k < Width(p) && Gram(p, k, k) > 0.0
    requires x == Update(p, c, k) && c' == c[k := x] && delta' == MaxReal(delta, Abs(x - c[k]))
    requires slope' == slope + [Slope(p, c', k)]
    ensures NearOptimal(p, c', k + 1, delta', slope')
  {
    UpdateSlope(p, c, k);
    forall i | 0 <= i < k + 1
      ensures Settled(p, c', i, k + 1, delta', slope'[i])
    {
      if i < k {
        OthersStaySettled(p, c, c', i, k, x, delta, delta', slope[i]);
      } else {
        OwnSettled(p, c', k, delta');
      }
    }
  }

  lemma SweepSkip(p: Problem, c: seq<real>, k: nat, delta: real, slope: seq<real>, slope': seq<real>)
    requires WellFormed(p) && NearOptimal(p, c, k, delta, slope) && k < Width(p) && !(Gram(p, k, k) > 0.0)
    requires slope' == slope + [Slope(p, c, k)]
    ensures NearOptimal(p, c, k + 1, delta, slope')
  {
    SkippedColumn(p, c, k);
    forall i | 0 <= i < k + 1
      ensures Settled(p, c, i, k + 1, delta, slope'[i])
    {
      if i < k {
        OthersStaySettled(p, c, c, i, k, c[k], delta, delta, slope[i]);
      } else {
        OwnSettled(p, c, k, delta);
      }
    }
  }

  // ---------------------------------------------------------------- optimality

  ghost function Slack(p: Problem, c: seq<real>, d: seq<real>): int -> real
    requires WellFormed(p)
  {
    i => Times(Drift(p, i, Width(p)), Abs(At(d, i) - At(c, i)))
  }

  lemma SettledUphill(d: real, c: real, slope: real, g: real, bound: real)
    requires d >= 0.0 && g >= 0.0 && Times(c, g) == 0.0 && Abs(slope - g) <= bound
    ensures Times(d - c, slope) >= 0.0 - Times(bound, Abs(d - c))
  {
    var e := slope - g;
    assert (d - c) * slope == d * g - c * g + (d - c) * e;
    PositiveProduct(d, g);
    MultiplyBound(Abs(e), bound, Abs(d - c));
    assert (d - c) * e >= 0.0 - Abs(e) * Abs(d - c);
  }

  ghost function ScaledSlack(p: Problem, c: seq<real>, d: seq<real>, delta: real): int -> real
    requires WellFormed(p)
  {
    i => Times(0.0 - delta, Slack(p, c, d)(i))
  }

  lemma CoordinateSlack(p: Problem, c: seq<real>, delta: real, g: real, d: seq<real>, i: nat)
    requires WellFormed(p) && At(d, i) >= 0.0 && Settled(p, c, i, Width(p), delta, g)
    ensures ScaledSlack(p, c, d, delta)(i) <= Uphill(p, c, d)(i)
  {
    var drift, x, y, slope := Drift(p, i, Width(p)), At(c, i), At(d, i), Slope(p, c, i);
    assert Slack(p, c, d)(i) == Times(drift, Abs(y - x));
    assert ScaledSlack(p, c, d, delta)(i) == Times(0.0 - delta, Times(drift, Abs(y - x)));
    SlackOf(x, y, slope, g, delta, drift);
  }

  lemma SlackOf(x: real, y: real, slope: real, g: real, delta: real, drift: real)
    requires y >= 0.0 && g >= 0.0 && Times(x, g) == 0.0 && Abs(slope - g) <= Times(delta, drift)
    ensures Times(0.0 - delta, Times(drift, Abs(y - x))) <= Times(y - x, slope)
  {
    SettledUphill(y, x, slope, g, Times(delta, drift));
    Reassociate(delta, drift, Abs(y - x));
  }

  lemma Reassociate(a: real, b: real, c: real)
    ensures Times(0.0 - a, Times(b, c)) == 0.0 - Times(Times(a, b), c)
  {
  }

  /** Near-optimal slopes leave little to gain in any direction that stays non-negative. */
  lemma SlackBelowUphill(p: Problem, c: seq<real>, delta: real, slope: seq<real>, d: seq<real>)
    requires WellFormed(p) && NearOptimal(p, c, Width(p), delta, slope) && |d| == Width(p) && NonNegative(d)
    ensures Times(0.0 - delta, Sum(Width(p), Slack(p, c, d))) <= Sum(Width(p), Uphill(p, c, d))
  {
    var n, low, high := Width(p), ScaledSlack(p, c, d, delta), Uphill(p, c, d);
    forall i | 0 <= i < n
      ensures low(i) <= high(i)
    {
      CoordinateSlack(p, c, delta, slope[i], d, i);
    }
    SumAtMost(n, low, high);
    SumScale(n, 0.0 - delta, Slack(p, c, d), low);
  }

  /**
    When a sweep has moved no coordinate by more than delta, its result beats every non-negative point up
    to delta times a slack that depends on the problem and the distance only; with delta zero, that is
    global optimality.
  */
  lemma NearOptimalBound(p: Problem, c: seq<real>, delta: real, slope: seq<real>, d: seq<real>)
    requires WellFormed(p) && NearOptimal(p, c, Width(p), delta, slope)
    requires |d| == Width(p) && NonNegative(d)
    ensures Objective(p, c) <= Objective(p, d) + 2.0 * Times(delta, Sum(Width(p), Slack(p, c, d)))
  {
    Convex(p, c, d);
    SlackBelowUphill(p, c, delta, slope, d);
    TimesDifference(0.0, delta, Sum(Width(p), Slack(p, c, d)));
  }

  ghost predicate GlobalMinimum(p: Problem, c: seq<real>)
    requires WellFormed(p)
  {
    forall d :: |d| == Width(p) && NonNegative(d) ==> Objective(p, c) <= Objective(p, d)
  }

  /** A full sweep would leave c as it is. */
  ghost predicate FixedPoint(p: Problem, c: seq<real>)
    requires WellFormed(p) && |c| == Width(p)
  {
    forall i :: 0 <= i < Width(p) && Gram(p, i, i) > 0.0 ==> Update(p, c, i) == c[i]
  }

  ghost function SlopesAt(p: Problem, c: seq<real>, k: nat): seq<real>
    requires WellFormed(p)
  {
    seq(k, i => Slope(p, c, i))
  }

  lemma {:induction false} FixedPointSettles(p: Problem, c: seq<real>, k: nat)
    requires WellFormed(p) && |c| == Width(p) && k <= Width(p) && FixedPoint(p, c)
    ensures NearOptimal(p, c, k, 0.0, SlopesAt(p, c, k))
  {
    forall i | 0 <= i < k
      ensures Settled(p, c, i, k, 0.0, Slope(p, c, i))
    {
      if Gram(p, i, i) > 0.0 {
        UpdateSlope(p, c, i);
        assert c[i := c[i]] == c;
      } else {
        SkippedColumn(p, c, i);
      }
    }
  }

  /** The points a sweep leaves unchanged are exactly the global minima over all c >= 0. */
  lemma FixedIffOptimal(p: Problem, c: seq<real>)
    requires WellFormed(p) && |c| == Width(p) && NonNegative(c)
    ensures FixedPoint(p, c) <==> GlobalMinimum(p, c)
  {
    if FixedPoint(p, c) {
      FixedPointSettles(p, c, Width(p));
      forall d | |d| == Width(p) && NonNegative(d)
        ensures Objective(p, c) <= Objective(p, d)
      {
        NearOptimalBound(p, c, 0.0, SlopesAt(p, c, Width(p)), d);
      }
    }
    if GlobalMinimum(p, c) {
      forall i | 0 <= i < Width(p) && Gram(p, i, i) > 0.0
        ensures Update(p, c, i) == c[i]
      {
        UpdateDescends(p, c, i);
        assert NonNegative(c[i := Update(p, c, i)]);
      }
    }
  }

  // ---------------------------------------------------------------- the solver

  ghost predicate IsGram(p: Problem, gram: seq<seq<real>>)
    requires WellFormed(p)
  {
    && |gram| == Width(p)
    && (forall i :: 0 <= i < Width(p) ==> |gram[i]| == Width(p))
    && (forall i, j :: 0 <= i < Width(p) && 0 <= j < Width(p) ==> gram[i][j] == Gram(p, i, j))
  }

  ghost predicate IsXty(p: Problem, xty: seq<real>)
    requires WellFormed(p)
  {
    |xty| == Width(p) && forall i :: 0 <= i < Width(p) ==> xty[i] == Xty(p, i)
  }

  function OthersIn(row: seq<real>, c: seq<real>, i: int): int -> real {
    j => if j == i then 0.0 else Times(At(row, j), At(c, j))
  }

  lemma StoredRest(p: Problem, gram: seq<seq<real>>, xty: seq<real>, c: seq<real>, i: nat)
    requires WellFormed(p) && IsGram(p, gram) && IsXty(p, xty) && i < Width(p)
    ensures xty[i] - Sum(Width(p), OthersIn(gram[i], c, i)) == Rest(p, c, i)
  {
    SumEqual(Width(p), OthersIn(gram[i], c, i), Others(p, c, i));
  }

  // ---------------------------------------------------------------- one sweep as a value

  /** The coefficients after the first k coordinates were updated in turn, each seeing those before it. */
  ghost function Swept(p: Problem, c: seq<real>, k: nat): (r: seq<real>)
    requires WellFormed(p) && k <= Width(p) == |c|
    ensures |r| == |c| && forall j :: k <= j < |c| ==> r[j] == c[j]
  {
    if k == 0 then c
    else
      var before := Swept(p, c, k - 1);
      if Gram(p, k - 1, k - 1) > 0.0 then before[k - 1 := Update(p, before, k - 1)] else before
  }

  lemma {:induction false} SweptKeeps(p: Problem, c: seq<real>, k: nat, n: nat)
    requires WellFormed(p) && k <= n <= Width(p) == |c|
    ensures forall j :: 0 <= j < k ==> Swept(p, c, n)[j] == Swept(p, c, k)[j]
    decreases n
  {
    if k < n {
      SweptKeeps(p, c, k, n - 1);
    }
  }

  lemma {:induction false} FixedStays(p: Problem, c: seq<real>, k: nat)
    requires WellFormed(p) && k <= Width(p) == |c| && FixedPoint(p, c)
    ensures Swept(p, c, k) == c
    decreases k
  {
    if k > 0 {
      FixedStays(p, c, k - 1);
    }
  }

  lemma {:induction false} UnchangedPrefix(p: Problem, c: seq<real>, k: nat)
    requires WellFormed(p) && k <= Width(p) == |c| && Swept(p, c, Width(p)) == c
    ensures Swept(p, c, k) == c
  {
    SweptKeeps(p, c, k, Width(p));
  }

  lemma UnchangedAt(p: Problem, c: seq<real>, i: nat)
    requires WellFormed(p) && i < Width(p) == |c| && Swept(p, c, Width(p)) == c && Gram(p, i, i) > 0.0
    ensures Update(p, c, i) == c[i]
  {
    UnchangedPrefix(p, c, i);
    UnchangedPrefix(p, c, i + 1);
    assert Swept(p, c, i + 1) == c[i := Update(p, c, i)];
  }

  lemma UnchangedIsFixed(p: Problem, c: seq<real>)
    requires WellFormed(p) && Width(p) == |c|
    ensures Swept(p, c, Width(p)) == c <==> FixedPoint(p, c)
  {
    if FixedPoint(p, c) {
      FixedStays(p, c, Width(p));
    } else {
      var i: nat :| i < Width(p) && Gram(p, i, i) > 0.0 && Update(p, c, i) != c[i];
      if Swept(p, c, Width(p)) == c {
        UnchangedAt(p, c, i);
      }
    }
  }

  /** A full sweep that changes nothing has reached a global minimum over all c >= 0, and only then. */
  lemma UnchangedIffOptimal(p: Problem, c: seq<real>)
    requires WellFormed(p) && |c| == Width(p) && NonNegative(c)
    ensures Swept(p, c, Width(p)) == c <==> GlobalMinimum(p, c)
  {
    FixedIffOptimal(p, c);
    UnchangedIsFixed(p, c);
  }

  /** The largest change of a coordinate below k between two points. */
  ghost function LargestMove(a: seq<real>, b: seq<real>, k: nat): real
    requires k <= |a| == |b|
  {
    if k == 0 then 0.0 else MaxReal(LargestMove(a, b, k - 1), Abs(b[k - 1] - a[k - 1]))
  }

  lemma {:induction false} SameMove(a: seq<real>, b: seq<real>, b': seq<real>, k: nat)
    requires k <= |a| == |b| == |b'| && forall j :: 0 <= j < k ==> b[j] == b'[j]
    ensures LargestMove(a, b, k) == LargestMove(a, b', k)
    decreases k
  {
    if k > 0 {
      SameMove(a, b, b', k - 1);
    }
  }

  /** A sweep that started at `start` and has treated the first k coordinates. */
  ghost predicate Sweeping(p: Problem, start: seq<real>, c: seq<real>, k: nat, delta: real, slope: seq<real>)
    requires WellFormed(p) && k <= Width(p) == |start|
  {
    && c == Swept(p, start, k) && delta == LargestMove(start, c, k)
    && NonNegative(c) && Objective(p, c) <= Objective(p, start)
    && NearOptimal(p, c, k, delta, slope)
  }

  lemma SweepingUpdate(p: Problem, start: seq<real>, c: seq<real>, k: nat, delta: real, slope: seq<real>,
                       c': seq<real>, x: real, delta': real, slope': seq<real>)
    requires WellFormed(p) && k < Width(p) == |start| && Sweeping(p, start, c, k, delta, slope) && Gram(p, k, k) > 0.0
    requires x == Update(p, c, k) && c' == c[k := x] && delta' == MaxReal(delta, Abs(x - c[k])) &&
             slope' == slope + [Slope(p, c', k)]
    ensures Sweeping(p, start, c', k + 1, delta', slope')
  {
    UpdateDescends(p, c, k);
    SweepUpdate(p, c, c', k, x, delta, delta', slope, slope');
    SameMove(start, c, c', k);
  }

  lemma SweepingSkip(p: Problem, start: seq<real>, c: seq<real>, k: nat, delta: real, slope: seq<real>,
                     slope': seq<real>)
    requires WellFormed(p) && k < Width(p) == |start| && Sweeping(p, start, c, k, delta, slope) &&
             !(Gram(p, k, k) > 0.0)
    requires slope' == slope + [Slope(p, c, k)]
    ensures Sweeping(p, start, c, k + 1, delta, slope')
  {
    SweepSkip(p, c, k, delta, slope, slope');
    MoveNonNegative(start, c, k);
  }

  lemma {:induction false} MoveNonNegative(a: seq<real>, b: seq<real>, k: nat)
    requires k <= |a| == |b|
    ensures LargestMove(a, b, k) >= 0.0
    decreases k
  {
    if k > 0 {
      MoveNonNegative(a, b, k - 1);
    }
  }

  /** One pass over all coordinates, in place; returns the largest move. */
  method Sweep(ghost p: Problem, gram: seq<seq<real>>, xty: seq<real>, coeffs: array<real>)
    returns (delta: real, ghost slope: seq<real>)
    requires WellFormed(p) && IsGram(p, gram) && IsXty(p, xty)
    requires coeffs.Length == Width(p) && NonNegative(coeffs[..])
    modifies coeffs
    ensures coeffs[..] == Swept(p, old(coeffs[..]), Width(p))
    ensures delta == LargestMove(old(coeffs[..]), coeffs[..], Width(p))
    ensures NonNegative(coeffs[..])
    ensures Objective(p, coeffs[..]) <= Objective(p, old(coeffs[..]))
    ensures NearOptimal(p, coeffs[..], Width(p), delta, slope)
  {
    delta := 0.0;
    slope := [];
    ghost var start := coeffs[..];
    for i := 0 to coeffs.Length
      invariant Sweeping(p, start, coeffs[..], i, delta, slope)
    {
      ghost var c, delta0, slope0 := coeffs[..], delta, slope;
      if gram[i][i] <= 0.0 {
        slope := slope + [Slope(p, c, i)];
        SweepingSkip(p, start, c, i, delta, slope0, slope);
      } else {
        var residual := xty[i] - Sum(|gram|, OthersIn(gram[i], coeffs[..], i));
        var x := MaxReal(0.0, residual / gram[i][i]);
        StoredRest(p, gram, xty, c, i);
        delta := MaxReal(delta, Abs(x - coeffs[i]));
        coeffs[i] := x;
        assert coeffs[..] == c[i := x];
        slope := slope + [Slope(p, coeffs[..], i)];
        SweepingUpdate(p, start, c, i, delta0, slope0, coeffs[..], x, delta, slope);
      }
    }
  }

  // ---------------------------------------------------------------- many sweeps

  /** The coefficients after k full sweeps. */
  ghost function Iterated(p: Problem, c: seq<real>, k: nat): (r: seq<real>)
    requires WellFormed(p) && |c| == Width(p)
    ensures |r| == |c|
  {
    if k == 0 then c else Swept(p, Iterated(p, c, k - 1), Width(p))
  }

  /** The largest move of the k-th sweep. */
  ghost function MoveOf(p: Problem, c: seq<real>, k: nat): real
    requires WellFormed(p) && |c| == Width(p) && k >= 1
  {
    LargestMove(Iterated(p, c, k - 1), Iterated(p, c, k), Width(p))
  }

  ghost function Zeros(p: Problem): (c: seq<real>)
    requires WellFormed(p)
    ensures |c| == Width(p) && NonNegative(c) && forall i :: 0 <= i < |c| ==> c[i] == 0.0
  {
    seq(Width(p), _ => 0.0)
  }

  ghost function SquaredTargets(p: Problem): int -> real {
    r => Times(At(p.targets, r), At(p.targets, r))
  }

  lemma ZeroFits(p: Problem, r: int)
    requires WellFormed(p)
    ensures Residual(p, Zeros(p), r) == 0.0 - At(p.targets, r)
  {
    forall j | 0 <= j < Width(p)
      ensures Fitted(p, Zeros(p), r)(j) == 0.0
    {
      assert At(Zeros(p), j) == 0.0;
    }
    SumZero(Width(p), Fitted(p, Zeros(p), r));
  }

  /** At the start the objective is the sum of the squared targets. */
  lemma ZerosObjective(p: Problem)
    requires WellFormed(p)
    ensures Objective(p, Zeros(p)) == Sum(|p.rows|, SquaredTargets(p))
  {
    forall r | 0 <= r < |p.rows|
      ensures Squares(p, Zeros(p))(r) == SquaredTargets(p)(r)
    {
      ZeroFits(p, r);
      AbsSquare(0.0 - At(p.targets, r));
      AbsSquare(At(p.targets, r));
    }
    SumEqual(|p.rows|, Squares(p, Zeros(p)), SquaredTargets(p));
  }

  /** A coordinate whose Gram diagonal is not positive is left alone by every sweep. */
  lemma {:induction false} SweptSkips(p: Problem, c: seq<real>, k: nat, i: nat)
    requires WellFormed(p) && k <= Width(p) == |c| && i < Width(p) && !(Gram(p, i, i) > 0.0)
    ensures Swept(p, c, k)[i] == c[i]
    decreases k
  {
    if k > 0 {
      SweptSkips(p, c, k - 1, i);
    }
  }

  lemma {:induction false} IteratedSkips(p: Problem, c: seq<real>, k: nat, i: nat)
    requires WellFormed(p) && |c| == Width(p) && i < Width(p) && !(Gram(p, i, i) > 0.0)
    ensures Iterated(p, c, k)[i] == c[i]
  {
    if k > 0 {
      IteratedSkips(p, c, k - 1, i);
      SweptSkips(p, Iterated(p, c, k - 1), Width(p), i);
    }
  }

  /** No positive Gram diagonal is smaller than g. */
  ghost predicate DiagonalsAtLeast(p: Problem, g: real)
    requires WellFormed(p)
  {
    g > 0.0 && forall i :: 0 <= i < Width(p) && Gram(p, i, i) > 0.0 ==> g <= Gram(p, i, i)
  }

  /** An update lowers the objective by the diagonal times the squared step, so by at least g times it. */
  lemma UpdatePays(p: Problem, c: seq<real>, i: nat, g: real)
    requires WellFormed(p) && i < Width(p) == |c| && c[i] >= 0.0 && Gram(p, i, i) >= g > 0.0
    ensures var x := Update(p, c, i); Objective(p, c[i := x]) + Times(Times(c[i] - x, c[i] - x), g) <= Objective(p, c)
  {
    var x := Update(p, c, i);
    UpdateMinimises(p, c, i, c[i]);
    assert c[i := c[i]] == c;
    SquarePositive(c[i] - x);
    PositiveProduct(Times(c[i] - x, c[i] - x), Gram(p, i, i) - g);
    TimesDifferenceRight(Times(c[i] - x, c[i] - x), Gram(p, i, i), g);
  }

  lemma TimesDifferenceRight(a: real, b: real, c: real)
    ensures Times(a, b - c) == Times(a, b) - Times(a, c)
  {
  }

  /** The larger of two moves, squared, is at most what the two paid together. */
  lemma LargerSquared(a: real, b: real, g: real)
    requires a >= 0.0 && g > 0.0
    ensures Times(Times(MaxReal(a, Abs(b)), MaxReal(a, Abs(b))), g) <= Times(Times(a, a), g) + Times(Times(b, b), g)
  {
    SquarePositive(a);
    SquarePositive(b);
    PositiveProduct(Times(a, a), g);
    PositiveProduct(Times(b, b), g);
    AbsSquare(b);
  }

  lemma AbsSquare(b: real)
    ensures Times(Abs(b), Abs(b)) == Times(b, b)
  {
  }

  /** Sweeping the first k coordinates lowers the objective by at least g times the square of the largest move. */
  lemma {:induction false} SweepPays(p: Problem, c: seq<real>, k: nat, g: real)
    requires WellFormed(p) && k <= Width(p) == |c| && NonNegative(c) && DiagonalsAtLeast(p, g)
    ensures NonNegative(Swept(p, c, k))
    ensures var m := LargestMove(c, Swept(p, c, k), k);
            m >= 0.0 && Objective(p, Swept(p, c, k)) + Times(Times(m, m), g) <= Objective(p, c)
    decreases k
  {
    if k > 0 {
      SweepPays(p, c, k - 1, g);
      var before, after := Swept(p, c, k - 1), Swept(p, c, k);
      var m := LargestMove(c, before, k - 1);
      SameMove(c, before, after, k - 1);
      if Gram(p, k - 1, k - 1) > 0.0 {
        UpdatePays(p, before, k - 1, g);
        StepPays(p, c, before, after, k, m, g);
      } else {
        assert LargestMove(c, after, k) == m;
      }
    }
  }

  lemma StepPays(p: Problem, c: seq<real>, before: seq<real>, after: seq<real>, k: nat, m: real, g: real)
    requires WellFormed(p) && 1 <= k <= Width(p) == |c| == |before| == |after| && g > 0.0 && m >= 0.0
    requires c[k - 1] == before[k - 1] && m == LargestMove(c, after, k - 1)
    requires Objective(p, before) + Times(Times(m, m), g) <= Objective(p, c)
    requires var e := before[k - 1] - after[k - 1]; Objective(p, after) + Times(Times(e, e), g) <= Objective(p, before)
    ensures var m' := LargestMove(c, after, k);
            m' >= 0.0 && Objective(p, after) + Times(Times(m', m'), g) <= Objective(p, c)
  {
    var e := before[k - 1] - after[k - 1];
    assert LargestMove(c, after, k) == MaxReal(m, Abs(e));
    LargerSquared(m, e, g);
  }

  lemma ObjectiveNonNegative(p: Problem, c: seq<real>)
    requires WellFormed(p)
    ensures Objective(p, c) >= 0.0
  {
    forall r | 0 <= r < |p.rows|
      ensures Squares(p, c)(r) >= 0.0
    {
      SquarePositive(Residual(p, c, r));
    }
    SumZero(|p.rows|, r => 0.0);
    SumAtMost(|p.rows|, r => 0.0, Squares(p, c));
  }

  /** Sweep after sweep the coefficients stay non-negative and the objective falls by what the moves cost. */
  lemma {:induction false} SweepsPay(p: Problem, c: seq<real>, k: nat, g: real, e: real, cost: real)
    requires WellFormed(p) && |c| == Width(p) && NonNegative(c) && DiagonalsAtLeast(p, g) && e >= 0.0
    requires cost == Times(Times(e, e), g) && forall j :: 1 <= j <= k ==> MoveOf(p, c, j) >= e
    ensures NonNegative(Iterated(p, c, k))
    ensures Objective(p, Iterated(p, c, k)) + Times(k as real, cost) <= Objective(p, c)
    decreases k
  {
    if k > 0 {
      SweepsPay(p, c, k - 1, g, e, cost);
      OneMoreSweep(p, Iterated(p, c, k - 1), MoveOf(p, c, k), g, e, cost);
      TimesSum((k - 1) as real, 1.0, cost);
    }
  }

  lemma OneMoreSweep(p: Problem, c: seq<real>, m: real, g: real, e: real, cost: real)
    requires WellFormed(p) && |c| == Width(p) && NonNegative(c) && DiagonalsAtLeast(p, g) && 0.0 <= e <= m
    requires m == LargestMove(c, Swept(p, c, Width(p)), Width(p)) && cost == Times(Times(e, e), g)
    ensures NonNegative(Swept(p, c, Width(p))) && Objective(p, Swept(p, c, Width(p))) + cost <= Objective(p, c)
  {
    SweepPays(p, c, Width(p), g);
    SquareGrows(e, m, g);
  }

  lemma SquareGrows(e: real, m: real, g: real)
    requires 0.0 <= e <= m && g > 0.0
    ensures Times(Times(e, e), g) <= Times(Times(m, m), g)
  {
    PositiveProduct(m - e, e);
    PositiveProduct(m - e, m);
    TimesDifference(m, e, e);
    TimesDifference(m, e, m);
    TimesOrder(Times(e, e), Times(m, m), g);
  }

  /**
    The sweeps die out: the number of sweeps that move some coordinate by e or more, one after the other, is
    at most the objective at the start over g times the square of e.
  */
  lemma MovesDieOut(p: Problem, c: seq<real>, k: nat, g: real, e: real)
    requires WellFormed(p) && |c| == Width(p) && NonNegative(c) && DiagonalsAtLeast(p, g) && e > 0.0
    requires forall j :: 1 <= j <= k ==> MoveOf(p, c, j) >= e
    ensures Times(k as real, Times(Times(e, e), g)) <= Objective(p, c)
  {
    SweepsPay(p, c, k, g, e, Times(Times(e, e), g));
    ObjectiveNonNegative(p, Iterated(p, c, k));
  }

  /** What is known after k sweeps, none of them but perhaps the last moving less than the tolerance. */
  ghost predicate Solving(p: Problem, zeros: seq<real>, c: seq<real>, k: nat, moved: real, slope: seq<real>)
    requires WellFormed(p) && |zeros| == Width(p)
  {
    && c == Iterated(p, zeros, k) && NonNegative(c) && Objective(p, c) <= Objective(p, zeros)
    && (k > 0 ==> moved == MoveOf(p, zeros, k) && NearOptimal(p, c, Width(p), moved, slope))
    && forall j :: 1 <= j < k ==> MoveOf(p, zeros, j) >= FIT_TOLERANCE
  }

  lemma SolvesOn(p: Problem, zeros: seq<real>, c: seq<real>, k: nat, moved: real, slope: seq<real>,
                 c': seq<real>, moved': real, slope': seq<real>)
    requires WellFormed(p) && |zeros| == Width(p) == |c| && Solving(p, zeros, c, k, moved, slope)
    requires k > 0 ==> moved >= FIT_TOLERANCE
    requires c' == Swept(p, c, Width(p)) && moved' == LargestMove(c, c', Width(p)) && NonNegative(c')
    requires Objective(p, c') <= Objective(p, c) && NearOptimal(p, c', Width(p), moved', slope')
    ensures Solving(p, zeros, c', k + 1, moved', slope')
  {
  }

  /**
    `nnls`.  The result is that of `sweeps` full sweeps from all zeros, where `sweeps` is the number of the
    first sweep that moved nothing by 1e-12, or 500.  It is non-negative, its objective is at most the sum of the
    squared targets, a column without a positive Gram diagonal keeps the coefficient zero, and the result beats
    every non-negative point up to the last sweep's largest move times the slack.
  */
  method Solve(p: Problem) returns (coeffs: seq<real>, ghost moved: real, ghost sweeps: nat)
    requires WellFormed(p)
    ensures 1 <= sweeps <= 500
    ensures coeffs == Iterated(p, Zeros(p), sweeps) && moved == MoveOf(p, Zeros(p), sweeps)
    ensures forall k :: 1 <= k < sweeps ==> MoveOf(p, Zeros(p), k) >= 0.000000000001
    ensures sweeps == 500 || moved < 0.000000000001
    ensures |coeffs| == Width(p) && NonNegative(coeffs)
    ensures forall i :: 0 <= i < Width(p) && !(Gram(p, i, i) > 0.0) ==> coeffs[i] == 0.0
    ensures Objective(p, coeffs) <= Sum(|p.rows|, SquaredTargets(p))
    ensures forall d :: |d| == Width(p) && NonNegative(d) ==>
              Objective(p, coeffs) <= Objective(p, d) + 2.0 * Times(moved, Sum(Width(p), Slack(p, coeffs, d)))
  {
    var n := Width(p);
    var gram := seq(n, i => seq(n, j => Gram(p, i, j)));
    var xty := seq(n, i => Xty(p, i));
    var c := new real[n](_ => 0.0);
    ghost var zeros := Zeros(p);
    assert c[..] == zeros;
    moved, sweeps := 0.0, 0;
    ghost var slope := [];
    for k := 0 to MAX_FIT_SWEEPS
      invariant sweeps == k && Solving(p, zeros, c[..], k, moved, slope) && (k > 0 ==> moved >= FIT_TOLERANCE)
    {
      ghost var c0, slope0, delta0 := c[..], slope, moved;
      var delta;
      delta, slope := Sweep(p, gram, xty, c);
      SolvesOn(p, zeros, c0, k, delta0, slope0, c[..], delta, slope);
      moved, sweeps := delta, k + 1;
      if delta < FIT_TOLERANCE {
        break;
      }
    }
    coeffs := c[..];
    ZerosObjective(p);
    forall i | 0 <= i < n && !(Gram(p, i, i) > 0.0)
      ensures coeffs[i] == 0.0
    {
      IteratedSkips(p, zeros, sweeps, i);
    }
    forall d | |d| == n && NonNegative(d)
      ensures Objective(p, coeffs) <= Objective(p, d) + 2.0 * Times(moved, Sum(n, Slack(p, coeffs, d)))
    {
      NearOptimalBound(p, coeffs, moved, slope, d);
    }
  }
}
