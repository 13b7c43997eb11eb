/** Numbers and finite sets: what several of the other modules need. */
module Numbers {

  function Min(a: int, b: int): int {
    if a <= b then a else b
  }

  function Max(a: int, b: int): int {
    if a >= b then a else b
  }

  function MinReal(a: real, b: real): real {
    if a <= b then a else b
  }

  function MaxReal(a: real, b: real): real {
    if a >= b then a else b
  }

  function Abs(x: real): real {
    if x < 0.0 then -x else x
  }

  /** A product; named, so that equal factors make equal products without further reasoning. */
  function Times(x: real, y: real): real {
    x * y
  }

  function Pow2(n: nat): (r: nat)
    ensures r >= 1
  {
    if n == 0 then 1 else 2 * Pow2(n - 1)
  }

  lemma SubsetSize(a: set<int>, b: set<int>)
    requires a <= b
    ensures |a| <= |b|
  {
    assert b == a + (b - a);
  }

  lemma TimesSum(a: real, b: real, c: real)
    ensures Times(a + b, c) == Times(a, c) + Times(b, c)
  {
  }

  lemma TimesDifference(a: real, b: real, c: real)
    ensures Times(a - b, c) == Times(a, c) - Times(b, c)
  {
  }

  lemma PositiveProduct(x: real, y: real)
    requires x >= 0.0 && y >= 0.0
    ensures Times(x, y) >= 0.0 && (x > 0.0 && y > 0.0 ==> Times(x, y) > 0.0)
  {
  }

  lemma NegativeProduct(x: real, y: real)
    requires x < 0.0 && y < 0.0
    ensures Times(x, y) > 0.0
  {
  }

  /** The sign of a product with a factor that is not zero. */
  lemma ProductSign(x: real, y: real)
    requires x != 0.0
    ensures Times(x, y) == 0.0 <==> y == 0.0
    ensures Times(x, y) > 0.0 <==> (x > 0.0 && y > 0.0) || (x < 0.0 && y < 0.0)
  {
    if x > 0.0 {
      if y < 0.0 {
        PositiveProduct(x, -y);
        TimesNegate(x, y);
      } else {
        PositiveProduct(x, y);
      }
    } else if y < 0.0 {
      NegativeProduct(x, y);
    } else {
      PositiveProduct(-x, y);
      TimesNegate(y, x);
    }
  }

  lemma TimesNegate(x: real, y: real)
    ensures Times(x, -y) == -Times(x, y) && Times(-y, x) == -Times(y, x) && Times(x, y) == Times(y, x)
  {
  }

  lemma SquarePositive(x: real)
    ensures Times(x, x) >= 0.0 && (x != 0.0 ==> Times(x, x) > 0.0)
  {
    if x < 0.0 {
      NegativeProduct(x, x);
    } else {
      PositiveProduct(x, x);
    }
  }

  /** A product with a positive factor orders as the other factors do. */
  lemma TimesOrder(a: real, b: real, c: real)
    requires c > 0.0
    ensures a <= b <==> Times(a, c) <= Times(b, c)
  {
    TimesDifference(b, a, c);
    if a <= b {
      PositiveProduct(b - a, c);
    } else {
      TimesDifference(a, b, c);
      PositiveProduct(a - b, c);
    }
  }

  lemma DivideTimes(x: real, c: real)
    requires c != 0.0
    ensures Times(x / c, c) == x
  {
  }
}
