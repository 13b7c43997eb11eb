/**
  The estimators that interpolate the stored counts, for one-sided and for bounded ranges, and how far they
  can be from the exact number of distinct cards.
*/
module SliceEstimate {
  import opened Numbers
  import opened SliceDistinct
  import opened CutLayout
  import opened SliceCounts

  // ---------------------------------------------------------------- estimators

  /** `_frac`: the bucket of x and how far into it x lies. */
  function Frac(cuts: seq<int>, x: int): (r: (int, real))
    requires NonDecreasing(cuts) && |cuts| >= 2
    ensures 0 <= r.0 <= |cuts| - 2
  {
    var i := Min(Max(BisectRight(cuts, x) - 1, 0), |cuts| - 2);
    var width := cuts[i + 1] - cuts[i];
    (i, if width != 0 then (x - cuts[i]) as real / width as real else 0.0)
  }

  /** Inside the layout the bucket encloses x and the fraction is a fraction. */
  lemma FracEncloses(cuts: seq<int>, x: int)
    requires NonDecreasing(cuts) && |cuts| >= 2 && cuts[0] <= x <= cuts[|cuts| - 1]
    ensures var (i, f) := Frac(cuts, x);
            && cuts[i] <= x <= cuts[i + 1]
            && 0.0 <= f <= 1.0
            && (i + 2 < |cuts| ==> x < cuts[i + 1])
            && (cuts[i] == cuts[i + 1] ==> f == 0.0)
  {
    var r := BisectRight(cuts, x);
    var i := Frac(cuts, x).0;
    assert r >= 1;
    assert i == Min(r - 1, |cuts| - 2);
    var num, width := (x - cuts[i]) as real, (cuts[i + 1] - cuts[i]) as real;
    if width > 0.0 {
      FractionBounds(num, width);
    }
  }

  lemma FractionBounds(num: real, den: real)
    requires 0.0 <= num <= den && den > 0.0
    ensures 0.0 <= num / den <= 1.0
  {
  }

  /** Linear interpolation from a to b. */
  function Lerp(a: real, b: real, f: real): real {
    a + Times(b - a, f)
  }

  lemma LerpAbove(a: real, b: real, f: real, lo: real)
    ensures Lerp(a, b, f) - lo == Times(a - lo, 1.0 - f) + Times(b - lo, f)
  {
    TimesDifference(b - lo, a - lo, f);
    assert Times(a - lo, 1.0 - f) == (a - lo) - Times(a - lo, f);
    assert (b - lo) - (a - lo) == b - a;
  }

  lemma LerpBelow(a: real, b: real, f: real, hi: real)
    ensures hi - Lerp(a, b, f) == Times(hi - a, 1.0 - f) + Times(hi - b, f)
  {
    TimesDifference(hi - a, hi - b, f);
    assert Times(hi - a, 1.0 - f) == (hi - a) - Times(hi - a, f);
    assert (hi - a) - (hi - b) == b - a;
  }

  /** Linear interpolation stays between its ends. */
  lemma Interpolated(a: real, b: real, f: real, lo: real, hi: real)
    requires 0.0 <= f <= 1.0 && lo <= a <= hi && lo <= b <= hi
    ensures lo <= Lerp(a, b, f) <= hi
  {
    LerpAbove(a, b, f, lo);
    LerpBelow(a, b, f, hi);
    PositiveProduct(a - lo, 1.0 - f);
    PositiveProduct(b - lo, f);
    PositiveProduct(hi - a, 1.0 - f);
    PositiveProduct(hi - b, f);
  }

  function EstOneSided(cuts: seq<int>, table: seq<int>, boundary: int): real
    requires NonDecreasing(cuts) && |cuts| >= 2 && |table| == |cuts|
  {
    var (i, f) := Frac(cuts, boundary);
    MaxReal(Lerp(table[i] as real, table[i + 1] as real, f), 1.0)
  }

  /** Cuts in order from 0 to n; both the trapezoid and the evenly spaced layouts are of this form. */
  ghost predicate Spans(cuts: seq<int>, n: int) {
    Cuts(cuts, n) && |cuts| >= 2 && cuts[0] == 0 && cuts[|cuts| - 1] == n
  }

  lemma LayoutSpans(cuts: seq<int>, n: int)
    requires Layout(cuts, n)
    ensures Spans(cuts, n)
  {
  }

  ghost function BucketWidth(cuts: seq<int>, x: int): int
    requires NonDecreasing(cuts) && |cuts| >= 2
  {
    var i := Frac(cuts, x).0;
    cuts[i + 1] - cuts[i]
  }

  /** Estimate and truth between the same two counts differ by no more than those do, or by the floor of 1. */
  lemma ClampedEstimate(est: real, truth: nat, lo: int, hi: int, width: int)
    requires lo as real <= est <= hi as real && lo <= truth <= hi && hi - lo <= width
    ensures Abs(MaxReal(est, 1.0) - truth as real) <= MaxReal(width as real, 1.0)
  {
  }

  lemma PrefixEstimateAt(cards: seq<int>, cuts: seq<int>, pre: seq<int>, x: int, i: int, f: real)
    requires Cuts(cuts, |cards|) && PrefixCounts(cards, cuts, pre) && 0 <= i && i + 1 < |cuts|
    requires cuts[i] <= x <= cuts[i + 1] && 0.0 <= f <= 1.0
    ensures Abs(MaxReal(Lerp(pre[i] as real, pre[i + 1] as real, f), 1.0) - Distinct(cards, 0, x) as real)
         <= MaxReal((cuts[i + 1] - cuts[i]) as real, 1.0)
  {
    assert PrefixAt(cards, cuts[i], pre[i]) && PrefixAt(cards, cuts[i + 1], pre[i + 1]);
    DistinctWiden(cards, 0, 0, cuts[i], cuts[i + 1]);
    DistinctWiden(cards, 0, 0, cuts[i], x);
    DistinctWiden(cards, 0, 0, x, cuts[i + 1]);
    Interpolated(pre[i] as real, pre[i + 1] as real, f, pre[i] as real, pre[i + 1] as real);
    ClampedEstimate(Lerp(pre[i] as real, pre[i + 1] as real, f), Distinct(cards, 0, x), pre[i], pre[i + 1],
                    cuts[i + 1] - cuts[i]);
  }

  lemma SuffixEstimateAt(cards: seq<int>, cuts: seq<int>, suf: seq<int>, x: int, i: int, f: real)
    requires Cuts(cuts, |cards|) && SuffixCounts(cards, cuts, suf) && 0 <= i && i + 1 < |cuts|
    requires cuts[i] <= x <= cuts[i + 1] && 0.0 <= f <= 1.0
    ensures Abs(MaxReal(Lerp(suf[i] as real, suf[i + 1] as real, f), 1.0) - Distinct(cards, x, |cards|) as real)
         <= MaxReal((cuts[i + 1] - cuts[i]) as real, 1.0)
  {
    var n := |cards|;
    assert SuffixAt(cards, cuts[i], suf[i]) && SuffixAt(cards, cuts[i + 1], suf[i + 1]);
    DistinctWiden(cards, cuts[i], cuts[i + 1], n, n);
    DistinctWiden(cards, cuts[i], x, n, n);
    DistinctWiden(cards, x, cuts[i + 1], n, n);
    Interpolated(suf[i] as real, suf[i + 1] as real, f, suf[i + 1] as real, suf[i] as real);
    ClampedEstimate(Lerp(suf[i] as real, suf[i + 1] as real, f), Distinct(cards, x, n), suf[i + 1], suf[i],
                    cuts[i + 1] - cuts[i]);
  }

  /**
    For every layout, interpolating the prefix counts at any boundary misses the distinct cards below the
    boundary by at most the width of the bucket the boundary falls into, or by one.
  */
  lemma PrefixEstimate(cards: seq<int>, cuts: seq<int>, pre: seq<int>, x: int)
    requires Spans(cuts, |cards|) && PrefixCounts(cards, cuts, pre) && 0 <= x <= |cards|
    ensures Abs(EstOneSided(cuts, pre, x) - Distinct(cards, 0, x) as real) <= MaxReal(BucketWidth(cuts, x) as real, 1.0)
  {
    FracEncloses(cuts, x);
    PrefixEstimateAt(cards, cuts, pre, x, Frac(cuts, x).0, Frac(cuts, x).1);
  }

  /** The same for the suffix counts and the distinct cards from the boundary on. */
  lemma SuffixEstimate(cards: seq<int>, cuts: seq<int>, suf: seq<int>, x: int)
    requires Spans(cuts, |cards|) && SuffixCounts(cards, cuts, suf) && 0 <= x <= |cards|
    ensures Abs(EstOneSided(cuts, suf, x) - Distinct(cards, x, |cards|) as real) <=
            MaxReal(BucketWidth(cuts, x) as real, 1.0)
  {
    FracEncloses(cuts, x);
    SuffixEstimateAt(cards, cuts, suf, x, Frac(cuts, x).0, Frac(cuts, x).1);
  }

  /** One-sided ranges end to end: on a trapezoid layout both estimates are within the cap, or one, of the truth. */
  method EstimateOneSided(cards: seq<int>, capFrac: real, x: int) returns (below: real, above: real)
    requires |cards| >= 1 && 0 <= x <= |cards|
    ensures Abs(below - Distinct(cards, 0, x) as real) <= MaxReal(|cards| as real * capFrac, 1.0)
    ensures Abs(above - Distinct(cards, x, |cards|) as real) <= MaxReal(|cards| as real * capFrac, 1.0)
  {
    var cuts := Trapezoid(|cards|, capFrac);
    LayoutSpans(cuts, |cards|);
    var pre, suf := PrefixSuffix(cards, cuts);
    below := EstOneSided(cuts, pre, x);
    above := EstOneSided(cuts, suf, x);
    PrefixEstimate(cards, cuts, pre, x);
    SuffixEstimate(cards, cuts, suf, x);
  }

  // ---------------------------------------------------------------- bounded ranges

  datatype Summary = Summary(cuts: seq<int>, pre: seq<int>, suf: seq<int>, bnd: map<(int, int), int>, band: int,
                             total: int)

  ghost predicate Summarises(cards: seq<int>, s: Summary) {
    && Layout(s.cuts, |cards|) && Cuts(s.cuts, |cards|)
    && PrefixCounts(cards, s.cuts, s.pre) && SuffixCounts(cards, s.cuts, s.suf)
    && BandCounts(cards, s.cuts, s.band, s.bnd)
    && s.total == Distinct(cards, 0, |cards|)
  }

  predicate Shaped(s: Summary) {
    |s.cuts| >= 2 && |s.pre| == |s.cuts| && |s.suf| == |s.cuts|
  }

  /** The cell that the inner function `at` ends up reading. */
  function Clamp(s: Summary, ii: int, jj: int): (int, int) {
    var top := |s.cuts| - 1;
    var i := Min(ii, top - 1);
    (i, Max(Min(jj, top), i + 1))
  }

  function At(s: Summary, ii: int, jj: int): real
    requires Shaped(s) && 0 <= ii
  {
    var (i, j) := Clamp(s, ii, jj);
    if j - i <= s.band && (i, j) in s.bnd then s.bnd[(i, j)] as real
    else
      var p := s.pre[Min(j, |s.pre| - 1)];
      MaxReal(Min(p + s.suf[i] - s.total, p) as real, 1.0)
  }

  /** The bilinear blend of the four cells around (i, j). */
  function Blend(s: Summary, i: int, fi: real, j: int, fj: real): real
    requires Shaped(s) && 0 <= i
  {
    var low := Lerp(At(s, i, j), At(s, i, j + 1), fj);
    var high := Lerp(At(s, i + 1, j), At(s, i + 1, j + 1), fj);
    MaxReal(Lerp(low, high, fi), 1.0)
  }

  function EstBounded(s: Summary, lo: int, hi: int): real
    requires Shaped(s) && NonDecreasing(s.cuts)
  {
    var (i, fi) := Frac(s.cuts, lo);
    var (j, fj) := Frac(s.cuts, hi);
    Blend(s, i, fi, Max(j, i + 1), fj)
  }

  /** The exact count of the cell `at` reads. */
  ghost function CellCount(cards: seq<int>, s: Summary, ii: int, jj: int): nat
    requires Summarises(cards, s) && 0 <= ii
  {
    var (i, j) := Clamp(s, ii, jj);
    Distinct(cards, s.cuts[i], s.cuts[j])
  }

  /** A stored cell is read exactly; outside the band the fallback never under-counts. */
  lemma AtBound(cards: seq<int>, s: Summary, ii: int, jj: int)
    requires Summarises(cards, s) && 0 <= ii
    ensures var (i, j) := Clamp(s, ii, jj);
            && CellCount(cards, s, ii, jj) as real <= At(s, ii, jj)
            && (j - i <= s.band ==> At(s, ii, jj) == CellCount(cards, s, ii, jj) as real)
  {
    var (i, j) := Clamp(s, ii, jj);
    assert 0 <= i < j < |s.cuts|;
    assert CellRight(cards, s.cuts, s.band, s.bnd, i, j);
    assert PrefixAt(cards, s.cuts[j], s.pre[j]) && SuffixAt(cards, s.cuts[i], s.suf[i]);
    OverlapBound(cards, s.cuts[i], s.cuts[j]);
    DistinctWiden(cards, 0, s.cuts[i], s.cuts[j], s.cuts[j]);
  }

  /** A cell that covers a slice is never read as less than that slice has. */
  lemma CellCovers(cards: seq<int>, s: Summary, i: int, j: int, a: int, b: int)
    requires Summarises(cards, s) && 0 <= i < j < |s.cuts| && s.cuts[i] <= a <= b <= s.cuts[j]
    ensures Distinct(cards, a, b) as real <= At(s, i, j)
  {
    assert Clamp(s, i, j) == (i, j);
    DistinctWiden(cards, s.cuts[i], a, b, s.cuts[j]);
    AtBound(cards, s, i, j);
  }

  /** A stored cell inside two cuts is never read as more than there is between them. */
  lemma CellWithin(cards: seq<int>, s: Summary, ii: int, jj: int, a: int, b: int)
    requires Summarises(cards, s) && 0 <= ii && 0 <= a <= b < |s.cuts| && b - a <= s.band
    requires var (i, j) := Clamp(s, ii, jj); a <= i < j <= b
    ensures At(s, ii, jj) <= Distinct(cards, s.cuts[a], s.cuts[b]) as real
  {
    var (i, j) := Clamp(s, ii, jj);
    DistinctWiden(cards, s.cuts[a], s.cuts[i], s.cuts[j], s.cuts[b]);
    AtBound(cards, s, ii, jj);
  }

  /** Bilinear interpolation stays between bounds on its four corners. */
  lemma Bilinear(a: real, b: real, c: real, d: real, fi: real, fj: real, least: real, most: real)
    requires 0.0 <= fi <= 1.0 && 0.0 <= fj <= 1.0
    requires least <= a <= most && least <= b <= most && least <= c <= most && least <= d <= most
    ensures least <= Lerp(Lerp(a, b, fj), Lerp(c, d, fj), fi) <= most
  {
    Interpolated(a, b, fj, least, most);
    Interpolated(c, d, fj, least, most);
    Interpolated(Lerp(a, b, fj), Lerp(c, d, fj), fi, least, most);
  }

  /** The bucket of the lower end, and the bucket the code pairs with the upper end. */
  ghost function LowBucket(s: Summary, lo: int): int
    requires Shaped(s) && NonDecreasing(s.cuts)
  {
    Frac(s.cuts, lo).0
  }

  ghost function HighBucket(s: Summary, lo: int, hi: int): int
    requires Shaped(s) && NonDecreasing(s.cuts)
  {
    Max(Frac(s.cuts, hi).0, Frac(s.cuts, lo).0 + 1)
  }

  ghost predicate Fraction(f: real) {
    0.0 <= f <= 1.0
  }

  lemma Blended(a: real, b: real, c: real, d: real, fi: real, fj: real, least: real)
    requires Fraction(fi) && Fraction(fj) && least <= a && least <= b && least <= c && least <= d
    ensures least <= MaxReal(Lerp(Lerp(a, b, fj), Lerp(c, d, fj), fi), 1.0)
  {
    var most := MaxReal(MaxReal(a, b), MaxReal(c, d));
    Bilinear(a, b, c, d, fi, fj, least, most);
  }

  lemma BlendedBelow(a: real, b: real, c: real, d: real, fi: real, fj: real, most: real)
    requires Fraction(fi) && Fraction(fj) && a <= most && b <= most && c <= most && d <= most && most >= 1.0
    ensures MaxReal(Lerp(Lerp(a, b, fj), Lerp(c, d, fj), fi), 1.0) <= most
  {
    var least := MinReal(MinReal(a, b), MinReal(c, d));
    Bilinear(a, b, c, d, fi, fj, least, most);
  }

  lemma BlendAbove(s: Summary, i: int, fi: real, j: int, fj: real, least: real)
    requires Shaped(s) && 0 <= i && Fraction(fi) && Fraction(fj)
    requires least <= At(s, i, j) && least <= At(s, i, j + 1) && least <= At(s, i + 1, j) &&
             least <= At(s, i + 1, j + 1)
    ensures least <= Blend(s, i, fi, j, fj)
  {
    Blended(At(s, i, j), At(s, i, j + 1), At(s, i + 1, j), At(s, i + 1, j + 1), fi, fj, least);
  }

  lemma BlendBelow(s: Summary, i: int, fi: real, j: int, fj: real, most: real)
    requires Shaped(s) && 0 <= i && Fraction(fi) && Fraction(fj) && most >= 1.0
    requires At(s, i, j) <= most && At(s, i, j + 1) <= most && At(s, i + 1, j) <= most && At(s, i + 1, j + 1) <= most
    ensures Blend(s, i, fi, j, fj) <= most
  {
    BlendedBelow(At(s, i, j), At(s, i, j + 1), At(s, i + 1, j), At(s, i + 1, j + 1), fi, fj, most);
  }

  /** With the end buckets apart, the four cells are at least the count of the cuts just inside. */
  lemma InnerCells(cards: seq<int>, s: Summary, i: int, j: int, inner: real)
    requires Summarises(cards, s) && 0 <= i && i + 2 <= j <= |s.cuts| - 2
    requires inner == Distinct(cards, s.cuts[i + 1], s.cuts[j]) as real
    ensures inner <= At(s, i, j) && inner <= At(s, i, j + 1) && inner <= At(s, i + 1, j) && inner <= At(s, i + 1, j + 1)
  {
    var a, b := s.cuts[i + 1], s.cuts[j];
    CellCovers(cards, s, i, j, a, b);
    CellCovers(cards, s, i, j + 1, a, b);
    CellCovers(cards, s, i + 1, j, a, b);
    CellCovers(cards, s, i + 1, j + 1, a, b);
  }

  /** Inside the band, the four cells are at most the count of the enclosing cuts. */
  lemma OuterCells(cards: seq<int>, s: Summary, i: int, j: int, b: int, outer: real)
    requires Summarises(cards, s) && 0 <= i < j && i + 1 < |s.cuts|
    requires b == Min(j + 1, |s.cuts| - 1) && b - i <= s.band && outer == Distinct(cards, s.cuts[i], s.cuts[b]) as real
    ensures At(s, i, j) <= outer && At(s, i, j + 1) <= outer && At(s, i + 1, j) <= outer && At(s, i + 1, j + 1) <= outer
  {
    CellWithin(cards, s, i, j, i, b);
    CellWithin(cards, s, i, j + 1, i, b);
    CellWithin(cards, s, i + 1, j, i, b);
    CellWithin(cards, s, i + 1, j + 1, i, b);
  }

  lemma OuterBlend(cards: seq<int>, s: Summary, i: int, fi: real, j: int, fj: real, b: int, outer: real)
    requires Summarises(cards, s) && 0 <= i < j && i + 1 < |s.cuts| && Fraction(fi) && Fraction(fj)
    requires b == Min(j + 1, |s.cuts| - 1) && b - i <= s.band && outer == Distinct(cards, s.cuts[i], s.cuts[b]) as real
    ensures Blend(s, i, fi, j, fj) <= outer
  {
    DistinctAtMost(cards, s.cuts[i], s.cuts[b]);
    OuterCells(cards, s, i, j, b, outer);
    BlendBelow(s, i, fi, j, fj, outer);
  }

  /** With the end buckets apart, the estimate is at least the count of the cuts just inside the range. */
  lemma AtLeastInner(cards: seq<int>, s: Summary, lo: int, hi: int, i: int, j: int)
    requires Summarises(cards, s) && 0 <= lo <= hi <= |cards|
    requires i == LowBucket(s, lo) && j == Frac(s.cuts, hi).0 && i + 2 <= j
    ensures Distinct(cards, s.cuts[i + 1], s.cuts[j]) as real <= EstBounded(s, lo, hi)
  {
    FracEncloses(s.cuts, lo);
    FracEncloses(s.cuts, hi);
    var inner := Distinct(cards, s.cuts[i + 1], s.cuts[j]) as real;
    InnerCells(cards, s, i, j, inner);
    BlendAbove(s, i, Frac(s.cuts, lo).1, j, Frac(s.cuts, hi).1, inner);
  }

  /** With all four cells inside the band, the estimate is at most the count of the enclosing cuts. */
  lemma AtMostOuter(cards: seq<int>, s: Summary, lo: int, hi: int, i: int, b: int)
    requires Summarises(cards, s) && 0 <= lo <= hi <= |cards|
    requires i == LowBucket(s, lo) && b == Min(HighBucket(s, lo, hi) + 1, |s.cuts| - 1) && b - i <= s.band
    ensures 0 <= i < b < |s.cuts| && EstBounded(s, lo, hi) <= Distinct(cards, s.cuts[i], s.cuts[b]) as real
  {
    FracEncloses(s.cuts, lo);
    FracEncloses(s.cuts, hi);
    OuterBlend(cards, s, i, Frac(s.cuts, lo).1, HighBucket(s, lo, hi), Frac(s.cuts, hi).1, b,
               Distinct(cards, s.cuts[i], s.cuts[b]) as real);
  }

  lemma TruthBetween(cards: seq<int>, s: Summary, lo: int, hi: int, i: int, j: int, inner: int, outer: int)
    requires Summarises(cards, s) && 0 <= i && i + 1 <= j && j + 1 < |s.cuts|
    requires s.cuts[i] <= lo <= s.cuts[i + 1] && s.cuts[j] <= hi <= s.cuts[j + 1]
    requires inner == Distinct(cards, s.cuts[i + 1], s.cuts[j]) && outer == Distinct(cards, s.cuts[i], s.cuts[j + 1])
    ensures inner <= Distinct(cards, lo, hi) <= outer
    ensures outer - inner <= (s.cuts[i + 1] - s.cuts[i]) + (s.cuts[j + 1] - s.cuts[j])
  {
    DistinctWiden(cards, lo, s.cuts[i + 1], s.cuts[j], hi);
    DistinctWiden(cards, s.cuts[i], lo, hi, s.cuts[j + 1]);
    DistinctWiden(cards, s.cuts[i], s.cuts[i + 1], s.cuts[j], s.cuts[j + 1]);
  }

  /**
    With the end buckets apart and all four cells inside the band, the estimate and the truth both lie
    between the count of the cuts just inside the range and the count of the cuts just outside it.
  */
  lemma BoundedSandwich(cards: seq<int>, s: Summary, lo: int, hi: int, i: int, j: int, inner: int, outer: int)
    requires Summarises(cards, s) && 0 <= lo <= hi <= |cards| && i == LowBucket(s, lo) && j == Frac(s.cuts, hi).0
    requires i + 2 <= j && j + 1 - i <= s.band
    requires inner == Distinct(cards, s.cuts[i + 1], s.cuts[j]) && outer == Distinct(cards, s.cuts[i], s.cuts[j + 1])
    ensures inner as real <= EstBounded(s, lo, hi) <= outer as real
    ensures inner <= Distinct(cards, lo, hi) <= outer
    ensures outer - inner <= (s.cuts[i + 1] - s.cuts[i]) + (s.cuts[j + 1] - s.cuts[j])
  {
    assert inner as real <= EstBounded(s, lo, hi) <= outer as real by {
      AtLeastInner(cards, s, lo, hi, i, j);
      AtMostOuter(cards, s, lo, hi, i, j + 1);
    }
    assert s.cuts[i] <= lo <= s.cuts[i + 1] && s.cuts[j] <= hi <= s.cuts[j + 1] by {
      FracEncloses(s.cuts, lo);
      FracEncloses(s.cuts, hi);
    }
    TruthBetween(cards, s, lo, hi, i, j, inner, outer);
  }

  /** The widths of the two buckets at the ends of the range, as the code picks them. */
  ghost function EndWidths(s: Summary, lo: int, hi: int): int
    requires Shaped(s) && NonDecreasing(s.cuts)
  {
    var i, j := LowBucket(s, lo), Min(HighBucket(s, lo, hi), |s.cuts| - 2);
    (s.cuts[i + 1] - s.cuts[i]) + (s.cuts[j + 1] - s.cuts[j])
  }

  /** The two cuts that enclose the range and everything the estimate reads. */
  lemma Enclosure(cards: seq<int>, s: Summary, lo: int, hi: int)
    requires Summarises(cards, s) && 0 <= lo <= hi <= |cards|
    ensures var i, b := LowBucket(s, lo), Min(HighBucket(s, lo, hi) + 1, |s.cuts| - 1);
            && 0 <= i < b < |s.cuts|
            && s.cuts[i] <= lo && hi <= s.cuts[b]
            && (b <= i + 2 ==> s.cuts[b] - s.cuts[i] <= EndWidths(s, lo, hi))
  {
    FracEncloses(s.cuts, lo);
    FracEncloses(s.cuts, hi);
  }

  /** The distinct cards between two cuts, and those that straddle them. */
  ghost function Ceiling(cards: seq<int>, s: Summary, a: int, b: int): nat
    requires Summarises(cards, s) && 0 <= a < b < |s.cuts|
  {
    Distinct(cards, s.cuts[a], s.cuts[b]) + |Straddling(cards, s.cuts[a], s.cuts[b])|
  }

  /** Stored or not, a cell inside two cuts is read as at most their ceiling. */
  lemma CellAtMost(cards: seq<int>, s: Summary, ii: int, jj: int, a: int, b: int)
    requires Summarises(cards, s) && 0 <= ii && 0 <= a < b < |s.cuts|
    requires var (i, j) := Clamp(s, ii, jj); a <= i < j <= b
    ensures At(s, ii, jj) <= Ceiling(cards, s, a, b) as real
  {
    var (i, j) := Clamp(s, ii, jj);
    DistinctAtMost(cards, s.cuts[a], s.cuts[b]);
    StraddlingWidens(cards, s.cuts[a], s.cuts[i], s.cuts[j], s.cuts[b]);
    OverlapExact(cards, s.cuts[i], s.cuts[j]);
    assert CellRight(cards, s.cuts, s.band, s.bnd, i, j);
    assert PrefixAt(cards, s.cuts[j], s.pre[j]) && SuffixAt(cards, s.cuts[i], s.suf[i]);
  }

  lemma CornerAtMost(cards: seq<int>, s: Summary, i: int, j: int, b: int, ii: int, jj: int, most: real)
    requires Summarises(cards, s) && 0 <= i < j && i + 1 < |s.cuts| && b == Min(j + 1, |s.cuts| - 1)
    requires i <= ii <= i + 1 && j <= jj <= j + 1 && most == Ceiling(cards, s, i, b) as real
    ensures At(s, ii, jj) <= most
  {
    CellAtMost(cards, s, ii, jj, i, b);
  }

  lemma CeilingPositive(cards: seq<int>, s: Summary, a: int, b: int)
    requires Summarises(cards, s) && 0 <= a < b < |s.cuts|
    ensures Ceiling(cards, s, a, b) >= 1
  {
    DistinctAtMost(cards, s.cuts[a], s.cuts[b]);
  }

  ghost predicate CornerBelow(s: Summary, ii: int, jj: int, most: real)
    requires Shaped(s) && 0 <= ii
  {
    At(s, ii, jj) <= most
  }

  ghost predicate CornersBelow(s: Summary, i: int, j: int, most: real)
    requires Shaped(s) && 0 <= i
  {
    forall ii, jj {:trigger CornerBelow(s, ii, jj, most)} ::
      i <= ii <= i + 1 && j <= jj <= j + 1 ==> CornerBelow(s, ii, jj, most)
  }

  lemma CornersAtMost(cards: seq<int>, s: Summary, i: int, j: int, b: int, most: real)
    requires Summarises(cards, s) && 0 <= i < j && i + 1 < |s.cuts| && b == Min(j + 1, |s.cuts| - 1)
    requires most == Ceiling(cards, s, i, b) as real
    ensures CornersBelow(s, i, j, most) && most >= 1.0
  {
    CeilingPositive(cards, s, i, b);
    forall ii, jj | i <= ii <= i + 1 && j <= jj <= j + 1
      ensures CornerBelow(s, ii, jj, most)
    {
      CornerAtMost(cards, s, i, j, b, ii, jj, most);
    }
  }

  lemma BlendFromCorners(s: Summary, i: int, fi: real, j: int, fj: real, most: real)
    requires Shaped(s) && 0 <= i && Fraction(fi) && Fraction(fj) && most >= 1.0 && CornersBelow(s, i, j, most)
    ensures Blend(s, i, fi, j, fj) <= most
  {
    assert CornerBelow(s, i, j, most) && CornerBelow(s, i, j + 1, most);
    assert CornerBelow(s, i + 1, j, most) && CornerBelow(s, i + 1, j + 1, most);
    BlendBelow(s, i, fi, j, fj, most);
  }

  /**
    In the band or outside it, the estimate is at most the distinct cards between the enclosing cuts and those
    that straddle them.
  */
  lemma BoundedNeverFarAbove(cards: seq<int>, s: Summary, lo: int, hi: int, i: int, b: int)
    requires Summarises(cards, s) && 0 <= lo <= hi <= |cards|
    requires i == LowBucket(s, lo) && b == Min(HighBucket(s, lo, hi) + 1, |s.cuts| - 1)
    ensures 0 <= i < b < |s.cuts| && s.cuts[i] <= lo && hi <= s.cuts[b]
    ensures EstBounded(s, lo, hi) <= Ceiling(cards, s, i, b) as real
  {
    FracEncloses(s.cuts, lo);
    FracEncloses(s.cuts, hi);
    CornersAtMost(cards, s, i, HighBucket(s, lo, hi), b, Ceiling(cards, s, i, b) as real);
    BlendFromCorners(s, i, Frac(s.cuts, lo).1, HighBucket(s, lo, hi), Frac(s.cuts, hi).1,
                     Ceiling(cards, s, i, b) as real);
  }

  /** In the band or outside it, the estimate never falls short of the truth by more than the end buckets. */
  lemma BoundedNeverFarBelow(cards: seq<int>, s: Summary, lo: int, hi: int)
    requires Summarises(cards, s) && 0 <= lo <= hi <= |cards|
    ensures Distinct(cards, lo, hi) as real - EndWidths(s, lo, hi) as real <= EstBounded(s, lo, hi)
  {
    var i, j := LowBucket(s, lo), Frac(s.cuts, hi).0;
    FracEncloses(s.cuts, lo);
    FracEncloses(s.cuts, hi);
    if i + 2 <= j {
      AtLeastInner(cards, s, lo, hi, i, j);
      DistinctWiden(cards, lo, s.cuts[i + 1], s.cuts[j], hi);
    } else {
      Enclosure(cards, s, lo, hi);
      DistinctAtMost(cards, lo, hi);
      assert EstBounded(s, lo, hi) >= 1.0;
    }
  }

  /** Inside the band the estimate misses the truth, on either side, by at most the end buckets. */
  lemma BoundedError(cards: seq<int>, s: Summary, lo: int, hi: int)
    requires Summarises(cards, s) && 0 <= lo <= hi <= |cards|
    requires Min(HighBucket(s, lo, hi) + 1, |s.cuts| - 1) - LowBucket(s, lo) <= s.band
    ensures Abs(EstBounded(s, lo, hi) - Distinct(cards, lo, hi) as real) <= EndWidths(s, lo, hi) as real
  {
    var i, j := LowBucket(s, lo), Frac(s.cuts, hi).0;
    var b := Min(HighBucket(s, lo, hi) + 1, |s.cuts| - 1);
    BoundedNeverFarBelow(cards, s, lo, hi);
    if i + 2 <= j {
      BoundedSandwich(cards, s, lo, hi, i, j, Distinct(cards, s.cuts[i + 1], s.cuts[j]),
                      Distinct(cards, s.cuts[i], s.cuts[j + 1]));
    } else {
      Enclosure(cards, s, lo, hi);
      AtMostOuter(cards, s, lo, hi, i, b);
      DistinctAtMost(cards, s.cuts[i], s.cuts[b]);
    }
  }

  /** The summary that `study_bounded` stores for one dimension. */
  method Summarise(cards: seq<int>, capFrac: real, band: int) returns (s: Summary)
    requires |cards| >= 1
    ensures Summarises(cards, s) && s.band == band
    ensures Gapped(s.cuts, CapOf(|cards|, capFrac))
  {
    var cuts := Trapezoid(|cards|, capFrac);
    LayoutSpans(cuts, |cards|);
    var pre, suf := PrefixSuffix(cards, cuts);
    var bnd := Banded(cards, cuts, band);
    assert cards[0..|cards|] == cards;
    s := Summary(cuts, pre, suf, bnd, band, |Elements(cards)|);
  }
}
