/**
  What the interpolation is for: where the estimators read between their stored counts, and where they are exact.
*/
module SliceInterpolation {
  import opened Numbers
  import opened SliceDistinct
  import opened CutLayout
  import opened SliceCounts
  import opened SliceEstimate

  // ---------------------------------------------------------------- positions

  lemma LerpAlong(a: real, b: real, x: real)
    requires b != a
    ensures Lerp(a, b, (x - a) / (b - a)) == x
  {
    DivideTimes(x - a, b - a);
    TimesSwap((x - a) / (b - a), b - a);
  }

  lemma TimesSwap(x: real, y: real)
    ensures Times(x, y) == Times(y, x)
  {
  }

  lemma LerpEnds(a: real, b: real)
    ensures Lerp(a, b, 0.0) == a && Lerp(a, b, 1.0) == b
  {
  }

  lemma LerpFrom(c: real, a: real, b: real, f: real)
    ensures Lerp(c - a, c - b, f) == c - Lerp(a, b, f) && Lerp(a - c, b - c, f) == Lerp(a, b, f) - c
  {
    TimesNegate(f, b - a);
    TimesSwap(f, b - a);
    assert (c - b) - (c - a) == -(b - a) && (b - c) - (a - c) == b - a;
  }

  /** The bucket and the fraction say where x is: going that far from the one cut to the next arrives at x. */
  lemma FracReconstructs(cuts: seq<int>, x: int)
    requires Increasing(cuts) && |cuts| >= 2
    ensures var (i, f) := Frac(cuts, x); Lerp(cuts[i] as real, cuts[i + 1] as real, f) == x as real
  {
    var i := Frac(cuts, x).0;
    LerpAlong(cuts[i] as real, cuts[i + 1] as real, x as real);
  }

  /** A cut is the beginning of its bucket, and the last one the end of the last bucket. */
  lemma FracAtCut(cuts: seq<int>, a: nat)
    requires Increasing(cuts) && |cuts| >= 2 && a < |cuts|
    ensures Frac(cuts, cuts[a]) == if a + 1 < |cuts| then (a as int, 0.0) else (a - 1, 1.0)
  {
    var r := BisectRight(cuts, cuts[a]);
    assert cuts[a] <= cuts[a] && (a + 1 < |cuts| ==> !(cuts[a + 1] <= cuts[a]));
    assert r == a + 1;
    if a + 1 == |cuts| {
      WholeFraction((cuts[a] - cuts[a - 1]) as real);
    }
  }

  lemma WholeFraction(w: real)
    requires w != 0.0
    ensures w / w == 1.0
  {
  }

  // ---------------------------------------------------------------- on the cuts

  /** At a cut both one-sided estimates are the stored counts. */
  lemma OneSidedAtCut(cards: seq<int>, cuts: seq<int>, pre: seq<int>, suf: seq<int>, a: nat)
    requires Layout(cuts, |cards|) && Cuts(cuts, |cards|) && a < |cuts|
    requires PrefixCounts(cards, cuts, pre) && SuffixCounts(cards, cuts, suf)
    ensures EstOneSided(cuts, pre, cuts[a]) == MaxReal(Distinct(cards, 0, cuts[a]) as real, 1.0)
    ensures EstOneSided(cuts, suf, cuts[a]) == MaxReal(Distinct(cards, cuts[a], |cards|) as real, 1.0)
  {
    FracAtCut(cuts, a);
    assert PrefixAt(cards, cuts[a], pre[a]) && SuffixAt(cards, cuts[a], suf[a]);
    var i := if a + 1 < |cuts| then a as int else a - 1;
    LerpEnds(pre[i] as real, pre[i + 1] as real);
    LerpEnds(suf[i] as real, suf[i + 1] as real);
  }

  /** Outside the band a cell is read as its distinct cards and those that straddle it. */
  lemma AtOutside(cards: seq<int>, s: Summary, a: nat, b: nat)
    requires Summarises(cards, s) && a < b < |s.cuts| && b - a > s.band
    ensures At(s, a, b) == Ceiling(cards, s, a, b) as real
  {
    assert Clamp(s, a, b) == (a as int, b as int);
    assert CellRight(cards, s.cuts, s.band, s.bnd, a, b);
    assert PrefixAt(cards, s.cuts[b], s.pre[b]) && SuffixAt(cards, s.cuts[a], s.suf[a]);
    OverlapExact(cards, s.cuts[a], s.cuts[b]);
    CeilingPositive(cards, s, a, b);
    DistinctWiden(cards, 0, s.cuts[a], |cards|, |cards|);
  }

  lemma BlendOf(s: Summary, i: nat, fi: real, j: int, fj: real, a: real, b: real, c: real, d: real)
    requires Shaped(s) && a == At(s, i, j) && b == At(s, i, j + 1) && c == At(s, i + 1, j) && d == At(s, i + 1, j + 1)
    ensures Blend(s, i, fi, j, fj) == MaxReal(Lerp(Lerp(a, b, fj), Lerp(c, d, fj), fi), 1.0)
  {
  }

  /** Going nowhere, or all the way, a blend reads one cell. */
  lemma BlendAtCorner(s: Summary, i: nat, j: int)
    requires Shaped(s)
    ensures Blend(s, i, 0.0, j, 0.0) == MaxReal(At(s, i, j), 1.0)
    ensures Blend(s, i, 0.0, j, 1.0) == MaxReal(At(s, i, j + 1), 1.0)
  {
    var a, b, c, d := At(s, i, j), At(s, i, j + 1), At(s, i + 1, j), At(s, i + 1, j + 1);
    BlendOf(s, i, 0.0, j, 0.0, a, b, c, d);
    BlendOf(s, i, 0.0, j, 1.0, a, b, c, d);
    LerpEnds(a, b);
    LerpEnds(a, Lerp(c, d, 0.0));
    LerpEnds(b, Lerp(c, d, 1.0));
  }

  lemma EstIsBlend(s: Summary, lo: int, hi: int, i: int, fi: real, j: int, fj: real)
    requires Shaped(s) && NonDecreasing(s.cuts) && Frac(s.cuts, lo) == (i, fi) && Frac(s.cuts, hi) == (j, fj)
    ensures EstBounded(s, lo, hi) == Blend(s, i, fi, Max(j, i + 1), fj)
  {
  }

  lemma ReadsFirst(s: Summary, lo: int, hi: int, a: nat, b: nat)
    requires Shaped(s) && NonDecreasing(s.cuts) && a < b
    requires Frac(s.cuts, lo) == (a as int, 0.0) && Frac(s.cuts, hi) == (b as int, 0.0)
    ensures EstBounded(s, lo, hi) == MaxReal(At(s, a, b), 1.0)
  {
    EstIsBlend(s, lo, hi, a, 0.0, b, 0.0);
    BlendAtCorner(s, a, b);
  }

  lemma ReadsLast(s: Summary, lo: int, hi: int, a: nat, b: nat)
    requires Shaped(s) && NonDecreasing(s.cuts) && a < b == |s.cuts| - 1
    requires Frac(s.cuts, lo) == (a as int, 0.0) && Frac(s.cuts, hi) == (b - 1, 1.0)
    ensures EstBounded(s, lo, hi) == MaxReal(At(s, a, b), 1.0)
  {
    var j := Max(b - 1, a + 1);
    EstIsBlend(s, lo, hi, a, 0.0, b - 1, 1.0);
    BlendAtCorner(s, a, j);
    SameCell(s, a, b, j);
  }

  /** Past the last cut the last one is read. */
  lemma SameCell(s: Summary, a: nat, b: nat, j: int)
    requires Shaped(s) && a < b == |s.cuts| - 1 && j == Max(b - 1, a + 1)
    ensures At(s, a, j + 1) == At(s, a, b)
  {
    assert Clamp(s, a, j + 1) == Clamp(s, a, b);
  }

  /** Between two cuts the estimate is the one cell these cuts bound. */
  lemma ReadsOneCell(s: Summary, a: nat, b: nat)
    requires Shaped(s) && Increasing(s.cuts) && a < b < |s.cuts|
    ensures EstBounded(s, s.cuts[a], s.cuts[b]) == MaxReal(At(s, a, b), 1.0)
  {
    FracAtCut(s.cuts, a);
    FracAtCut(s.cuts, b);
    if b < |s.cuts| - 1 {
      ReadsFirst(s, s.cuts[a], s.cuts[b], a, b);
    } else {
      ReadsLast(s, s.cuts[a], s.cuts[b], a, b);
    }
  }

  /**
    For any rows: a range from one cut to another is answered, inside the band, with the stored count, which is
    exact, and outside it with the distinct cards of the range and those that straddle it.
  */
  lemma BoundedAtCuts(cards: seq<int>, s: Summary, a: nat, b: nat)
    requires Summarises(cards, s) && a < b < |s.cuts|
    ensures EstBounded(s, s.cuts[a], s.cuts[b]) ==
            if b - a <= s.band then Distinct(cards, s.cuts[a], s.cuts[b]) as real else Ceiling(cards, s, a, b) as real
  {
    ReadsOneCell(s, a, b);
    DistinctAtMost(cards, s.cuts[a], s.cuts[b]);
    if b - a <= s.band {
      AtBound(cards, s, a, b);
    } else {
      AtOutside(cards, s, a, b);
    }
  }

  // ---------------------------------------------------------------- rows that are all different

  ghost predicate AllDifferent(cards: seq<int>) {
    forall i, j :: 0 <= i < j < |cards| ==> cards[i] != cards[j]
  }

  lemma {:induction false} DifferentElements(s: seq<int>)
    requires AllDifferent(s)
    ensures |Elements(s)| == |s|
  {
    if s != [] {
      var n := |s| - 1;
      DifferentElements(s[..n]);
      assert s == s[..n] + [s[n]];
      assert Elements(s) == Elements(s[..n]) + {s[n]};
    }
  }

  lemma DifferentCount(cards: seq<int>, lo: int, hi: int)
    requires AllDifferent(cards) && 0 <= lo <= hi <= |cards|
    ensures Distinct(cards, lo, hi) == hi - lo
  {
    DifferentElements(cards[lo..hi]);
  }

  lemma TablesAreWidths(cards: seq<int>, cuts: seq<int>, pre: seq<int>, suf: seq<int>, i: nat)
    requires AllDifferent(cards) && Cuts(cuts, |cards|) && i < |cuts|
    requires PrefixCounts(cards, cuts, pre) && SuffixCounts(cards, cuts, suf)
    ensures pre[i] == cuts[i] && suf[i] == |cards| - cuts[i]
  {
    assert PrefixAt(cards, cuts[i], pre[i]) && SuffixAt(cards, cuts[i], suf[i]);
    DifferentCount(cards, 0, cuts[i]);
    DifferentCount(cards, cuts[i], |cards|);
  }

  /** The one-sided estimates are then exact at every position. */
  lemma OneSidedExact(cards: seq<int>, cuts: seq<int>, pre: seq<int>, suf: seq<int>, x: int)
    requires AllDifferent(cards) && Layout(cuts, |cards|) && Cuts(cuts, |cards|) && 0 <= x <= |cards|
    requires PrefixCounts(cards, cuts, pre) && SuffixCounts(cards, cuts, suf)
    ensures EstOneSided(cuts, pre, x) == MaxReal(x as real, 1.0)
    ensures EstOneSided(cuts, suf, x) == MaxReal((|cards| - x) as real, 1.0)
  {
    var (i, f) := Frac(cuts, x);
    FracReconstructs(cuts, x);
    TablesAreWidths(cards, cuts, pre, suf, i);
    TablesAreWidths(cards, cuts, pre, suf, i + 1);
    LerpFrom(|cards| as real, cuts[i] as real, cuts[i + 1] as real, f);
  }

  /** Every cell, stored or not, is read as its width. */
  lemma CellIsWidth(cards: seq<int>, s: Summary, a: nat, b: nat)
    requires Summarises(cards, s) && AllDifferent(cards) && a < b < |s.cuts|
    ensures At(s, a, b) == s.cuts[b] as real - s.cuts[a] as real
  {
    var x, y, n := s.cuts[a], s.cuts[b], |cards|;
    assert Clamp(s, a, b) == (a as int, b as int);
    DifferentCount(cards, x, y);
    if b - a <= s.band {
      AtBound(cards, s, a, b);
    } else {
      AtOutside(cards, s, a, b);
      OverlapExact(cards, x, y);
      DifferentCount(cards, 0, y);
      DifferentCount(cards, x, n);
      DifferentCount(cards, 0, n);
    }
  }

  /** The blend of four widths is the width between the two blended positions. */
  lemma WidthsBlend(a: real, a': real, b: real, b': real, fi: real, fj: real)
    ensures Lerp(Lerp(b - a, b' - a, fj), Lerp(b - a', b' - a', fj), fi) == Lerp(b, b', fj) - Lerp(a, a', fi)
  {
    var y := Lerp(b, b', fj);
    LerpFrom(a, b, b', fj);
    LerpFrom(a', b, b', fj);
    LerpFrom(y, a, a', fi);
  }

  lemma BlendIsWidth(cards: seq<int>, s: Summary, i: nat, fi: real, j: nat, fj: real, lo: real, hi: real)
    requires Summarises(cards, s) && AllDifferent(cards) && i + 2 <= j && j + 1 < |s.cuts|
    requires lo == Lerp(s.cuts[i] as real, s.cuts[i + 1] as real, fi)
    requires hi == Lerp(s.cuts[j] as real, s.cuts[j + 1] as real, fj)
    ensures Blend(s, i, fi, j, fj) == MaxReal(hi - lo, 1.0)
  {
    var a, a', b, b' := s.cuts[i] as real, s.cuts[i + 1] as real, s.cuts[j] as real, s.cuts[j + 1] as real;
    CellIsWidth(cards, s, i, j);
    CellIsWidth(cards, s, i, j + 1);
    CellIsWidth(cards, s, i + 1, j);
    CellIsWidth(cards, s, i + 1, j + 1);
    BlendOf(s, i, fi, j, fj, b - a, b' - a, b - a', b' - a');
    WidthsBlend(a, a', b, b', fi, fj);
  }

  /** With the end buckets apart, in the band or outside it, a bounded range is then estimated exactly. */
  lemma BoundedExact(cards: seq<int>, s: Summary, lo: int, hi: int, i: nat, j: nat)
    requires Summarises(cards, s) && AllDifferent(cards) && 0 <= lo <= hi <= |cards|
    requires i == Frac(s.cuts, lo).0 && j == Frac(s.cuts, hi).0 && i + 2 <= j
    ensures EstBounded(s, lo, hi) == (hi - lo) as real
  {
    var fi, fj := Frac(s.cuts, lo).1, Frac(s.cuts, hi).1;
    EstIsBlend(s, lo, hi, i, fi, j, fj);
    FracReconstructs(s.cuts, lo);
    FracReconstructs(s.cuts, hi);
    BlendIsWidth(cards, s, i, fi, j, fj, lo as real, hi as real);
    FracEncloses(s.cuts, lo);
    FracEncloses(s.cuts, hi);
  }

  /** With the ends in neighbouring buckets, the cell that would be empty is read as the whole second bucket. */
  lemma NeighbourBlend(a: real, b: real, b': real, fi: real, fj: real)
    ensures Lerp(Lerp(b - a, b' - a, fj), Lerp(b' - b, b' - b, fj), fi) ==
            Lerp(b, b', fj) - Lerp(a, b, fi) + Times(Times(b' - b, 1.0 - fj), fi)
  {
    var w := b' - b;
    WidthsBlend(a, b, b, b', fi, fj);
    assert Lerp(w, w, fj) == w by {
      assert Times(0.0, fj) == 0.0;
    }
    assert Times(w, 1.0 - fj) == w - Times(w, fj);
    var low, high := Lerp(b - a, b' - a, fj), Lerp(b - b, b' - b, fj);
    assert high == Times(w, fj);
    assert w - low == (high - low) + Times(w, 1.0 - fj);
    TimesSum(high - low, Times(w, 1.0 - fj), fi);
  }

  lemma BlendOfNeighbours(cards: seq<int>, s: Summary, i: nat, fi: real, fj: real, lo: real, hi: real, above: real)
    requires Summarises(cards, s) && AllDifferent(cards) && i + 2 < |s.cuts|
    requires lo == Lerp(s.cuts[i] as real, s.cuts[i + 1] as real, fi)
    requires hi == Lerp(s.cuts[i + 1] as real, s.cuts[i + 2] as real, fj) && above == s.cuts[i + 2] as real - hi
    ensures Blend(s, i, fi, i + 1, fj) == MaxReal(hi - lo + Times(above, fi), 1.0)
  {
    var a, b, b' := s.cuts[i] as real, s.cuts[i + 1] as real, s.cuts[i + 2] as real;
    CellIsWidth(cards, s, i, i + 1);
    CellIsWidth(cards, s, i, i + 2);
    CellIsWidth(cards, s, i + 1, i + 2);
    assert Clamp(s, i + 1, i + 1) == Clamp(s, i + 1, i + 2);
    BlendOf(s, i, fi, i + 1, fj, b - a, b' - a, b' - b, b' - b);
    NeighbourBlend(a, b, b', fi, fj);
    TakeAway(b' - b, fj);
  }

  lemma SurplusIff(a: real, b: real, f: real, lo: real, above: real)
    requires a < b && lo == Lerp(a, b, f) && f >= 0.0 && above >= 0.0
    ensures Times(above, f) >= 0.0 && (Times(above, f) == 0.0 <==> above == 0.0 || lo == a)
  {
    ProductSign(b - a, f);
    PositiveProduct(above, f);
  }

  /**
    With the ends in neighbouring buckets it is too high, by the part of the second bucket above the range times the
    part of the first below it; so it is exact if and only if one of the two is nothing.
  */
  lemma NeighbourSurplus(cards: seq<int>, s: Summary, lo: int, hi: int, i: nat)
    requires Summarises(cards, s) && AllDifferent(cards) && 0 <= lo <= hi <= |cards|
    requires i == Frac(s.cuts, lo).0 && i + 1 == Frac(s.cuts, hi).0
    ensures EstBounded(s, lo, hi) == (hi - lo) as real + Times((s.cuts[i + 2] - hi) as real, Frac(s.cuts, lo).1)
    ensures EstBounded(s, lo, hi) == (hi - lo) as real <==> hi == s.cuts[i + 2] || lo == s.cuts[i]
  {
    var fi, fj, above := Frac(s.cuts, lo).1, Frac(s.cuts, hi).1, (s.cuts[i + 2] - hi) as real;
    EstIsBlend(s, lo, hi, i, fi, i + 1, fj);
    FracReconstructs(s.cuts, lo);
    FracReconstructs(s.cuts, hi);
    BlendOfNeighbours(cards, s, i, fi, fj, lo as real, hi as real, above);
    FracEncloses(s.cuts, lo);
    FracEncloses(s.cuts, hi);
    SurplusIff(s.cuts[i] as real, s.cuts[i + 1] as real, fi, lo as real, above);
  }

  lemma TakeAway(w: real, f: real)
    ensures Times(w, 1.0 - f) == w - Times(w, f)
  {
  }
}
