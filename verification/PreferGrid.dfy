/**
  The number of overrides as a function of the size of a move, the grid of equal parts of a step, and the levels
  of that grid: which grid point is the hit at the coarsest level, and when that is the least hit.
*/
module PreferGrid {
  import opened Numbers
  import opened PreferStep

  type Cards = seq<seq<Printing>>

  /** A move of this size in the asked direction. */
  function Signed(up: bool, size: real): real {
    if up then size else -size
  }

  /** Overrides of a move of the given size. */
  ghost function Count(cards: Cards, up: bool, size: real): nat
    requires AreCards(cards)
  {
    |Overridden(cards, Signed(up, size))|
  }

  /** Six to nine cards change. */
  predicate InBand(count: nat) {
    6 <= count <= 9
  }

  lemma CountGrows(cards: Cards, up: bool, near: real, far: real)
    requires AreCards(cards) && 0.0 <= near <= far
    ensures Count(cards, up, near) <= Count(cards, up, far)
  {
    CountsGrow(cards, Signed(up, near), Signed(up, far));
  }

  /** The overrides as a function of the size of the move. */
  ghost function Counter(cards: Cards, up: bool): real -> nat
    requires AreCards(cards)
  {
    size => Count(cards, up, size)
  }

  ghost function At(f: real -> nat, size: real): nat {
    f(size)
  }

  /** f counts the overrides of these cards, in this direction. */
  ghost predicate CountsFor(f: real -> nat, cards: Cards, up: bool)
    requires AreCards(cards)
  {
    forall size {:trigger CountsAt(f, cards, up, size)} :: CountsAt(f, cards, up, size)
  }

  ghost predicate CountsAt(f: real -> nat, cards: Cards, up: bool, size: real)
    requires AreCards(cards)
  {
    At(f, size) == Count(cards, up, size)
  }

  /** A count that starts at zero and never falls as the move grows. */
  ghost predicate Counts(f: real -> nat) {
    At(f, 0.0) == 0 && forall near, far {:trigger Rises(f, near, far)} :: Rises(f, near, far)
  }

  ghost predicate Rises(f: real -> nat, near: real, far: real) {
    0.0 <= near <= far ==> At(f, near) <= At(f, far)
  }

  lemma CounterCounts(cards: Cards, up: bool)
    requires AreCards(cards)
    ensures CountsFor(Counter(cards, up), cards, up)
  {
  }

  lemma CountsForCounts(f: real -> nat, cards: Cards, up: bool)
    requires AreCards(cards) && CountsFor(f, cards, up)
    ensures Counts(f)
  {
    CountAtZero(cards, up);
    assert CountsAt(f, cards, up, 0.0);
    forall near, far
      ensures Rises(f, near, far)
    {
      assert CountsAt(f, cards, up, near) && CountsAt(f, cards, up, far);
      if 0.0 <= near <= far {
        CountGrows(cards, up, near, far);
      }
    }
  }

  lemma GrowsFrom(f: real -> nat, near: real, far: real)
    requires Counts(f) && 0.0 <= near <= far
    ensures At(f, near) <= At(f, far)
  {
    assert Rises(f, near, far);
  }

  lemma CountAtZero(cards: Cards, up: bool)
    requires AreCards(cards)
    ensures Count(cards, up, 0.0) == 0
  {
    assert Overridden(cards, 0.0) == {};
  }

  // ---------------------------------------------------------------- the grid the bisection walks on

  /** The k-th multiple of one part of the step. */
  ghost function Grid(unit: real, k: int): real
    decreases k
  {
    if k <= 0 then 0.0 else Grid(unit, k - 1) + unit
  }

  lemma {:induction false} GridAdd(unit: real, i: nat, j: nat)
    ensures Grid(unit, i + j) == Grid(unit, i) + Grid(unit, j)
    decreases j
  {
    if j > 0 {
      GridAdd(unit, i, j - 1);
    }
  }

  lemma {:induction false} GridMonotone(unit: real, i: int, j: int)
    requires unit > 0.0 && 0 <= i <= j
    ensures 0.0 <= Grid(unit, i) <= Grid(unit, j) && (i < j ==> Grid(unit, i) < Grid(unit, j))
    decreases j
  {
    if i < j {
      GridMonotone(unit, i, j - 1);
    } else if i > 0 {
      GridMonotone(unit, i - 1, i - 1);
    }
  }

  lemma GridMiddle(unit: real, i: nat, h: nat)
    ensures (Grid(unit, i) + Grid(unit, i + 2 * h)) / 2.0 == Grid(unit, i + h)
  {
    GridAdd(unit, i, h);
    GridAdd(unit, i + h, h);
    assert i + h + h == i + 2 * h;
  }

  lemma {:induction false} GridProduct(unit: real, k: nat)
    ensures Grid(unit, k) == k as real * unit
    decreases k
  {
    if k > 0 {
      GridProduct(unit, k - 1);
      assert k as real * unit == (k - 1) as real * unit + unit;
    }
  }

  lemma GridWhole(step: real, parts: nat, unit: real)
    requires parts > 0 && unit == step / parts as real
    ensures Grid(unit, parts) == step
  {
    GridProduct(unit, parts);
    assert parts as real * (step / parts as real) == step;
  }

  ghost function Unit(step: real, rounds: nat): real {
    step / Pow2(rounds) as real
  }

  /** An interior grid point whose move overrides a number of cards in the band. */
  ghost predicate GridHit(f: real -> nat, unit: real, parts: nat, k: int) {
    0 < k < parts && InBand(At(f, Grid(unit, k)))
  }

  /** All hits are strictly between two grid points. */
  ghost predicate HitsBetween(f: real -> nat, unit: real, parts: nat, i: int, j: int) {
    forall k :: GridHit(f, unit, parts, k) ==> i < k < j
  }

  lemma HitsAbove(f: real -> nat, unit: real, parts: nat, i: int, j: int, m: int)
    requires Counts(f) && unit > 0.0 && HitsBetween(f, unit, parts, i, j) && 0 <= m
    requires At(f, Grid(unit, m)) < TARGET_LO
    ensures HitsBetween(f, unit, parts, m, j)
  {
    forall k | GridHit(f, unit, parts, k)
      ensures m < k < j
    {
      if k <= m {
        GridMonotone(unit, k, m);
        GrowsFrom(f, Grid(unit, k), Grid(unit, m));
      }
    }
  }

  lemma HitsBelow(f: real -> nat, unit: real, parts: nat, i: int, j: int, m: int)
    requires Counts(f) && unit > 0.0 && HitsBetween(f, unit, parts, i, j) && 0 <= m
    requires At(f, Grid(unit, m)) > TARGET_HI
    ensures HitsBetween(f, unit, parts, i, m)
  {
    forall k | GridHit(f, unit, parts, k)
      ensures i < k < m
    {
      if m <= k {
        GridMonotone(unit, m, k);
        GrowsFrom(f, Grid(unit, m), Grid(unit, k));
      }
    }
  }

  // ---------------------------------------------------------------- levels of the grid

  /** k is a multiple of `Pow2(m)`: a point of level m of the grid, coarser levels having larger m. */
  ghost predicate Aligned(k: int, m: nat)
    decreases m
  {
    m == 0 || (k % 2 == 0 && Aligned(k / 2, m - 1))
  }

  lemma {:induction false} AlignedFiner(k: int, m: nat, m': nat)
    requires Aligned(k, m') && m <= m'
    ensures Aligned(k, m)
    decreases m
  {
    if m > 0 {
      AlignedFiner(k / 2, m - 1, m' - 1);
    }
  }

  lemma {:induction false} ZeroAligned(m: nat)
    ensures Aligned(0, m)
  {
    if m > 0 {
      ZeroAligned(m - 1);
    }
  }

  /** Half-way from one point of a level to the next lies a point of the next finer level only. */
  lemma {:induction false} AlignedMiddle(i: int, m: nat)
    requires Aligned(i, m + 1)
    ensures Aligned(i, m) && Aligned(i + Pow2(m), m) && !Aligned(i + Pow2(m), m + 1)
    decreases m
  {
    if m > 0 {
      AlignedMiddle(i / 2, m - 1);
      assert (i + Pow2(m)) / 2 == i / 2 + Pow2(m - 1);
    }
  }

  lemma {:induction false} OnlyMiddle(i: int, m: nat, k: int)
    requires Aligned(i, m + 1) && Aligned(k, m) && i < k < i + Pow2(m + 1)
    ensures k == i + Pow2(m)
    decreases m
  {
    if m > 0 {
      OnlyMiddle(i / 2, m - 1, k / 2);
    }
  }

  /** The hit at the coarsest level: of level m, of none coarser, and the only hit among the points of level m. */
  ghost predicate CoarsestHit(f: real -> nat, unit: real, parts: nat, m: nat, k: int) {
    && GridHit(f, unit, parts, k) && Aligned(k, m) && !Aligned(k, m + 1)
    && forall k' :: GridHit(f, unit, parts, k') && Aligned(k', m) ==> k' == k
  }

  /** It is determined. */
  lemma CoarsestIsUnique(f: real -> nat, unit: real, parts: nat, m: nat, k: int, m': nat, k': int)
    requires CoarsestHit(f, unit, parts, m, k) && CoarsestHit(f, unit, parts, m', k')
    ensures k == k'
  {
    if m <= m' {
      AlignedFiner(k', m, m');
    } else {
      AlignedFiner(k, m', m);
    }
  }

  lemma MiddleIsCoarsest(f: real -> nat, unit: real, parts: nat, i: int, j: int, m: nat, k: int)
    requires HitsBetween(f, unit, parts, i, j) && j - i == Pow2(m + 1) && Aligned(i, m + 1)
    requires k == i + Pow2(m) && GridHit(f, unit, parts, k)
    ensures CoarsestHit(f, unit, parts, m, k)
  {
    AlignedMiddle(i, m);
    forall k' | GridHit(f, unit, parts, k') && Aligned(k', m)
      ensures k' == k
    {
      OnlyMiddle(i, m, k');
    }
  }

  // ---------------------------------------------------------------- when the coarsest hit is the least

  /** The coarsest level a grid point belongs to. */
  ghost function Level(k: int): nat
    requires k > 0
    decreases k
  {
    if k % 2 == 1 then 0 else 1 + Level(k / 2)
  }

  lemma {:induction false} LevelAligned(k: int)
    requires k > 0
    ensures Aligned(k, Level(k)) && !Aligned(k, Level(k) + 1)
    decreases k
  {
    if k % 2 == 0 {
      LevelAligned(k / 2);
    }
  }

  /** The next point of a level is a point of that level. */
  lemma {:induction false} AlignedNext(k: int, m: nat)
    requires Aligned(k, m)
    ensures Aligned(k + Pow2(m), m)
    decreases m
  {
    if m > 0 {
      AlignedNext(k / 2, m - 1);
      assert (k + Pow2(m)) / 2 == k / 2 + Pow2(m - 1);
    }
  }

  /** Two points of a level are at least its spacing apart. */
  lemma {:induction false} AlignedApart(i: int, k: int, m: nat)
    requires Aligned(i, m) && Aligned(k, m) && i < k
    ensures i + Pow2(m) <= k
    decreases m
  {
    if m > 0 {
      AlignedApart(i / 2, k / 2, m - 1);
    }
  }

  /** Whatever lies between two hits is a hit. */
  lemma HitsAreInterval(f: real -> nat, unit: real, parts: nat, i: int, k: int, j: int)
    requires Counts(f) && unit > 0.0 && GridHit(f, unit, parts, i) && GridHit(f, unit, parts, j) && i <= k <= j
    ensures GridHit(f, unit, parts, k)
  {
    GridMonotone(unit, i, k);
    GridMonotone(unit, k, j);
    GrowsFrom(f, Grid(unit, i), Grid(unit, k));
    GrowsFrom(f, Grid(unit, k), Grid(unit, j));
  }

  ghost predicate IsLeastHit(f: real -> nat, unit: real, parts: nat, least: int) {
    GridHit(f, unit, parts, least) && forall k :: GridHit(f, unit, parts, k) ==> least <= k
  }

  lemma {:induction false} HasLeastHit(f: real -> nat, unit: real, parts: nat, k: int) returns (least: int)
    requires GridHit(f, unit, parts, k) && Counts(f) && unit > 0.0
    ensures IsLeastHit(f, unit, parts, least)
    decreases k
  {
    if GridHit(f, unit, parts, k - 1) {
      least := HasLeastHit(f, unit, parts, k - 1);
    } else {
      least := k;
      forall j | GridHit(f, unit, parts, j)
        ensures k <= j
      {
        if j < k {
          HitsAreInterval(f, unit, parts, j, k - 1, k);
        }
      }
    }
  }

  lemma LevelIsUnique(k: int, m: nat)
    requires k > 0 && Aligned(k, m) && !Aligned(k, m + 1)
    ensures m == Level(k)
  {
    LevelAligned(k);
    if m < Level(k) {
      AlignedFiner(k, m + 1, Level(k));
    } else if Level(k) < m {
      AlignedFiner(k, Level(k) + 1, m);
    }
  }

  lemma LeastThenAlone(f: real -> nat, unit: real, parts: nat, m: nat, k: int, least: int, next: int)
    requires CoarsestHit(f, unit, parts, m, k) && least > 0 && next == least + Pow2(Level(least))
    ensures k == least ==> !GridHit(f, unit, parts, next)
  {
    if k == least {
      LevelIsUnique(least, m);
      AlignedNext(least, m);
    }
  }

  lemma AloneThenLeast(f: real -> nat, unit: real, parts: nat, m: nat, k: int, least: int, level: nat, next: int)
    requires Counts(f) && unit > 0.0 && CoarsestHit(f, unit, parts, m, k) && IsLeastHit(f, unit, parts, least)
    requires least > 0 && level == Level(least) && next == least + Pow2(level)
    ensures !GridHit(f, unit, parts, next) ==> k == least
  {
    LevelAligned(least);
    if m <= level {
      AlignedFiner(least, m, level);
    } else if least < k {
      AlignedFiner(k, level, m);
      AlignedApart(least, k, level);
      HitsAreInterval(f, unit, parts, least, next, k);
    }
  }

  /** The coarsest hit is the least one exactly if the next point of the least one's own level is no hit. */
  lemma CoarsestIsLeastIff(f: real -> nat, unit: real, parts: nat, m: nat, k: int, least: int)
    requires Counts(f) && unit > 0.0 && CoarsestHit(f, unit, parts, m, k) && IsLeastHit(f, unit, parts, least)
    ensures k == least <==> !GridHit(f, unit, parts, least + Pow2(Level(least)))
  {
    LeastThenAlone(f, unit, parts, m, k, least, least + Pow2(Level(least)));
    AloneThenLeast(f, unit, parts, m, k, least, Level(least), least + Pow2(Level(least)));
  }

  /** Every move in the band, up to the whole step, is larger than `delta` less one part of the step. */
  ghost predicate NoneSmaller(f: real -> nat, step: real, unit: real, delta: real) {
    forall size :: 0.0 <= size <= step && InBand(At(f, size)) ==> delta - unit < size
  }

  /** For a move in the band: none is smaller exactly if one part less is below the band. */
  lemma NoneSmallerIff(f: real -> nat, step: real, unit: real, delta: real)
    requires Counts(f) && 0.0 < unit <= delta <= step && InBand(At(f, delta))
    ensures NoneSmaller(f, step, unit, delta) <==> At(f, delta - unit) < TARGET_LO
  {
    GrowsFrom(f, delta - unit, delta);
    if At(f, delta - unit) < TARGET_LO {
      forall size | 0.0 <= size <= step && InBand(At(f, size))
        ensures delta - unit < size
      {
        if size <= delta - unit {
          GrowsFrom(f, size, delta - unit);
        }
      }
    }
  }

  /** For a hit: it is the least one exactly if one part less is below the band. */
  lemma LeastIffBelow(f: real -> nat, unit: real, parts: nat, k: int, least: int)
    requires Counts(f) && unit > 0.0 && GridHit(f, unit, parts, k) && IsLeastHit(f, unit, parts, least)
    ensures k == least <==> At(f, Grid(unit, k) - unit) < TARGET_LO
  {
    assert Grid(unit, k) - unit == Grid(unit, k - 1);
    GridMonotone(unit, k - 1, k);
    GrowsFrom(f, Grid(unit, k - 1), Grid(unit, k));
    if least < k {
      GridMonotone(unit, least, k - 1);
      GrowsFrom(f, Grid(unit, least), Grid(unit, k - 1));
    } else if k > 1 {
      assert !GridHit(f, unit, parts, k - 1);
    }
  }
}
