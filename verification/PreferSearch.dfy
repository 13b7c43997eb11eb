/**
  The expand-and-bisect search for a weight move that overrides between six and nine cards.
*/
module PreferSearch {
  import opened Numbers
  import opened PreferStep
  import opened PreferGrid

  // ---------------------------------------------------------------- expansion

  function Doubled(k: nat): (r: real)
    ensures r > 0.0
  {
    if k == 0 then 0.25 else 2.0 * Doubled(k - 1)
  }

  lemma DoubledValues()
    ensures Doubled(11) == STEP_SEARCH_CEILING && Doubled(12) == 1024.0
  {
    assert Doubled(4) == 4.0;
    assert Doubled(8) == 64.0;
    assert Doubled(11) == 512.0;
  }

  lemma {:induction false} DoubledGrows(i: nat, j: nat)
    requires i <= j
    ensures Doubled(i) <= Doubled(j)
    decreases j
  {
    if i < j {
      DoubledGrows(i, j - 1);
    }
  }

  /** The first doubling of a quarter to change six cards, or the one past the ceiling if none does. */
  ghost predicate Expanded(f: real -> nat, step: real) {
    && (exists k: nat :: k <= 12 && step == Doubled(k)) && 0.25 <= step <= 1024.0
    && (step <= 512.0 ==> At(f, step) >= 6)
    && (step > 0.25 ==> forall size :: 0.0 <= size <= step / 2.0 ==> At(f, size) < 6)
  }

  method Expand(cards: Cards, up: bool, ghost f: real -> nat) returns (step: real)
    requires AreCards(cards) && CountsFor(f, cards, up) && Counts(f)
    ensures Expanded(f, step)
  {
    step := 0.25;
    ghost var k: nat := 0;
    DoubledValues();
    while step <= STEP_SEARCH_CEILING
      invariant k <= 12 && step == Doubled(k) && 0.25 <= step <= 1024.0
      invariant step > 0.25 ==> At(f, step / 2.0) < TARGET_LO
      decreases 12 - k
    {
      var over := CountAt(cards, up, step, f);
      if over >= TARGET_LO {
        break;
      }
      step := step * 2.0;
      k := k + 1;
      DoubledGrows(0, k);
      DoubledGrows(k, 12);
    }
    if step > 0.25 {
      forall size | 0.0 <= size <= step / 2.0
        ensures At(f, size) < TARGET_LO
      {
        GrowsFrom(f, size, step / 2.0);
      }
    }
  }

  // ---------------------------------------------------------------- bisection

  /** How far a count is from the middle of the band, doubled. */
  function OffTarget(count: nat): (r: nat)
    ensures r == 2 * count - 15 || r == 15 - 2 * count
  {
    var d := 2 * count - (TARGET_LO + TARGET_HI);
    if d < 0 then -d else d
  }

  /** The bracket: below the band at `a`, above it at `b` unless `b` is still the whole step. */
  ghost predicate Bracket(f: real -> nat, step: real, a: real, b: real) {
    && 0.0 <= a <= b <= step && At(f, a) < TARGET_LO
    && (b == step || At(f, b) > TARGET_HI)
  }

  /** Every move in the band, up to the whole step, lies inside the bracket. */
  lemma BracketHolds(f: real -> nat, step: real, a: real, b: real, size: real)
    requires Counts(f) && Bracket(f, step, a, b) && 0.0 <= size <= step && InBand(At(f, size))
    ensures a < size <= b
  {
    if size <= a {
      GrowsFrom(f, size, a);
    }
    if b < size {
      GrowsFrom(f, b, size);
    }
  }

  /** The midpoints that bisection evaluates, in order, with n rounds to go. */
  ghost function Probes(f: real -> nat, a: real, b: real, n: nat): seq<real>
    decreases n
  {
    if n == 0 then []
    else
      var mid := (a + b) / 2.0;
      var c := At(f, mid);
      [mid] + if c < TARGET_LO then Probes(f, mid, b, n - 1)
              else if c > TARGET_HI then Probes(f, a, mid, n - 1) else []
  }

  /** The r-th probe is closest to the middle of the band, and none before it is as close. */
  ghost predicate ClosestAt(f: real -> nat, probes: seq<real>, r: int, delta: real, got: nat) {
    && 0 <= r < |probes| && probes[r] == delta && got == At(f, delta)
    && (forall q :: 0 <= q < r ==> OffTarget(got) < OffTarget(At(f, probes[q])))
    && (forall q :: r <= q < |probes| ==> OffTarget(got) <= OffTarget(At(f, probes[q])))
  }

  ghost predicate Closest(f: real -> nat, probes: seq<real>, delta: real, got: nat) {
    exists r :: ClosestAt(f, probes, r, delta, got)
  }

  /** The ends of the bracket were probed, except the ends it started with. */
  ghost predicate EndsProbed(probes: seq<real>, step: real, a: real, b: real) {
    (a > 0.0 ==> a in probes) && (b < step ==> b in probes)
  }

  /** No move up to the whole step that lies outside the bracket is closer to the middle of the band. */
  lemma NoneCloserOutside(f: real -> nat, step: real, a: real, b: real, probes: seq<real>, delta: real, got: nat,
                          size: real)
    requires Counts(f) && Bracket(f, step, a, b) && EndsProbed(probes, step, a, b)
    requires Closest(f, probes, delta, got) && 0.0 < size <= step && (size <= a || (b <= size && b < step))
    ensures OffTarget(got) <= OffTarget(At(f, size))
  {
    var edge := if size <= a then a else b;
    var r :| ClosestAt(f, probes, r, delta, got);
    var q :| 0 <= q < |probes| && probes[q] == edge;
    assert OffTarget(got) <= OffTarget(At(f, probes[q]));
    if size <= a {
      GrowsFrom(f, size, a);
    } else {
      GrowsFrom(f, b, size);
    }
  }

  lemma ClosestGrows(f: real -> nat, probes: seq<real>, delta: real, got: nat, mid: real, c: nat, delta': real,
                     got': nat)
    requires (probes == [] || Closest(f, probes, delta, got)) && c == At(f, mid)
    requires if probes == [] || OffTarget(c) < OffTarget(got) then delta' == mid && got' == c
             else delta' == delta && got' == got
    ensures Closest(f, probes + [mid], delta', got')
  {
    var longer := probes + [mid];
    if probes == [] {
      assert ClosestAt(f, longer, 0, delta', got');
    } else {
      var r :| ClosestAt(f, probes, r, delta, got);
      var r' := if OffTarget(c) < OffTarget(got) then |probes| else r;
      forall q | 0 <= q < |longer|
        ensures q < r' ==> OffTarget(got') < OffTarget(At(f, longer[q]))
        ensures q >= r' ==> OffTarget(got') <= OffTarget(At(f, longer[q]))
      {
        if q < |probes| {
          assert OffTarget(got) <= OffTarget(At(f, probes[q]));
        }
      }
      assert ClosestAt(f, longer, r', delta', got');
    }
  }

  /** A count in the band is closer than any count outside it. */
  lemma InBandIsCloser(c: nat, other: nat)
    requires InBand(c) && !InBand(other)
    ensures OffTarget(c) < OffTarget(other)
  {
  }

  /** What the loop knows of its bracket: the grid points it stands on, and where the hits are. */
  ghost predicate Located(f: real -> nat, step: real, unit: real, parts: nat, i: int, j: int, a: real, b: real) {
    && Counts(f) && unit > 0.0 && 0 <= i < j <= parts && a == Grid(unit, i) && b == Grid(unit, j)
    && HitsBetween(f, unit, parts, i, j)
    && Bracket(f, step, a, b)
  }

  lemma LocatedStart(f: real -> nat, step: real, unit: real, parts: nat)
    requires Counts(f) && step > 0.0 && parts > 0 && unit == step / parts as real
    ensures Located(f, step, unit, parts, 0, parts, 0.0, step)
  {
    GridWhole(step, parts, unit);
    assert unit > 0.0;
  }

  lemma MiddleIs(f: real -> nat, step: real, unit: real, parts: nat, i: int, j: int, a: real, b: real, h: nat,
                 mid: real)
    requires Located(f, step, unit, parts, i, j, a, b) && j - i == 2 * h && mid == (a + b) / 2.0
    ensures mid == Grid(unit, i + h) && 0 < h
    ensures InBand(At(f, mid)) ==> GridHit(f, unit, parts, i + h)
  {
    GridMiddle(unit, i, h);
  }

  lemma RaiseLower(f: real -> nat, step: real, unit: real, parts: nat, i: int, j: int, a: real, b: real, h: nat,
                   mid: real)
    requires Located(f, step, unit, parts, i, j, a, b) && j - i == 2 * h && mid == (a + b) / 2.0
    requires At(f, mid) < TARGET_LO
    ensures Located(f, step, unit, parts, i + h, j, mid, b)
  {
    MiddleIs(f, step, unit, parts, i, j, a, b, h, mid);
    HitsAbove(f, unit, parts, i, j, i + h);
  }

  lemma LowerUpper(f: real -> nat, step: real, unit: real, parts: nat, i: int, j: int, a: real, b: real, h: nat,
                   mid: real)
    requires Located(f, step, unit, parts, i, j, a, b) && j - i == 2 * h && mid == (a + b) / 2.0
    requires At(f, mid) > TARGET_HI
    ensures Located(f, step, unit, parts, i, i + h, a, mid)
  {
    MiddleIs(f, step, unit, parts, i, j, a, b, h, mid);
    HitsBelow(f, unit, parts, i, j, i + h);
  }

  /** A bracket of neighbouring grid points holds no hit, and is one part of the step wide. */
  lemma NoHitLeft(f: real -> nat, step: real, unit: real, parts: nat, i: int, j: int, a: real, b: real)
    requires Located(f, step, unit, parts, i, j, a, b) && j == i + 1
    ensures forall k :: !GridHit(f, unit, parts, k)
    ensures b - a == unit
  {
  }

  /**
    All the loop knows, with n rounds to go: where its bracket stands and which probe is the best, none in the band.
  */
  ghost predicate Searching(f: real -> nat, step: real, unit: real, parts: nat, n: nat, i: int, j: int, a: real,
                            b: real, probes: seq<real>, delta: real, got: nat) {
    && Located(f, step, unit, parts, i, j, a, b) && j - i == Pow2(n) && Aligned(i, n)
    && EndsProbed(probes, step, a, b)
    && (probes == [] || (Closest(f, probes, delta, got) && !InBand(got)))
  }

  lemma SearchesOn(f: real -> nat, step: real, unit: real, parts: nat, n: nat, i: int, j: int, a: real, b: real,
                   probes: seq<real>, delta: real, got: nat, h: nat, mid: real, c: nat, delta': real, got': nat,
                   i': int, j': int,
                   a': real, b': real)
    requires n > 0 && Searching(f, step, unit, parts, n, i, j, a, b, probes, delta, got)
    requires h == Pow2(n - 1) && mid == (a + b) / 2.0 && c == At(f, mid) && !InBand(c)
    requires if probes == [] || OffTarget(c) < OffTarget(got) then delta' == mid && got' == c
             else delta' == delta && got' == got
    requires if c < TARGET_LO then i' == i + h && j' == j && a' == mid && b' == b
             else i' == i && j' == i + h && a' == a && b' == mid
    ensures Searching(f, step, unit, parts, n - 1, i', j', a', b', probes + [mid], delta', got')
  {
    ClosestGrows(f, probes, delta, got, mid, c, delta', got');
    AlignedMiddle(i, n - 1);
    if c < TARGET_LO {
      RaiseLower(f, step, unit, parts, i, j, a, b, h, mid);
    } else {
      LowerUpper(f, step, unit, parts, i, j, a, b, h, mid);
    }
  }

  /** The move is the hit at the coarsest level of the grid that has one. */
  ghost predicate IsCoarsest(f: real -> nat, unit: real, parts: nat, delta: real) {
    exists m: nat, k: int :: delta == Grid(unit, k) && CoarsestHit(f, unit, parts, m, k)
  }

  lemma ProbesFrom(f: real -> nat, a: real, b: real, n: nat, mid: real, c: nat)
    requires n > 0 && mid == (a + b) / 2.0 && c == At(f, mid)
    ensures Probes(f, a, b, n)
         == [mid] + if c < TARGET_LO then Probes(f, mid, b, n - 1)
                    else if c > TARGET_HI then Probes(f, a, mid, n - 1) else []
  {
  }

  /** The probes made, and those a bracket leads to, make up all of them. */
  ghost predicate ProbesLeft(f: real -> nat, all: seq<real>, probes: seq<real>, a: real, b: real, n: nat) {
    all == probes + Probes(f, a, b, n)
  }

  lemma ProbesOn(f: real -> nat, all: seq<real>, probes: seq<real>, a: real, b: real, n: nat, mid: real, c: nat,
                 a': real, b': real)
    requires n > 0 && ProbesLeft(f, all, probes, a, b, n)
    requires mid == (a + b) / 2.0 && c == At(f, mid)
    requires if c < TARGET_LO then a' == mid && b' == b else a' == a && b' == mid
    ensures if InBand(c) then all == probes + [mid] else ProbesLeft(f, all, probes + [mid], a', b', n - 1)
  {
    ProbesFrom(f, a, b, n, mid, c);
    assert forall rest :: probes + ([mid] + rest) == (probes + [mid]) + rest;
  }

  /**
    What the bisection returns.  The move is the first of the closest probes.  It is in the band exactly when
    some interior point of the grid is, and then it is the hit at the coarsest level of the grid; otherwise the
    bracket has shrunk to one part of the step.
  */
  ghost predicate Found(f: real -> nat, step: real, probes: seq<real>, unit: real, parts: nat, delta: real, got: nat,
                        a: real, b: real)
  {
    && Closest(f, probes, delta, got) && EndsProbed(probes, step, a, b) && Bracket(f, step, a, b)
    && (InBand(got) <==> exists k :: GridHit(f, unit, parts, k))
    && (InBand(got) ==> delta == (a + b) / 2.0 && IsCoarsest(f, unit, parts, delta))
    && (!InBand(got) ==> b - a == unit)
  }

  lemma SearchEnds(f: real -> nat, step: real, unit: real, parts: nat, n: nat, i: int, j: int, a: real, b: real,
                   probes: seq<real>, delta: real, got: nat, h: nat, mid: real, c: nat)
    requires n > 0 && Searching(f, step, unit, parts, n, i, j, a, b, probes, delta, got)
    requires h == Pow2(n - 1) && mid == (a + b) / 2.0 && c == At(f, mid) && InBand(c)
    ensures Found(f, step, probes + [mid], unit, parts, mid, c, a, b)
  {
    MiddleIs(f, step, unit, parts, i, j, a, b, h, mid);
    MiddleIsCoarsest(f, unit, parts, i, j, n - 1, i + h);
    if probes != [] {
      InBandIsCloser(c, got);
    }
    ClosestGrows(f, probes, delta, got, mid, c, mid, c);
  }

  lemma FoundNone(f: real -> nat, step: real, unit: real, parts: nat, i: int, j: int, a: real, b: real,
                  all: seq<real>, probes: seq<real>, delta: real, got: nat)
    requires Searching(f, step, unit, parts, 0, i, j, a, b, probes, delta, got) && probes != [] &&
             ProbesLeft(f, all, probes, a, b, 0)
    ensures Found(f, step, all, unit, parts, delta, got, a, b)
  {
    assert probes + [] == probes;
    NoHitLeft(f, step, unit, parts, i, j, a, b);
  }

  method CountAt(cards: Cards, up: bool, size: real, ghost f: real -> nat) returns (c: nat)
    requires AreCards(cards) && CountsFor(f, cards, up)
    ensures c == At(f, size)
  {
    assert CountsAt(f, cards, up, size);
    var ties;
    ties, c := CountSwaps(cards, Signed(up, size));
  }

  /** One round: the midpoint is evaluated, the best probe kept, and the bracket halved unless the band is hit. */
  method Halve(cards: Cards, up: bool, a: real, b: real, delta: real, got: nat, first: bool, ghost f: real -> nat,
               ghost step: real, ghost unit: real, ghost parts: nat, ghost n: nat, ghost i: int, ghost j: int,
               ghost all: seq<real>,
               ghost probes: seq<real>)
    returns (hit: bool, delta': real, got': nat, a': real, b': real, ghost i': int, ghost j': int,
             ghost probes': seq<real>)
    requires AreCards(cards) && CountsFor(f, cards, up) && n > 0 && (first <==> probes == [])
    requires Searching(f, step, unit, parts, n, i, j, a, b, probes, delta, got) && ProbesLeft(f, all, probes, a, b, n)
    ensures probes' != [] && (hit ==> Found(f, step, all, unit, parts, delta', got', a', b'))
    ensures !hit ==> Searching(f, step, unit, parts, n - 1, i', j', a', b', probes', delta', got')
    ensures !hit ==> ProbesLeft(f, all, probes', a', b', n - 1)
  {
    var mid := (a + b) / 2.0;
    ghost var h := Pow2(n - 1);
    var c := CountAt(cards, up, mid, f);
    probes' := probes + [mid];
    a', b' := if c < TARGET_LO then mid else a, if c < TARGET_LO then b else mid;
    ProbesOn(f, all, probes, a, b, n, mid, c, a', b');
    hit := InBand(c);
    if hit {
      SearchEnds(f, step, unit, parts, n, i, j, a, b, probes, delta, got, h, mid, c);
      delta', got', a', b', i', j' := mid, c, a, b, i, j;
    } else {
      var closer := first || OffTarget(c) < OffTarget(got);
      delta', got' := if closer then mid else delta, if closer then c else got;
      i', j' := if c < TARGET_LO then i + h else i, if c < TARGET_LO then j else i + h;
      SearchesOn(f, step, unit, parts, n, i, j, a, b, probes, delta, got, h, mid, c, delta', got', i', j', a', b');
    }
  }

  lemma SearchStart(f: real -> nat, step: real, unit: real, parts: nat, rounds: nat, all: seq<real>)
    requires parts == Pow2(rounds) && Located(f, step, unit, parts, 0, parts, 0.0, step) &&
             all == Probes(f, 0.0, step, rounds)
    ensures Searching(f, step, unit, parts, rounds, 0, parts, 0.0, step, [], 0.0, 0) &&
            ProbesLeft(f, all, [], 0.0, step, rounds)
  {
    ZeroAligned(rounds);
    assert [] + all == all;
  }

  method Bisect(cards: Cards, up: bool, step: real, rounds: nat, ghost f: real -> nat, ghost unit: real,
                ghost parts: nat)
    returns (delta: real, got: nat, a: real, b: real)
    requires AreCards(cards) && CountsFor(f, cards, up)
    requires rounds > 0 && parts == Pow2(rounds) && Located(f, step, unit, parts, 0, parts, 0.0, step)
    ensures Found(f, step, Probes(f, 0.0, step, rounds), unit, parts, delta, got, a, b)
  {
    a, b := 0.0, step;
    ghost var i: int, j: int := 0, parts;
    ghost var probes: seq<real>, all := [], Probes(f, 0.0, step, rounds);
    SearchStart(f, step, unit, parts, rounds, all);
    delta, got := 0.0, 0;
    var n := rounds;
    while n > 0
      invariant 0 <= n <= rounds && (n < rounds <==> probes != [])
      invariant Searching(f, step, unit, parts, n, i, j, a, b, probes, delta, got)
      invariant ProbesLeft(f, all, probes, a, b, n)
    {
      var hit;
      hit, delta, got, a, b, i, j, probes :=
        Halve(cards, up, a, b, delta, got, n == rounds, f, step, unit, parts, n, i, j, all, probes);
      n := n - 1;
      if hit {
        return;
      }
      assert j - i == Pow2(n);
    }
    FoundNone(f, step, unit, parts, i, j, a, b, all, probes, delta, got);
  }

  /**
    Whether the move is the smallest in the band, to within one part of the step, can be read off the least grid
    point in the band: it is, exactly if the next point of that point's own level is not in the band.
  */
  ghost predicate SmallestIff(f: real -> nat, step: real, unit: real, parts: nat, delta: real) {
    forall least :: IsLeastHit(f, unit, parts, least) ==> SmallestIffAt(f, step, unit, parts, delta, least)
  }

  ghost predicate SmallestIffAt(f: real -> nat, step: real, unit: real, parts: nat, delta: real, least: int)
    requires least > 0
  {
    && (NoneSmaller(f, step, unit, delta) <==> !GridHit(f, unit, parts, least + Pow2(Level(least))))
    && (NoneSmaller(f, step, unit, delta) <==> delta == Grid(unit, least))
  }

  lemma CoarsestNoneSmaller(f: real -> nat, step: real, unit: real, parts: nat, delta: real)
    requires Counts(f) && unit > 0.0 && Grid(unit, parts) == step && IsCoarsest(f, unit, parts, delta)
    ensures NoneSmaller(f, step, unit, delta) <==> At(f, delta - unit) < TARGET_LO
  {
    var m: nat, k: int :| delta == Grid(unit, k) && CoarsestHit(f, unit, parts, m, k);
    GridMonotone(unit, 1, k);
    GridMonotone(unit, k, parts);
    NoneSmallerIff(f, step, unit, delta);
  }

  lemma SmallestAt(f: real -> nat, step: real, unit: real, parts: nat, m: nat, k: int, least: int)
    requires Counts(f) && unit > 0.0 && CoarsestHit(f, unit, parts, m, k) && IsLeastHit(f, unit, parts, least)
    requires NoneSmaller(f, step, unit, Grid(unit, k)) <==> At(f, Grid(unit, k) - unit) < TARGET_LO
    ensures NoneSmaller(f, step, unit, Grid(unit, k)) <==> !GridHit(f, unit, parts, least + Pow2(Level(least)))
    ensures NoneSmaller(f, step, unit, Grid(unit, k)) <==> Grid(unit, k) == Grid(unit, least)
  {
    CoarsestIsLeastIff(f, unit, parts, m, k, least);
    LeastIffBelow(f, unit, parts, k, least);
    if least < k {
      GridMonotone(unit, least, k);
    }
  }

  lemma CoarsestSmallestIff(f: real -> nat, step: real, unit: real, parts: nat, delta: real)
    requires Counts(f) && unit > 0.0 && Grid(unit, parts) == step && IsCoarsest(f, unit, parts, delta)
    ensures SmallestIff(f, step, unit, parts, delta)
  {
    var m: nat, k: int :| delta == Grid(unit, k) && CoarsestHit(f, unit, parts, m, k);
    CoarsestNoneSmaller(f, step, unit, parts, delta);
    forall least | IsLeastHit(f, unit, parts, least)
      ensures SmallestIffAt(f, step, unit, parts, delta, least)
    {
      SmallestAt(f, step, unit, parts, m, k, least);
    }
  }

  /** No move up to the step that lies outside the bracket is closer to the middle of the band. */
  ghost predicate NoneCloser(f: real -> nat, step: real, a: real, b: real, got: nat) {
    forall size :: 0.0 < size <= step && (size <= a || (b <= size && b < step)) ==>
                     OffTarget(got) <= OffTarget(At(f, size))
  }

  /** What the caller can take from the result, besides the result itself. */
  lemma FoundTells(f: real -> nat, step: real, probes: seq<real>, unit: real, parts: nat, delta: real, got: nat,
                   a: real, b: real)
    requires Counts(f) && unit > 0.0 && Grid(unit, parts) == step
    requires Found(f, step, probes, unit, parts, delta, got, a, b)
    ensures InBand(got) ==> SmallestIff(f, step, unit, parts, delta)
    ensures InBand(got) ==> (NoneSmaller(f, step, unit, delta) <==> At(f, delta - unit) < TARGET_LO)
    ensures NoneCloser(f, step, a, b, got)
  {
    if InBand(got) {
      CoarsestSmallestIff(f, step, unit, parts, delta);
      CoarsestNoneSmaller(f, step, unit, parts, delta);
    }
    forall size | 0.0 < size <= step && (size <= a || (b <= size && b < step))
      ensures OffTarget(got) <= OffTarget(At(f, size))
    {
      NoneCloserOutside(f, step, a, b, probes, delta, got, size);
    }
  }

  /**
    The whole search.  Every move in the band up to `step` lies in the bracket returned; the move returned is
    the first of the closest probes, in the band exactly when an interior point of the grid over `step` is, and
    then the one at the coarsest level of that grid.  When that is the smallest is said of the grid alone.
  */
  method FindStep(cards: Cards, up: bool, rounds: nat, ghost f: real -> nat)
    returns (delta: real, got: nat, step: real, a: real, b: real)
    requires AreCards(cards) && CountsFor(f, cards, up) && rounds > 0
    ensures Expanded(f, step)
    ensures Found(f, step, Probes(f, 0.0, step, rounds), Unit(step, rounds), Pow2(rounds), delta, got, a, b)
    ensures InBand(got) ==> SmallestIff(f, step, Unit(step, rounds), Pow2(rounds), delta)
    ensures InBand(got) ==>
            (NoneSmaller(f, step, Unit(step, rounds), delta) <==> At(f, delta - Unit(step, rounds)) < TARGET_LO)
    ensures step <= STEP_SEARCH_CEILING ==> At(f, a) < TARGET_LO <= At(f, b)
    ensures NoneCloser(f, step, a, b, got)
  {
    CountsForCounts(f, cards, up);
    step := Expand(cards, up, f);
    ghost var unit, parts := Unit(step, rounds), Pow2(rounds);
    LocatedStart(f, step, unit, parts);
    GridWhole(step, parts, unit);
    delta, got, a, b := Bisect(cards, up, step, rounds, f, unit, parts);
    FoundTells(f, step, Probes(f, 0.0, step, rounds), unit, parts, delta, got, a, b);
  }

  /** The search as the command runs it. */
  method ProposeStep(cards: Cards, up: bool, ghost f: real -> nat)
    returns (delta: real, got: nat, ghost step: real, ghost rounds: nat)
    requires AreCards(cards) && CountsFor(f, cards, up)
    ensures Expanded(f, step) && rounds == 40 && Closest(f, Probes(f, 0.0, step, rounds), delta, got)
  {
    var whole, a, b;
    delta, got, whole, a, b := FindStep(cards, up, BISECTIONS, f);
    step, rounds := whole, BISECTIONS;
  }

  // ---------------------------------------------------------------- what the search determines, and what it misses

  lemma FirstDoubling(f: real -> nat, j: nat, k: nat)
    requires j < k <= 12 && Expanded(f, Doubled(k))
    ensures !Expanded(f, Doubled(j))
  {
    DoubledValues();
    DoubledGrows(j, k - 1);
    DoubledGrows(j, 11);
    DoubledGrows(0, k - 1);
    assert Doubled(k) == 2.0 * Doubled(k - 1);
    assert At(f, Doubled(j)) < TARGET_LO;
  }

  /** The step is determined: no two doublings are both the first to reach the target. */
  lemma StepIsUnique(f: real -> nat, step: real, other: real)
    requires Expanded(f, step) && Expanded(f, other)
    ensures step == other
  {
    var j: nat :| j <= 12 && step == Doubled(j);
    var k: nat :| k <= 12 && other == Doubled(k);
    if j < k {
      FirstDoubling(f, j, k);
    } else if k < j {
      FirstDoubling(f, k, j);
    }
  }

  /** The result is determined: there is only one first of the closest probes. */
  lemma ClosestIsUnique(f: real -> nat, probes: seq<real>, delta: real, got: nat, delta': real, got': nat)
    requires Closest(f, probes, delta, got) && Closest(f, probes, delta', got')
    ensures delta == delta' && got == got'
  {
    var r :| ClosestAt(f, probes, r, delta, got);
    var r' :| ClosestAt(f, probes, r', delta', got');
    assert OffTarget(got) <= OffTarget(At(f, probes[r'])) && OffTarget(got') <= OffTarget(At(f, probes[r]));
  }

  /** Cards whose second printing draws level, and wins by id, exactly at a move of this size. */
  function LevelAt(count: nat, size: real): Cards {
    seq(count, _ => [Printing(10.0, 0.0, 0), Printing(10.0 - size, 1.0, 1)])
  }

  lemma LevelCard(card: seq<Printing>, at: real, size: real)
    requires card == [Printing(10.0, 0.0, 0), Printing(10.0 - at, 1.0, 1)] && 0.001 <= at && 0.0 <= size
    ensures IsCard(card) && (Overrides(card, size) <==> at <= size)
  {
    assert card[0] in card && card[1] in card;
    BestIs(card, 0.0, card[0]);
    BestIs(card, size, if at <= size then card[1] else card[0]);
  }

  lemma CountLevel(cards: Cards, count: nat, at: real, size: real)
    requires cards == LevelAt(count, at) && 0.001 <= at && 0.0 <= size
    ensures AreCards(cards) && At(Counter(cards, true), size) == if at <= size then count else 0
  {
    forall c | 0 <= c < |cards|
      ensures IsCard(cards[c]) && (Overrides(cards[c], size) <==> at <= size)
    {
      LevelCard(cards[c], at, size);
    }
    AllOrNone(cards, size, at <= size);
  }

  lemma AllOrNone(cards: Cards, delta: real, all: bool)
    requires AreCards(cards) && forall c :: 0 <= c < |cards| ==> (Overrides(cards[c], delta) <==> all)
    ensures |Overridden(cards, delta)| == if all then |cards| else 0
  {
    if all {
      assert Overridden(cards, delta) == Upto(|cards|);
    } else {
      assert Overridden(cards, delta) == {};
    }
  }

  function Upto(n: nat): (r: set<int>)
    ensures |r| == n && forall c :: c in r <==> 0 <= c < n
  {
    if n == 0 then {} else Upto(n - 1) + {n - 1}
  }

  /** The last doubling is in the band, yet no interior point of its grid is, however fine: the search misses it. */
  lemma MissesTheWholeStep(cards: Cards, f: real -> nat, rounds: nat, unit: real, k: int)
    requires cards == LevelAt(7, 0.25) && AreCards(cards) && f == Counter(cards, true) && unit == Unit(0.25, rounds)
    ensures Expanded(f, 0.25) && InBand(At(f, 0.25)) && !GridHit(f, unit, Pow2(rounds), k)
  {
    CountLevel(cards, 7, 0.25, 0.25);
    assert Doubled(0) == 0.25;
    if 0 < k < Pow2(rounds) {
      GridWhole(0.25, Pow2(rounds), unit);
      GridMonotone(unit, k, Pow2(rounds));
      CountLevel(cards, 7, 0.25, Grid(unit, k));
    }
  }

  /** The first probe is in the band and ends the search, although a move of half its size is in the band too. */
  lemma NotTheSmallest(cards: Cards, f: real -> nat, rounds: nat)
    requires cards == LevelAt(6, 0.0625) && AreCards(cards) && f == Counter(cards, true) && rounds > 0
    ensures Expanded(f, 0.25) && Probes(f, 0.0, 0.25, rounds) == [0.125]
    ensures InBand(At(f, 0.125)) && InBand(At(f, 0.0625)) && !NoneSmaller(f, 0.25, 0.0625, 0.125)
  {
    CountLevel(cards, 6, 0.0625, 0.0625);
    CountLevel(cards, 6, 0.0625, 0.125);
    CountLevel(cards, 6, 0.0625, 0.25);
    assert Doubled(0) == 0.25;
    ProbesFrom(f, 0.0, 0.25, rounds, 0.125, 6);
  }
}
