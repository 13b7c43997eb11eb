/**
  Cut positions of an index: widths that double in from each edge up to a cap.  Floating-point numbers are
  exact reals.
*/
module CutLayout {
  import opened Numbers
  import opened SliceDistinct

  /** `max(int(n * cap_frac), 1)`; below zero truncation and floor both end at the 1. */
  function CapOf(n: nat, capFrac: real): (cap: int)
    ensures cap >= 1
    ensures cap as real <= MaxReal(n as real * capFrac, 1.0) && n as real * capFrac < cap as real + 1.0
  {
    Max((n as real * capFrac).Floor, 1)
  }

  /** The k-th position in from an edge: widths double from 1 and are capped. */
  function Edge(cap: int, k: nat): (x: int)
    requires cap >= 1
    ensures x >= k
  {
    if k == 0 then 0 else Edge(cap, k - 1) + Min(Pow2(k - 1), cap)
  }

  /** So the positions are one less than the powers of two as long as the widths are below the cap ... */
  lemma {:induction false} EdgeDoubles(cap: int, k: nat)
    requires cap >= 1 && (k == 0 || Pow2(k - 1) <= cap)
    ensures Edge(cap, k) == Pow2(k) - 1
  {
    if k > 0 {
      EdgeDoubles(cap, k - 1);
    }
  }

  lemma OneMore(d: nat, cap: int)
    requires d > 0
    ensures d * cap == (d - 1) * cap + cap
  {
  }

  /** ... and from there on they are the cap apart. */
  lemma {:induction false} EdgeIsUniform(cap: int, m: nat, d: nat)
    requires cap >= 1 && Pow2(m) >= cap && (m == 0 || Pow2(m - 1) <= cap)
    ensures Pow2(m + d) >= cap && Edge(cap, m + d) == Pow2(m) - 1 + d * cap
    decreases d
  {
    if d == 0 {
      EdgeDoubles(cap, m);
    } else {
      var k := m + d - 1;
      EdgeIsUniform(cap, m, d - 1);
      assert Edge(cap, k + 1) == Edge(cap, k) + cap && Pow2(k + 1) == 2 * Pow2(k);
      OneMore(d, cap);
    }
  }

  /** The k-th position is reached from a position still in the lower half. */
  ghost predicate Reached(n: nat, cap: int, k: nat)
    requires cap >= 1
  {
    k >= 1 && Edge(cap, k - 1) < n / 2
  }

  ghost predicate IsCut(n: nat, cap: int, c: int)
    requires cap >= 1
  {
    c == 0 || c == n || exists k: nat :: Reached(n, cap, k) && CutOf(n, cap, c, k)
  }

  ghost predicate Increasing(s: seq<int>) {
    forall i, j :: 0 <= i < j < |s| ==> s[i] < s[j]
  }

  ghost predicate NonDecreasing(s: seq<int>) {
    forall i, j :: 0 <= i <= j < |s| ==> s[i] <= s[j]
  }

  ghost predicate CutAbove(cuts: set<int>, cap: int, y: int) {
    exists c :: c in cuts && y < c <= y + cap
  }

  ghost predicate CutBelow(cuts: set<int>, cap: int, z: int) {
    exists c :: c in cuts && z - cap <= c < z
  }

  /** Every window of `cap` positions inside [lo, hi] meets a cut, looking up and looking down. */
  ghost predicate Dense(cuts: set<int>, cap: int, lo: int, hi: int) {
    && (forall y :: lo <= y < hi ==> CutAbove(cuts, cap, y))
    && (forall z :: lo < z <= hi ==> CutBelow(cuts, cap, z))
  }

  ghost predicate HasMirror(cuts: set<int>, n: int, c: int) {
    n - c in cuts
  }

  ghost predicate Symmetric(cuts: set<int>, n: int) {
    forall c {:trigger HasMirror(cuts, n, c)} :: c in cuts ==> HasMirror(cuts, n, c)
  }

  ghost predicate IsLeast(s: set<int>, m: int) {
    m in s && forall y :: y in s ==> m <= y
  }

  lemma {:induction false} HasMinimum(s: set<int>) returns (m: int)
    requires s != {}
    ensures IsLeast(s, m)
    decreases |s|
  {
    if forall x :: x !in s {
      assert false;
    }
    var x :| x in s;
    var rest := s - {x};
    if rest == {} {
      assert s == {x};
      m := x;
    } else {
      m := HasMinimum(rest);
      assert forall y :: y in s ==> y == x || y in rest;
      m := if m < x then m else x;
    }
  }

  /** `sorted` on a set of integers. */
  method Sorted(s: set<int>) returns (r: seq<int>)
    ensures Increasing(r)
    ensures forall x :: x in r <==> x in s
  {
    r := [];
    var rest := s;
    while rest != {}
      invariant rest <= s
      invariant Increasing(r)
      invariant forall x :: x in s <==> x in r || x in rest
      invariant forall i, y :: 0 <= i < |r| && y in rest ==> r[i] < y
      decreases |rest|
    {
      ghost var least := HasMinimum(rest);
      var m :| m in rest && forall y :: y in rest ==> m <= y;
      r := r + [m];
      rest := rest - {m};
    }
  }

  lemma DenseExtend(cuts: set<int>, cap: int, x: int, x': int)
    requires Dense(cuts, cap, 0, x) && 0 <= x < x' <= x + cap && x in cuts && x' in cuts
    ensures Dense(cuts, cap, 0, x')
  {
    forall y | 0 <= y < x'
      ensures CutAbove(cuts, cap, y)
    {
      assert y >= x ==> x' in cuts && y < x' <= y + cap;
    }
    forall z | 0 < z <= x'
      ensures CutBelow(cuts, cap, z)
    {
      assert z > x ==> x in cuts && z - cap <= x < z;
    }
  }

  lemma DenseMirror(cuts: set<int>, cap: int, n: int, x: int)
    requires Dense(cuts, cap, 0, x) && Symmetric(cuts, n)
    ensures Dense(cuts, cap, n - x, n)
  {
    forall y | n - x <= y < n
      ensures CutAbove(cuts, cap, y)
    {
      assert CutBelow(cuts, cap, n - y);
      var c :| c in cuts && (n - y) - cap <= c < n - y;
      assert HasMirror(cuts, n, c);
      assert n - c in cuts && y < n - c <= y + cap;
    }
    forall z | n - x < z <= n
      ensures CutBelow(cuts, cap, z)
    {
      assert CutAbove(cuts, cap, n - z);
      var c :| c in cuts && n - z < c <= (n - z) + cap;
      assert HasMirror(cuts, n, c);
      assert n - c in cuts && z - cap <= n - c < z;
    }
  }

  /** Two dense halves that meet, or leave out only the one position in the middle, are dense together. */
  lemma DenseJoin(cuts: set<int>, cap: int, n: int, x: int)
    requires cap >= 1 && 0 <= n / 2 <= x <= n && Symmetric(cuts, n) && x in cuts
    requires Dense(cuts, cap, 0, x)
    ensures Dense(cuts, cap, 0, n)
  {
    DenseMirror(cuts, cap, n, x);
    assert HasMirror(cuts, n, x);
    forall y | 0 <= y < n
      ensures CutAbove(cuts, cap, y)
    {
      assert x <= y < n - x ==> y < n - x <= y + cap;
    }
    forall z | 0 < z <= n
      ensures CutBelow(cuts, cap, z)
    {
      assert x < z <= n - x ==> z - cap <= x < z;
    }
  }

  /** In a dense set listed in order, neighbours are at most `cap` apart. */
  lemma DenseGaps(cuts: set<int>, sorted: seq<int>, cap: int, n: int, k: nat)
    requires Dense(cuts, cap, 0, n) && Increasing(sorted) && (forall x :: x in sorted <==> x in cuts)
    requires k + 1 < |sorted| && 0 <= sorted[k] < n
    ensures sorted[k + 1] - sorted[k] <= cap
  {
    assert CutAbove(cuts, cap, sorted[k]);
    var c :| c in cuts && sorted[k] < c <= sorted[k] + cap;
    assert c in sorted;
    var j :| 0 <= j < |sorted| && sorted[j] == c;
    assert j >= k + 1;
  }

  ghost predicate Gapped(cuts: seq<int>, cap: int) {
    forall k :: 0 <= k && k + 1 < |cuts| ==> cuts[k + 1] - cuts[k] <= cap
  }

  /** A layout of [0, n]: strictly increasing cut positions from 0 to n. */
  ghost predicate Layout(cuts: seq<int>, n: int) {
    Increasing(cuts) && |cuts| >= 2 && cuts[0] == 0 && cuts[|cuts| - 1] == n
  }

  lemma {:induction false} EdgeMonotone(cap: int, i: nat, j: nat)
    requires cap >= 1 && i <= j
    ensures Edge(cap, i) <= Edge(cap, j)
    decreases j
  {
    if i < j {
      EdgeMonotone(cap, i, j - 1);
    }
  }

  lemma {:induction false} StepFits(cap: int, k: nat)
    requires cap >= 1
    ensures Min(Pow2(k), cap) <= Edge(cap, k) + 1
  {
    if k > 0 {
      StepFits(cap, k - 1);
    }
  }

  /** Position c is put in by step j, counted from either edge. */
  ghost predicate CutOf(n: nat, cap: int, c: int, j: nat)
    requires cap >= 1
  {
    c == Min(Edge(cap, j), n) || c == Max(n - Edge(cap, j), 0)
  }

  /** The cuts of the first k steps. */
  ghost predicate CutUpTo(n: nat, cap: int, c: int, k: nat)
    requires cap >= 1
  {
    c == 0 || c == n || exists j: nat :: 1 <= j <= k && CutOf(n, cap, c, j)
  }

  lemma ReachedBefore(n: nat, cap: int, k: nat, j: nat)
    requires cap >= 1 && 1 <= j <= k && Reached(n, cap, k)
    ensures Reached(n, cap, j)
  {
    EdgeMonotone(cap, j - 1, k - 1);
  }

  lemma NotReachedAfter(n: nat, cap: int, k: nat, j: nat)
    requires cap >= 1 && k < j && n / 2 <= Edge(cap, k)
    ensures !Reached(n, cap, j)
  {
    EdgeMonotone(cap, k, j - 1);
  }

  lemma CutsComplete(n: nat, cap: int, k: nat, c: int)
    requires cap >= 1 && n / 2 <= Edge(cap, k) && (k >= 1 ==> Reached(n, cap, k))
    ensures CutUpTo(n, cap, c, k) <==> IsCut(n, cap, c)
  {
    forall j: nat | j >= 1 && CutOf(n, cap, c, j)
      ensures j <= k <==> Reached(n, cap, j)
    {
      if j <= k {
        ReachedBefore(n, cap, k, j);
      } else {
        NotReachedAfter(n, cap, k, j);
      }
    }
  }

  lemma DenseSuperset(a: set<int>, b: set<int>, cap: int, x: int)
    requires Dense(a, cap, 0, x) && a <= b
    ensures Dense(b, cap, 0, x)
  {
    forall y | 0 <= y < x
      ensures CutAbove(b, cap, y)
    {
      assert CutAbove(a, cap, y);
    }
    forall z | 0 < z <= x
      ensures CutBelow(b, cap, z)
    {
      assert CutBelow(a, cap, z);
    }
  }

  lemma EndsAreFirstAndLast(r: seq<int>, n: int)
    requires Increasing(r) && n >= 1 && 0 in r && n in r && forall c :: c in r ==> 0 <= c <= n
    ensures Layout(r, n)
  {
    var i :| 0 <= i < |r| && r[i] == 0;
    var j :| 0 <= j < |r| && r[j] == n;
    assert r[0] in r && r[|r| - 1] in r;
  }

  /** The loop of `trapezoid` after k steps. */
  ghost predicate Building(n: nat, cap: int, k: nat, x: int, cuts: set<int>) {
    && cap >= 1 && x == Edge(cap, k) && 0 <= x <= n
    && (k >= 1 ==> Reached(n, cap, k))
    && x in cuts && n - x in cuts
    && Symmetric(cuts, n)
    && Dense(cuts, cap, 0, x)
  }

  ghost predicate CutsUpTo(n: nat, cap: int, k: nat, cuts: set<int>)
    requires cap >= 1
  {
    forall c :: c in cuts <==> CutUpTo(n, cap, c, k)
  }

  lemma GrowCuts(n: nat, cap: int, k: nat, cuts: set<int>)
    requires cap >= 1 && CutsUpTo(n, cap, k, cuts)
    ensures var x := Edge(cap, k + 1); CutsUpTo(n, cap, k + 1, cuts + {Min(x, n)} + {Max(n - x, 0)})
  {
    var x := Edge(cap, k + 1);
    var grown := cuts + {Min(x, n)} + {Max(n - x, 0)};
    forall c
      ensures c in grown <==> CutUpTo(n, cap, c, k + 1)
    {
      if CutOf(n, cap, c, k + 1) {
        assert CutUpTo(n, cap, c, k + 1);
      } else {
        assert CutUpTo(n, cap, c, k + 1) <==> CutUpTo(n, cap, c, k);
      }
    }
  }

  lemma SymmetricGrow(cuts: set<int>, n: int, x: int)
    requires Symmetric(cuts, n) && 0 <= x <= n
    ensures Symmetric(cuts + {Min(x, n)} + {Max(n - x, 0)}, n)
  {
    var grown := cuts + {Min(x, n)} + {Max(n - x, 0)};
    forall c {:trigger HasMirror(grown, n, c)} | c in grown
      ensures HasMirror(grown, n, c)
    {
      assert c in cuts ==> HasMirror(cuts, n, c);
    }
  }

  lemma BuildStep(n: nat, cap: int, k: nat, x: int, cuts: set<int>, x': int, grown: set<int>)
    requires Building(n, cap, k, x, cuts) && x < n / 2
    requires x' == x + Min(Pow2(k), cap) && grown == cuts + {Min(x', n)} + {Max(n - x', 0)}
    ensures Building(n, cap, k + 1, x', grown)
  {
    StepFits(cap, k);
    SymmetricGrow(cuts, n, x');
    DenseSuperset(cuts, grown, cap, x);
    DenseExtend(grown, cap, x, x');
  }

  lemma BuildDone(n: nat, cap: int, k: nat, x: int, cuts: set<int>)
    requires Building(n, cap, k, x, cuts) && CutsUpTo(n, cap, k, cuts) && n / 2 <= x
    ensures forall c :: c in cuts <==> IsCut(n, cap, c)
    ensures Dense(cuts, cap, 0, n)
    ensures 0 in cuts && n in cuts && forall c :: c in cuts ==> 0 <= c <= n
  {
    DenseJoin(cuts, cap, n, x);
    assert CutUpTo(n, cap, 0, k) && CutUpTo(n, cap, n, k);
    forall c
      ensures c in cuts <==> IsCut(n, cap, c)
      ensures c in cuts ==> 0 <= c <= n
    {
      CutsComplete(n, cap, k, c);
    }
  }

  lemma ListedGaps(cuts: set<int>, r: seq<int>, cap: int, n: int)
    requires Dense(cuts, cap, 0, n) && Increasing(r) && (forall x :: x in r <==> x in cuts)
    requires forall c :: c in cuts ==> 0 <= c <= n
    ensures Gapped(r, cap)
  {
    forall i | 0 <= i && i + 1 < |r|
      ensures r[i + 1] - r[i] <= cap
    {
      assert r[i] in r && r[i + 1] in r;
      DenseGaps(cuts, r, cap, n, i);
    }
  }

  /** `trapezoid`: widths doubling in from each edge, capped, then uniform across the middle. */
  method Trapezoid(n: nat, capFrac: real) returns (r: seq<int>)
    ensures Increasing(r)
    ensures forall c :: c in r <==> IsCut(n, CapOf(n, capFrac), c)
    ensures Symmetric(Elements(r), n)
    ensures n >= 1 ==> Layout(r, n)
    ensures Gapped(r, CapOf(n, capFrac))
  {
    var cap := CapOf(n, capFrac);
    var cuts := {0, n as int};
    var width, x := 1, 0;
    ghost var k: nat := 0;
    while x < n / 2
      invariant width == Pow2(k)
      invariant Building(n, cap, k, x, cuts)
      invariant CutsUpTo(n, cap, k, cuts)
    {
      ghost var x0, cuts0 := x, cuts;
      x := x + Min(width, cap);
      cuts := cuts + {Min(x, n)};
      cuts := cuts + {Max(n - x, 0)};
      width := width * 2;
      BuildStep(n, cap, k, x0, cuts0, x, cuts);
      GrowCuts(n, cap, k, cuts0);
      k := k + 1;
    }
    BuildDone(n, cap, k, x, cuts);
    r := Sorted(cuts);
    assert Elements(r) == cuts;
    ListedGaps(cuts, r, cap, n);
    if n >= 1 {
      EndsAreFirstAndLast(r, n);
    }
  }
}
