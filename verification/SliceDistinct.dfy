/**
  The number of distinct cards in a slice of a value-sorted index, and how it changes with the slice.
*/
module SliceDistinct {
  import opened Numbers

  function Elements(s: seq<int>): set<int> {
    set x | x in s
  }

  /** `len(set(cards[lo:hi]))`. */
  function Distinct(cards: seq<int>, lo: int, hi: int): nat
    requires 0 <= lo <= hi <= |cards|
  {
    |Elements(cards[lo..hi])|
  }

  lemma {:induction false} ElementsBound(s: seq<int>)
    ensures |Elements(s)| <= |s|
  {
    if s != [] {
      var n := |s| - 1;
      ElementsBound(s[..n]);
      assert s == s[..n] + [s[n]];
      assert Elements(s) == Elements(s[..n]) + {s[n]};
    }
  }

  lemma SplitElements(cards: seq<int>, a: int, b: int, c: int)
    requires 0 <= a <= b <= c <= |cards|
    ensures Elements(cards[a..c]) == Elements(cards[a..b]) + Elements(cards[b..c])
  {
    assert cards[a..c] == cards[a..b] + cards[b..c];
  }

  /** A wider slice has at least as many distinct cards, and at most one more per added row. */
  lemma DistinctWiden(cards: seq<int>, lo: int, a: int, b: int, hi: int)
    requires 0 <= lo <= a <= b <= hi <= |cards|
    ensures Distinct(cards, a, b) <= Distinct(cards, lo, hi)
    ensures Distinct(cards, lo, hi) <= Distinct(cards, a, b) + (a - lo) + (hi - b)
  {
    SplitElements(cards, lo, a, hi);
    SplitElements(cards, a, b, hi);
    SubsetSize(Elements(cards[a..b]), Elements(cards[lo..hi]));
    ElementsBound(cards[lo..a]);
    ElementsBound(cards[b..hi]);
  }

  lemma DistinctAtMost(cards: seq<int>, lo: int, hi: int)
    requires 0 <= lo <= hi <= |cards|
    ensures Distinct(cards, lo, hi) <= hi - lo
    ensures lo < hi ==> 1 <= Distinct(cards, lo, hi)
  {
    ElementsBound(cards[lo..hi]);
    if lo < hi {
      assert cards[lo] in Elements(cards[lo..hi]) by {
        assert cards[lo..hi][0] == cards[lo];
      }
    }
  }

  /** Cards with rows before a and from b on, and none between. */
  function Straddling(cards: seq<int>, a: int, b: int): set<int>
    requires 0 <= a <= b <= |cards|
  {
    Elements(cards[0..a]) * Elements(cards[b..|cards|]) - Elements(cards[a..b])
  }

  lemma InclusionExclusion(below: set<int>, above: set<int>, inner: set<int>, extra: set<int>)
    requires below * above == inner + extra && inner !! extra
    ensures |below| + |above| - |below + above| == |inner| + |extra|
  {
    assert |below + above| == |below| + |above| - |below * above|;
    assert |inner + extra| == |inner| + |extra|;
  }

  /**
    Prefix plus suffix minus total counts the distinct cards of [a, b) and, besides them, exactly the straddling ones.
  */
  lemma OverlapExact(cards: seq<int>, a: int, b: int)
    requires 0 <= a <= b <= |cards|
    ensures Distinct(cards, 0, b) + Distinct(cards, a, |cards|) - Distinct(cards, 0, |cards|)
         == Distinct(cards, a, b) + |Straddling(cards, a, b)|
  {
    var below, above, inner := Elements(cards[0..b]), Elements(cards[a..|cards|]), Elements(cards[a..b]);
    SplitElements(cards, 0, a, b);
    SplitElements(cards, a, b, |cards|);
    SplitElements(cards, 0, b, |cards|);
    assert below + above == Elements(cards[0..|cards|]);
    assert below * above == inner + Straddling(cards, a, b);
    InclusionExclusion(below, above, inner, Straddling(cards, a, b));
  }

  /** So it never under-counts, and is exact if and only if no card straddles. */
  lemma OverlapBound(cards: seq<int>, a: int, b: int)
    requires 0 <= a <= b <= |cards|
    ensures var bound := Distinct(cards, 0, b) + Distinct(cards, a, |cards|) - Distinct(cards, 0, |cards|);
            Distinct(cards, a, b) <= bound && (bound == Distinct(cards, a, b) <==> Straddling(cards, a, b) == {})
  {
    OverlapExact(cards, a, b);
  }

  /** The distinct cards between two positions together with those that straddle them only grow with the range. */
  lemma StraddlingWidens(cards: seq<int>, lo: int, a: int, b: int, hi: int)
    requires 0 <= lo <= a <= b <= hi <= |cards|
    ensures Distinct(cards, a, b) + |Straddling(cards, a, b)| <= Distinct(cards, lo, hi) + |Straddling(cards, lo, hi)|
  {
    OverlapExact(cards, a, b);
    OverlapExact(cards, lo, hi);
    DistinctWiden(cards, 0, 0, b, hi);
    DistinctWiden(cards, lo, a, |cards|, |cards|);
  }
}
