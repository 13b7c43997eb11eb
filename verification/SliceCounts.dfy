/**
  What is stored for a layout: prefix and suffix counts, the banded table, and bisection over ordered lists.
*/
module SliceCounts {
  import opened Numbers
  import opened SliceDistinct
  import opened CutLayout

  // ---------------------------------------------------------------- stored counts

  /** Cut positions of a list of n rows, in order; equal neighbours are allowed. */
  ghost predicate Cuts(cuts: seq<int>, n: int) {
    NonDecreasing(cuts) && forall k :: 0 <= k < |cuts| ==> 0 <= cuts[k] <= n
  }

  ghost predicate PrefixAt(cards: seq<int>, c: int, count: int)
    requires 0 <= c <= |cards|
  {
    count == Distinct(cards, 0, c)
  }

  ghost predicate SuffixAt(cards: seq<int>, c: int, count: int)
    requires 0 <= c <= |cards|
  {
    count == Distinct(cards, c, |cards|)
  }

  ghost predicate PrefixCounts(cards: seq<int>, cuts: seq<int>, pre: seq<int>)
    requires Cuts(cuts, |cards|)
  {
    && |pre| == |cuts|
    && forall k {:trigger PrefixAt(cards, cuts[k], pre[k])} :: 0 <= k < |cuts| ==> PrefixAt(cards, cuts[k], pre[k])
  }

  ghost predicate SuffixCounts(cards: seq<int>, cuts: seq<int>, suf: seq<int>)
    requires Cuts(cuts, |cards|)
  {
    && |suf| == |cuts|
    && forall k {:trigger SuffixAt(cards, cuts[k], suf[k])} :: 0 <= k < |cuts| ==> SuffixAt(cards, cuts[k], suf[k])
  }

  method Prefixes(cards: seq<int>, cuts: seq<int>) returns (pre: seq<int>)
    requires Cuts(cuts, |cards|)
    ensures PrefixCounts(cards, cuts, pre)
  {
    pre := [];
    var seen, last := {}, 0;
    for k := 0 to |cuts|
      invariant last == if k == 0 then 0 else cuts[k - 1]
      invariant seen == Elements(cards[0..last])
      invariant |pre| == k
      invariant forall i {:trigger PrefixAt(cards, cuts[i], pre[i])} :: 0 <= i < k ==> PrefixAt(cards, cuts[i], pre[i])
    {
      var c := cuts[k];
      SplitElements(cards, 0, last, c);
      seen := seen + Elements(cards[last..c]);
      last := c;
      pre := pre + [|seen|];
    }
  }

  method Suffixes(cards: seq<int>, cuts: seq<int>) returns (suf: seq<int>)
    requires Cuts(cuts, |cards|)
    ensures SuffixCounts(cards, cuts, suf)
  {
    suf := [];
    var seen, last := {}, |cards|;
    for k := |cuts| downto 0
      invariant last == if k == |cuts| then |cards| else cuts[k]
      invariant seen == Elements(cards[last..|cards|])
      invariant |suf| == |cuts| - k && forall i :: k <= i < |cuts| ==> suf[i - k] == Distinct(cards, cuts[i], |cards|)
    {
      var c := cuts[k];
      SplitElements(cards, c, last, |cards|);
      seen := seen + Elements(cards[c..last]);
      last := c;
      suf := [|seen|] + suf;
    }
  }

  /** `prefix_suffix`: distinct cards in [0, cut) and in [cut, n) for every cut. */
  method PrefixSuffix(cards: seq<int>, cuts: seq<int>) returns (pre: seq<int>, suf: seq<int>)
    requires Cuts(cuts, |cards|)
    ensures PrefixCounts(cards, cuts, pre)
    ensures SuffixCounts(cards, cuts, suf)
  {
    pre := Prefixes(cards, cuts);
    suf := Suffixes(cards, cuts);
  }

  /** A cell is stored exactly when it is at most `band` buckets wide, with its exact count. */
  ghost predicate CellRight(cards: seq<int>, cuts: seq<int>, band: int, bnd: map<(int, int), int>, i: int, j: int)
    requires Cuts(cuts, |cards|)
  {
    && ((i, j) in bnd <==> 0 <= i < j < |cuts| && j - i <= band)
    && ((i, j) in bnd ==> bnd[(i, j)] == Distinct(cards, cuts[i], cuts[j]))
  }

  ghost predicate BandCounts(cards: seq<int>, cuts: seq<int>, band: int, bnd: map<(int, int), int>)
    requires Cuts(cuts, |cards|)
  {
    forall i, j {:trigger CellRight(cards, cuts, band, bnd, i, j)} :: CellRight(cards, cuts, band, bnd, i, j)
  }

  /** The rows below i are complete, and row i is filled up to column j. */
  predicate CellDone(count: int, band: int, i: int, j: int, p: int, q: int) {
    (0 <= p < i && p < q < count && q - p <= band) || (p == i && i < q < j)
  }

  ghost predicate BandUpTo(cards: seq<int>, cuts: seq<int>, band: int, i: int, j: int, bnd: map<(int, int), int>)
    requires Cuts(cuts, |cards|) && 0 <= i && j <= |cuts|
  {
    && (forall p, q :: (p, q) in bnd <==> CellDone(|cuts|, band, i, j, p, q))
    && (forall p, q :: (p, q) in bnd && 0 <= p < q < |cuts| ==> bnd[(p, q)] == Distinct(cards, cuts[p], cuts[q]))
  }

  lemma AddCell(cards: seq<int>, cuts: seq<int>, band: int, i: int, j: int, bnd: map<(int, int), int>,
                bnd': map<(int, int), int>)
    requires Cuts(cuts, |cards|) && 0 <= i < j < |cuts| && BandUpTo(cards, cuts, band, i, j, bnd)
    requires bnd' == bnd[(i, j) := Distinct(cards, cuts[i], cuts[j])]
    ensures BandUpTo(cards, cuts, band, i, j + 1, bnd')
  {
  }

  lemma NextRow(cards: seq<int>, cuts: seq<int>, band: int, i: int, j: int, bnd: map<(int, int), int>)
    requires Cuts(cuts, |cards|) && 0 <= i && i + 1 < |cuts| && i < j <= |cuts| &&
             BandUpTo(cards, cuts, band, i, j, bnd)
    requires (j == |cuts| || j > i + band) && j <= Max(i + band, i) + 1
    ensures BandUpTo(cards, cuts, band, i + 1, i + 2, bnd)
  {
  }

  lemma BandComplete(cards: seq<int>, cuts: seq<int>, band: int, i: int, bnd: map<(int, int), int>)
    requires Cuts(cuts, |cards|) && 0 <= i && i + 1 <= |cuts| && |cuts| - 1 <= i &&
             BandUpTo(cards, cuts, band, i, i + 1, bnd)
    ensures BandCounts(cards, cuts, band, bnd)
  {
    forall p, q
      ensures CellRight(cards, cuts, band, bnd, p, q)
    {
      assert (p, q) in bnd <==> CellDone(|cuts|, band, i, i + 1, p, q);
    }
  }

  /** One row of the table: the slices that start at cut i, each extending the one before. */
  method BandRow(cards: seq<int>, cuts: seq<int>, band: int, i: nat, bnd: map<(int, int), int>)
    returns (out: map<(int, int), int>)
    requires Cuts(cuts, |cards|) && i + 1 < |cuts| && BandUpTo(cards, cuts, band, i, i + 1, bnd)
    ensures BandUpTo(cards, cuts, band, i + 1, i + 2, out)
  {
    out := bnd;
    var seen: set<int> := {};
    var j := i + 1;
    while j < Min(i + band, |cuts| - 1) + 1
      invariant i + 1 <= j <= |cuts| && j <= Max(i + band, i) + 1
      invariant seen == Elements(cards[cuts[i]..cuts[j - 1]])
      invariant BandUpTo(cards, cuts, band, i, j, out)
    {
      SplitElements(cards, cuts[i], cuts[j - 1], cuts[j]);
      seen := seen + Elements(cards[cuts[j - 1]..cuts[j]]);
      ghost var before := out;
      out := out[(i, j) := |seen|];
      AddCell(cards, cuts, band, i, j, before, out);
      j := j + 1;
    }
    NextRow(cards, cuts, band, i, j, out);
  }

  /** `banded`: exact distinct counts for [cut_i, cut_j) where j - i <= band. */
  method Banded(cards: seq<int>, cuts: seq<int>, band: int) returns (out: map<(int, int), int>)
    requires Cuts(cuts, |cards|)
    ensures BandCounts(cards, cuts, band, out)
  {
    out := map[];
    if |cuts| == 0 {
      return;
    }
    var i := 0;
    while i < |cuts| - 1
      invariant 0 <= i <= |cuts| - 1
      invariant BandUpTo(cards, cuts, band, i, i + 1, out)
    {
      out := BandRow(cards, cuts, band, i, out);
      i := i + 1;
    }
    BandComplete(cards, cuts, band, i, out);
  }

  // ---------------------------------------------------------------- bisection

  /** The elements that satisfy `below` come first. */
  ghost predicate Ordered<T(!new)>(s: seq<T>, below: T -> bool) {
    forall i, j :: 0 <= i < j < |s| && below(s[j]) ==> below(s[i])
  }

  /** `bisect`: how many leading elements satisfy `below`. */
  function Bisect<T(!new)>(s: seq<T>, below: T -> bool): (r: nat)
    requires Ordered(s, below)
    ensures r <= |s|
    ensures forall i :: 0 <= i < |s| ==> (below(s[i]) <==> i < r)
  {
    if s == [] then 0
    else
      var n := |s| - 1;
      if below(s[n]) then |s|
      else
        assert forall i :: 0 <= i < n ==> s[..n][i] == s[i];
        Bisect(s[..n], below)
  }

  function BisectRight(s: seq<int>, x: int): nat
    requires NonDecreasing(s)
  {
    Bisect(s, y => y <= x)
  }

  function BisectLeft(s: seq<int>, x: int): nat
    requires NonDecreasing(s)
  {
    Bisect(s, y => y < x)
  }
}
