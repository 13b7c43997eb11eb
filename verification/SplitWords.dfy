/**
  Splitting a host name into dictionary words, trying split points from the middle outward and recursing on
  either side.
*/
module SplitWords {
  import opened Options

  const MIN_WORD_LEN: nat := 3

  // ---------------------------------------------------------------- the order of split points

  function Distance(k: int, mid: int): nat {
    if k < mid then mid - k else k - mid
  }

  /**
    The j-th split point of a string of length `n`: the middle, then below and above it in turn, and what is left over
    last.
  */
  function PointAt(n: nat, j: nat): int {
    if n % 2 == 1 && j == n - 2 then n - 1
    else if j % 2 == 0 then n / 2 + j / 2
    else n / 2 - (j + 1) / 2
  }

  function Points(n: nat): (r: seq<int>)
    requires n >= 1
    ensures |r| == n - 1 && forall j :: 0 <= j < |r| ==> r[j] == PointAt(n, j)
  {
    seq(n - 1, j requires j >= 0 => PointAt(n, j))
  }

  /** Sorted by distance, ties in their original order, nothing twice. */
  ghost predicate StablySorted(s: seq<int>, mid: int) {
    forall i, j :: 0 <= i < j < |s| ==> OrderedAt(s, i, j, mid)
  }

  predicate OrderedAt(s: seq<int>, i: int, j: int, mid: int)
    requires 0 <= i < j < |s|
  {
    Ordered(s[i], s[j], mid)
  }

  predicate Ordered(a: int, b: int, mid: int) {
    Distance(a, mid) < Distance(b, mid) || (Distance(a, mid) == Distance(b, mid) && a < b)
  }

  lemma PointInRange(n: nat, j: nat)
    requires j < n - 1
    ensures 1 <= PointAt(n, j) < n
  {
  }

  /** Where in the order a split point comes. */
  function PlaceOf(n: nat, k: int): int {
    if n % 2 == 1 && k == n - 1 then n - 2 else if k >= n / 2 then 2 * (k - n / 2) else 2 * (n / 2 - k) - 1
  }

  lemma PlaceIsRight(n: nat, k: int)
    requires 1 <= k < n
    ensures 0 <= PlaceOf(n, k) < n - 1 && PointAt(n, PlaceOf(n, k)) == k
  {
  }

  /** The order is the stable sort of 1 .. n - 1 by distance from the middle. */
  lemma PointsAreSorted(n: nat, points: seq<int>)
    requires n >= 1 && points == Points(n)
    ensures forall k :: k in points <==> 1 <= k < n
    ensures StablySorted(points, n / 2)
  {
    forall k
      ensures k in points <==> 1 <= k < n
    {
      if k in points {
        var j :| 0 <= j < |points| && points[j] == k;
        PointInRange(n, j);
      }
      if 1 <= k < n {
        PlaceIsRight(n, k);
        assert points[PlaceOf(n, k)] == k;
      }
    }
    forall i, j | 0 <= i < j < |points|
      ensures OrderedAt(points, i, j, n / 2)
    {
      assert Ordered(PointAt(n, i), PointAt(n, j), n / 2);
    }
  }

  // ---------------------------------------------------------------- the search

  function Split(s: string, words: set<string>): Option<seq<string>>
    decreases |s|, 1, 0
  {
    if s in words then Some([s])
    else if |s| < MIN_WORD_LEN then None
    else
      PointsAreSorted(|s|, Points(|s|));
      TrySplits(s, words, Points(|s|), 0)
  }

  /** The loop over the split points, from the i-th on. */
  function TrySplits(s: string, words: set<string>, points: seq<int>, i: nat): Option<seq<string>>
    requires i <= |points| && forall k :: k in points ==> 1 <= k < |s|
    decreases |s|, 0, |points| - i
  {
    if i == |points| then None
    else
      assert points[i] in points;
      var at := SplitAt(s, words, points[i]);
      if at.Some? then at else TrySplits(s, words, points, i + 1)
  }

  /** One split point: the left part as a word first, then the right part. */
  function SplitAt(s: string, words: set<string>, k: int): Option<seq<string>>
    requires 1 <= k < |s|
    decreases |s|, 0, 0
  {
    var left, right := s[..k], s[k..];
    if left in words && Split(right, words).Some? then Some([left] + Split(right, words).value)
    else if right in words && Split(left, words).Some? then Some(Split(left, words).value + [right])
    else None
  }

  /** `alpha` says which characters are alphabetic. */
  function SplitWords(s: string, words: set<string>, alpha: char -> bool): Option<seq<string>> {
    if IsAlpha(s, alpha) then Split(s, words) else None
  }

  predicate IsAlpha(s: string, alpha: char -> bool) {
    s != [] && forall i :: 0 <= i < |s| ==> alpha(s[i])
  }

  // ---------------------------------------------------------------- segmentations

  function Concat(pieces: seq<string>): string {
    if pieces == [] then [] else pieces[0] + Concat(pieces[1..])
  }

  lemma {:induction false} ConcatAppend(pieces: seq<string>, last: string)
    ensures Concat(pieces + [last]) == Concat(pieces) + last
  {
    if pieces == [] {
      assert pieces + [last] == [last];
      assert Concat([last]) == last + Concat([]);
    } else {
      assert (pieces + [last])[1..] == pieces[1..] + [last];
      ConcatAppend(pieces[1..], last);
    }
  }

  /** The pieces are non-empty words of the dictionary and spell the string. */
  ghost predicate Segments(pieces: seq<string>, s: string, words: set<string>) {
    |pieces| > 0 && Concat(pieces) == s && forall i :: 0 <= i < |pieces| ==> pieces[i] != [] && pieces[i] in words
  }

  /** A single piece, or some piece of two characters or more. */
  ghost predicate Anchored(pieces: seq<string>) {
    |pieces| == 1 || exists i :: 0 <= i < |pieces| && |pieces[i]| >= 2
  }

  ghost predicate Splittable(s: string, words: set<string>) {
    exists pieces :: Segments(pieces, s, words) && Anchored(pieces)
  }

  // ---------------------------------------------------------------- soundness

  lemma {:induction false} SplitSound(s: string, words: set<string>)
    requires s != [] && Split(s, words).Some?
    ensures Segments(Split(s, words).value, s, words) && Anchored(Split(s, words).value)
    decreases |s|, 1, 0
  {
    if s in words {
      assert Concat([s]) == s + Concat([]);
    } else {
      PointsAreSorted(|s|, Points(|s|));
      TrySound(s, words, Points(|s|), 0);
    }
  }

  lemma {:induction false} TrySound(s: string, words: set<string>, points: seq<int>, i: nat)
    requires |s| >= MIN_WORD_LEN && i <= |points| && (forall k :: k in points ==> 1 <= k < |s|)
    requires TrySplits(s, words, points, i).Some?
    ensures Segments(TrySplits(s, words, points, i).value, s, words) && Anchored(TrySplits(s, words, points, i).value)
    decreases |s|, 0, |points| - i
  {
    assert points[i] in points;
    if SplitAt(s, words, points[i]).Some? {
      SplitAtSound(s, words, points[i]);
    } else {
      TrySound(s, words, points, i + 1);
    }
  }

  lemma SplitAtSound(s: string, words: set<string>, k: int)
    requires |s| >= MIN_WORD_LEN && 1 <= k < |s| && SplitAt(s, words, k).Some?
    ensures Segments(SplitAt(s, words, k).value, s, words) && Anchored(SplitAt(s, words, k).value)
    decreases |s|, 0, 0
  {
    var left, right := s[..k], s[k..];
    assert s == left + right;
    if left in words && Split(right, words).Some? {
      SplitSound(right, words);
      PrependPiece(left, Split(right, words).value, right, words);
    } else {
      SplitSound(left, words);
      AppendPiece(Split(left, words).value, left, right, words);
    }
  }

  lemma PrependPiece(first: string, pieces: seq<string>, s: string, words: set<string>)
    requires first != [] && first in words && Segments(pieces, s, words) && Anchored(pieces) &&
             |first + s| >= MIN_WORD_LEN
    ensures Segments([first] + pieces, first + s, words) && Anchored([first] + pieces)
  {
    var all := [first] + pieces;
    assert all[1..] == pieces;
    if |pieces| == 1 {
      assert pieces[0] + Concat(pieces[1..]) == s;
      assert |all[0]| >= 2 || |all[1]| >= 2;
    } else {
      var i :| 0 <= i < |pieces| && |pieces[i]| >= 2;
      assert all[i + 1] == pieces[i];
    }
  }

  lemma AppendPiece(pieces: seq<string>, s: string, last: string, words: set<string>)
    requires last != [] && last in words && Segments(pieces, s, words) && Anchored(pieces) && |s + last| >= MIN_WORD_LEN
    ensures Segments(pieces + [last], s + last, words) && Anchored(pieces + [last])
  {
    var all := pieces + [last];
    ConcatAppend(pieces, last);
    if |pieces| == 1 {
      assert pieces[0] + Concat(pieces[1..]) == s;
      assert |all[0]| >= 2 || |all[1]| >= 2;
    } else {
      var i :| 0 <= i < |pieces| && |pieces[i]| >= 2;
      assert all[i] == pieces[i];
    }
  }

  // ---------------------------------------------------------------- completeness

  /** The loop succeeds when some split point it has still to try succeeds. */
  lemma {:induction false} TryReaches(s: string, words: set<string>, points: seq<int>, i: nat, j: nat)
    requires i <= j < |points| && (forall k :: k in points ==> 1 <= k < |s|)
    requires points[j] in points && SplitAt(s, words, points[j]).Some?
    ensures TrySplits(s, words, points, i).Some?
    decreases j - i
  {
    if i < j {
      TryReaches(s, words, points, i + 1, j);
    }
  }

  lemma PointReached(s: string, words: set<string>, k: int)
    requires |s| >= MIN_WORD_LEN && s !in words && 1 <= k < |s| && SplitAt(s, words, k).Some?
    ensures Split(s, words).Some?
  {
    var points := Points(|s|);
    PointsAreSorted(|s|, Points(|s|));
    assert k in points;
    var j :| 0 <= j < |points| && points[j] == k;
    TryReaches(s, words, points, 0, j);
  }

  lemma {:induction false} SplitComplete(s: string, words: set<string>, pieces: seq<string>)
    requires Segments(pieces, s, words) && Anchored(pieces)
    ensures Split(s, words).Some?
    decreases |pieces|
  {
    if |pieces| == 1 {
      assert Concat(pieces) == pieces[0] + Concat(pieces[1..]) && Concat(pieces[1..]) == [];
      assert s == pieces[0];
    } else if s !in words {
      var big :| 0 <= big < |pieces| && |pieces[big]| >= 2;
      if big > 0 {
        PeelFirst(s, words, pieces, big);
      } else {
        PeelLast(s, words, pieces);
      }
    }
  }

  lemma PeelFirst(s: string, words: set<string>, pieces: seq<string>, big: int)
    requires Segments(pieces, s, words) && s !in words && 0 < big < |pieces| && |pieces[big]| >= 2
    ensures Split(s, words).Some?
    decreases |pieces|, 0
  {
    var first, rest := pieces[0], pieces[1..];
    var right := Concat(rest);
    assert s == first + right;
    assert |rest[big - 1]| >= 2;
    SplitComplete(right, words, rest);
    LongPiece(rest, big - 1);
    assert s[..|first|] == first && s[|first|..] == right;
    PointReached(s, words, |first|);
  }

  lemma PeelLast(s: string, words: set<string>, pieces: seq<string>)
    requires Segments(pieces, s, words) && s !in words && |pieces| >= 2 && |pieces[0]| >= 2
    ensures Split(s, words).Some?
    decreases |pieces|, 0
  {
    var n := |pieces| - 1;
    var last, rest := pieces[n], pieces[..n];
    var left := Concat(rest);
    assert pieces == rest + [last];
    ConcatAppend(rest, last);
    assert |rest[0]| >= 2;
    SplitComplete(left, words, rest);
    LongPiece(rest, 0);
    assert s[..|left|] == left && s[|left|..] == last;
    PointReached(s, words, |left|);
  }

  lemma {:induction false} LongPiece(pieces: seq<string>, i: nat)
    requires i < |pieces|
    ensures |Concat(pieces)| >= |pieces[i]|
    decreases i
  {
    if i > 0 {
      LongPiece(pieces[1..], i - 1);
    }
  }

  lemma SplitIffSplittable(s: string, words: set<string>)
    requires s != []
    ensures Split(s, words).Some? <==> Splittable(s, words)
  {
    if Split(s, words).Some? {
      SplitSound(s, words);
    }
    if pieces :| Segments(pieces, s, words) && Anchored(pieces) {
      SplitComplete(s, words, pieces);
    }
  }

  /** For every dictionary: a split is found exactly when an anchored segmentation exists, and it is one. */
  lemma SplitIffAnchored(s: string, words: set<string>, alpha: char -> bool)
    ensures SplitWords(s, words, alpha).Some? <==> IsAlpha(s, alpha) && Splittable(s, words)
    ensures SplitWords(s, words, alpha).Some? ==>
              var pieces := SplitWords(s, words, alpha).value; Segments(pieces, s, words) && Anchored(pieces)
  {
    if IsAlpha(s, alpha) {
      SplitIffSplittable(s, words);
      if Split(s, words).Some? {
        SplitSound(s, words);
      }
    }
  }

  // ---------------------------------------------------------------- which split is returned

  /** At split point k the left part is a word and the right part can be split further. */
  ghost predicate LeftWorks(s: string, words: set<string>, k: int)
    requires 1 <= k < |s|
  {
    s[..k] in words && Splittable(s[k..], words)
  }

  ghost predicate RightWorks(s: string, words: set<string>, k: int)
    requires 1 <= k < |s|
  {
    s[k..] in words && Splittable(s[..k], words)
  }

  ghost predicate Works(s: string, words: set<string>, k: int) {
    1 <= k < |s| && (LeftWorks(s, words, k) || RightWorks(s, words, k))
  }

  /** No split point that works comes before k: none is nearer to the middle, nor as near and further left. */
  ghost predicate WorksFirst(s: string, words: set<string>, k: int) {
    Works(s, words, k) && forall k' :: Works(s, words, k') ==> !Ordered(k', k, |s| / 2)
  }

  /**
    The split to return: a word itself; otherwise, from three letters on, at the first split point that works, the
    left part and the split of the right one, or, only if that does not work there, the split of the left part and the
    right one.
  */
  ghost predicate Preferred(s: string, words: set<string>, pieces: seq<string>)
    decreases |s|
  {
    if s in words then pieces == [s]
    else |s| >= 3 && |pieces| >= 2 && exists k :: WorksFirst(s, words, k) && PreferredAt(s, words, pieces, k)
  }

  ghost predicate PreferredAt(s: string, words: set<string>, pieces: seq<string>, k: int)
    requires |pieces| >= 2 && 1 <= k < |s|
    decreases |s|, 0
  {
    var last := |pieces| - 1;
    if LeftWorks(s, words, k) then pieces[0] == s[..k] && Preferred(s[k..], words, pieces[1..])
    else pieces[last] == s[k..] && Preferred(s[..k], words, pieces[..last])
  }

  lemma SplitAtIffWorks(s: string, words: set<string>, k: int)
    requires 1 <= k < |s|
    ensures SplitAt(s, words, k).Some? <==> Works(s, words, k)
    ensures LeftWorks(s, words, k) <==> s[..k] in words && Split(s[k..], words).Some?
  {
    SplitIffSplittable(s[..k], words);
    SplitIffSplittable(s[k..], words);
  }

  /** The loop returns what the first successful split point gives. */
  lemma {:induction false} TryFirst(s: string, words: set<string>, points: seq<int>, i: nat) returns (j: nat)
    requires i <= |points| && (forall k :: k in points ==> 1 <= k < |s|) && TrySplits(s, words, points, i).Some?
    ensures i <= j < |points| && points[j] in points
    ensures SplitAt(s, words, points[j]) == TrySplits(s, words, points, i)
    ensures forall l :: i <= l < j ==> points[l] in points && SplitAt(s, words, points[l]).None?
    decreases |points| - i
  {
    assert points[i] in points;
    if SplitAt(s, words, points[i]).Some? {
      j := i;
    } else {
      j := TryFirst(s, words, points, i + 1);
    }
  }

  lemma FirstInOrder(s: string, words: set<string>, points: seq<int>, j: nat, k: int)
    requires |s| >= 1 && points == Points(|s|) && (forall l :: l in points ==> 1 <= l < |s|)
    requires j < |points| && forall l :: 0 <= l < j ==> points[l] in points && SplitAt(s, words, points[l]).None?
    requires Works(s, words, k)
    ensures !Ordered(k, points[j], |s| / 2)
  {
    PointsAreSorted(|s|, points);
    assert k in points;
    var l :| 0 <= l < |points| && points[l] == k;
    SplitAtIffWorks(s, words, k);
    assert l >= j;
    assert l > j ==> OrderedAt(points, j, l, |s| / 2);
  }

  lemma SearchFindsFirst(s: string, words: set<string>) returns (k: int)
    requires |s| >= MIN_WORD_LEN && s !in words && Split(s, words).Some?
    ensures WorksFirst(s, words, k) && SplitAt(s, words, k) == Split(s, words)
  {
    var points := Points(|s|);
    PointsAreSorted(|s|, points);
    var j := TryFirst(s, words, points, 0);
    k := points[j];
    SplitAtIffWorks(s, words, k);
    forall k' | Works(s, words, k')
      ensures !Ordered(k', k, |s| / 2)
    {
      FirstInOrder(s, words, points, j, k');
    }
  }

  lemma {:induction false} SplitIsPreferred(s: string, words: set<string>)
    requires s != [] && Split(s, words).Some?
    ensures Preferred(s, words, Split(s, words).value)
    decreases |s|
  {
    if s !in words {
      var k := SearchFindsFirst(s, words);
      var left, right, pieces := s[..k], s[k..], Split(s, words).value;
      SplitAtIffWorks(s, words, k);
      SplitSound(s, words);
      if LeftWorks(s, words, k) {
        SplitIsPreferred(right, words);
        SplitSound(right, words);
        assert pieces == [left] + Split(right, words).value && pieces[1..] == Split(right, words).value;
      } else {
        SplitIsPreferred(left, words);
        SplitSound(left, words);
        var rest := Split(left, words).value;
        assert pieces == rest + [right] && pieces[..|rest|] == rest;
      }
      assert PreferredAt(s, words, pieces, k);
    }
  }

  lemma FirstIsUnique(s: string, words: set<string>, k: int, l: int)
    requires WorksFirst(s, words, k) && WorksFirst(s, words, l)
    ensures k == l
  {
    assert Ordered(k, l, |s| / 2) || Ordered(l, k, |s| / 2) || k == l;
  }

  lemma {:induction false} PreferredIsUnique(s: string, words: set<string>, p: seq<string>, q: seq<string>)
    requires Preferred(s, words, p) && Preferred(s, words, q)
    ensures p == q
    decreases |s|, 1
  {
    if s !in words {
      var k :| WorksFirst(s, words, k) && PreferredAt(s, words, p, k);
      var l :| WorksFirst(s, words, l) && PreferredAt(s, words, q, l);
      FirstIsUnique(s, words, k, l);
      UniqueAt(s, words, p, q, k);
    }
  }

  lemma UniqueAt(s: string, words: set<string>, p: seq<string>, q: seq<string>, k: int)
    requires |p| >= 2 && |q| >= 2 && 1 <= k < |s| && PreferredAt(s, words, p, k) && PreferredAt(s, words, q, k)
    ensures p == q
    decreases |s|, 0
  {
    var m, n := |p| - 1, |q| - 1;
    if LeftWorks(s, words, k) {
      PreferredIsUnique(s[k..], words, p[1..], q[1..]);
      assert p == [p[0]] + p[1..] && q == [q[0]] + q[1..];
    } else {
      PreferredIsUnique(s[..k], words, p[..m], q[..n]);
      assert p == p[..m] + [p[m]] && q == q[..n] + [q[n]];
    }
  }

  lemma PreferredIsFound(s: string, words: set<string>, pieces: seq<string>)
    requires s != [] && Preferred(s, words, pieces)
    ensures Split(s, words).Some?
  {
    if s !in words {
      var k :| WorksFirst(s, words, k) && PreferredAt(s, words, pieces, k);
      SplitAtIffWorks(s, words, k);
      PointReached(s, words, k);
    }
  }

  /** The result is the preferred split, and there is one exactly when there is a preferred split. */
  lemma SplitIffPreferred(s: string, words: set<string>, alpha: char -> bool, pieces: seq<string>)
    ensures SplitWords(s, words, alpha) == Some(pieces) <==> IsAlpha(s, alpha) && Preferred(s, words, pieces)
  {
    if IsAlpha(s, alpha) {
      if Split(s, words).Some? {
        SplitIsPreferred(s, words);
      }
      if Preferred(s, words, pieces) {
        PreferredIsFound(s, words, pieces);
        PreferredIsUnique(s, words, pieces, Split(s, words).value);
      }
    }
  }

  /** With no word shorter than three, a split is found exactly when the string is a concatenation of words. */
  lemma SplitIffSegmentable(s: string, words: set<string>, alpha: char -> bool)
    requires forall word :: word in words ==> |word| >= 3
    ensures SplitWords(s, words, alpha).Some? <==> IsAlpha(s, alpha) && exists pieces :: Segments(pieces, s, words)
  {
    SplitIffAnchored(s, words, alpha);
    if pieces :| Segments(pieces, s, words) {
      assert |pieces[0]| >= 2;
      assert Anchored(pieces);
    }
  }

  /** Why the anchor: single letters that spell the string are not enough. */
  lemma LettersAreNotFound(alpha: char -> bool)
    requires alpha('a') && alpha('b')
    ensures Segments(["a", "b"], "ab", {"a", "b"}) && SplitWords("ab", {"a", "b"}, alpha) == None
  {
    assert Concat(["b"]) == "b" + Concat([]);
    assert ["a", "b"][1..] == ["b"];
    assert |"ab"| == 2 && |"a"| == 1 && |"b"| == 1;
  }
}
