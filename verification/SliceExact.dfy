/**
  The exact table with one entry per distinct value, which answers every one-sided range by lookup.
*/
module SliceExact {
  import opened SliceDistinct
  import opened CutLayout
  import opened SliceCounts

  ghost predicate SortedValues(vals: seq<real>) {
    forall i, j :: 0 <= i <= j < |vals| ==> vals[i] <= vals[j]
  }

  predicate ChangeAt(vals: seq<real>, c: int) {
    1 <= c < |vals| && vals[c] != vals[c - 1]
  }

  /** Positions where the value changes. */
  function Changes(vals: seq<real>, upto: nat): seq<int>
    requires upto <= |vals|
  {
    if upto <= 1 then []
    else Changes(vals, upto - 1) + (if ChangeAt(vals, upto - 1) then [upto - 1] else [])
  }

  function Boundaries(vals: seq<real>): seq<int> {
    [0] + Changes(vals, |vals|) + [|vals|]
  }

  lemma {:induction false} ChangesHas(vals: seq<real>, upto: nat, c: int)
    requires upto <= |vals|
    ensures c in Changes(vals, upto) <==> c < upto && ChangeAt(vals, c)
    decreases upto
  {
    if upto > 1 {
      ChangesHas(vals, upto - 1, c);
      var prev := Changes(vals, upto - 1);
      assert c in prev + [upto - 1] <==> c in prev || c == upto - 1;
    }
  }

  lemma IncreasingAppend(s: seq<int>, x: int)
    requires Increasing(s) && forall c :: c in s ==> c < x
    ensures Increasing(s + [x])
  {
    assert forall k :: 0 <= k < |s| ==> s[k] in s;
  }

  lemma {:induction false} ChangesIncrease(vals: seq<real>, upto: nat)
    requires upto <= |vals|
    ensures Increasing(Changes(vals, upto))
    decreases upto
  {
    if upto > 1 {
      var prev := Changes(vals, upto - 1);
      ChangesIncrease(vals, upto - 1);
      forall c | c in prev
        ensures c < upto - 1
      {
        ChangesHas(vals, upto - 1, c);
      }
      IncreasingAppend(prev, upto - 1);
    }
  }

  lemma ChangesAre(vals: seq<real>, changes: seq<int>)
    requires changes == Changes(vals, |vals|)
    ensures Increasing(changes) && forall c :: c in changes <==> ChangeAt(vals, c)
  {
    ChangesIncrease(vals, |vals|);
    forall c
      ensures c in changes <==> ChangeAt(vals, c)
    {
      ChangesHas(vals, |vals|, c);
    }
  }

  /** A first and a last element put around an increasing list that lies between them. */
  lemma Enclosed(inner: seq<int>, n: int, bounds: seq<int>)
    requires 0 <= n && Increasing(inner) && (forall c :: c in inner ==> 0 < c < n) && bounds == [0] + inner + [n]
    ensures Cuts(bounds, n)
  {
    forall k | 0 <= k < |inner|
      ensures 0 < inner[k] < n
    {
      assert inner[k] in inner;
    }
    forall k | 0 <= k < |bounds|
      ensures 0 <= bounds[k] <= n
    {
      assert bounds[k] == if k == 0 then 0 else if k <= |inner| then inner[k - 1] else n;
    }
    forall i, j | 0 <= i <= j < |bounds|
      ensures bounds[i] <= bounds[j]
    {
      if 0 < i && j <= |inner| {
        assert bounds[i] == inner[i - 1] && bounds[j] == inner[j - 1];
      }
    }
  }

  lemma EnclosedHas(inner: seq<int>, n: int, bounds: seq<int>, c: int)
    requires bounds == [0] + inner + [n]
    ensures c in bounds <==> c == 0 || c in inner || c == n
  {
    assert bounds[0] == 0 && bounds[|inner| + 1] == n;
    if c in inner {
      var k :| 0 <= k < |inner| && inner[k] == c;
      assert bounds[k + 1] == c;
    }
  }

  lemma BoundariesAre(vals: seq<real>, bounds: seq<int>)
    requires bounds == Boundaries(vals)
    ensures Cuts(bounds, |vals|)
    ensures forall c :: c in bounds <==> c == 0 || c == |vals| || ChangeAt(vals, c)
  {
    var inner := Changes(vals, |vals|);
    ChangesAre(vals, inner);
    Enclosed(inner, |vals|, bounds);
    forall c
      ensures c in bounds <==> c == 0 || c == |vals| || ChangeAt(vals, c)
    {
      EnclosedHas(inner, |vals|, bounds, c);
    }
  }

  ghost function Values(vals: seq<real>): set<real> {
    set v | v in vals
  }

  lemma Grows(before: set<real>, x: real)
    ensures |before + {x}| == |before| + if x in before then 0 else 1
  {
    if x in before {
      assert before + {x} == before;
    }
  }

  /** One more value: new exactly where the value changes. */
  lemma OneMoreValue(vals: seq<real>, n: nat)
    requires SortedValues(vals) && n < |vals|
    ensures |Values(vals[..n + 1])| == |Values(vals[..n])| + if n == 0 || ChangeAt(vals, n) then 1 else 0
  {
    var front := vals[..n];
    assert vals[..n + 1] == front + [vals[n]];
    assert Values(vals[..n + 1]) == Values(front) + {vals[n]};
    Grows(Values(front), vals[n]);
    assert n > 0 ==> front[n - 1] == vals[n - 1];
    assert vals[n] in front ==> n > 0 && !ChangeAt(vals, n);
  }

  lemma {:induction false} ChangesPerValue(vals: seq<real>, upto: nat)
    requires SortedValues(vals) && 1 <= upto <= |vals|
    ensures |Changes(vals, upto)| + 1 == |Values(vals[..upto])|
    decreases upto
  {
    OneMoreValue(vals, upto - 1);
    if upto > 1 {
      ChangesPerValue(vals, upto - 1);
    } else {
      assert Values(vals[..0]) == {};
    }
  }

  /** The table has one entry per distinct value, and one more. */
  lemma OneEntryPerValue(vals: seq<real>)
    requires SortedValues(vals) && vals != []
    ensures |Boundaries(vals)| == |Values(vals)| + 1
  {
    ChangesPerValue(vals, |vals|);
    assert vals[..|vals|] == vals;
  }

  /** Any threshold, present in the data or not, bisects to a stored boundary, which a second bisection finds. */
  lemma ThresholdIsBoundary(vals: seq<real>, v: real)
    requires SortedValues(vals)
    ensures Ordered(vals, y => y < v) && NonDecreasing(Boundaries(vals))
    ensures var b := Bisect(vals, y => y < v);
            var k := BisectLeft(Boundaries(vals), b);
            k < |Boundaries(vals)| && Boundaries(vals)[k] == b
  {
    BoundariesAre(vals, Boundaries(vals));
    var bounds := Boundaries(vals);
    var b := Bisect(vals, y => y < v);
    assert b in bounds;
    var j :| 0 <= j < |bounds| && bounds[j] == b;
    var k := BisectLeft(bounds, b);
    assert k <= j;
  }

  ghost function CardsBelow(vals: seq<real>, cards: seq<int>, v: real): set<int>
    requires |vals| == |cards|
  {
    set i | 0 <= i < |vals| && vals[i] < v :: cards[i]
  }

  ghost function CardsFrom(vals: seq<real>, cards: seq<int>, v: real): set<int>
    requires |vals| == |cards|
  {
    set i | 0 <= i < |vals| && vals[i] >= v :: cards[i]
  }

  /** The stored counts answer every one-sided range exactly, by lookup. */
  method ExactOneSided(vals: seq<real>, cards: seq<int>, v: real) returns (below: int, above: int)
    requires |vals| == |cards| && SortedValues(vals)
    ensures below == |CardsBelow(vals, cards, v)|
    ensures above == |CardsFrom(vals, cards, v)|
  {
    BoundariesAre(vals, Boundaries(vals));
    ThresholdIsBoundary(vals, v);
    var bounds := Boundaries(vals);
    var pre, suf := PrefixSuffix(cards, bounds);
    var b := Bisect(vals, y => y < v);
    var k := BisectLeft(bounds, b);
    below, above := pre[k], suf[k];
    assert PrefixAt(cards, bounds[k], pre[k]) && SuffixAt(cards, bounds[k], suf[k]);
    BelowIsPrefix(vals, cards, v, b);
  }

  lemma BelowIsPrefix(vals: seq<real>, cards: seq<int>, v: real, b: nat)
    requires |vals| == |cards| && b <= |vals|
    requires forall i :: 0 <= i < |vals| ==> (vals[i] < v <==> i < b)
    ensures CardsBelow(vals, cards, v) == Elements(cards[0..b])
    ensures CardsFrom(vals, cards, v) == Elements(cards[b..|cards|])
  {
    forall x
      ensures x in CardsBelow(vals, cards, v) <==> x in cards[0..b]
      ensures x in CardsFrom(vals, cards, v) <==> x in cards[b..|cards|]
    {
      assert forall i :: 0 <= i < b ==> cards[0..b][i] == cards[i];
      assert forall i :: b <= i < |cards| ==> cards[b..|cards|][i - b] == cards[i];
    }
  }
}
