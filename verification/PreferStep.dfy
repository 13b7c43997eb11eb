/**
  Which cards change their representative printing when one weight moves, and the expand-and-bisect search
  for a move that changes a handful of them.
*/
module PreferStep {
  import opened Numbers
  import opened PreferScore

  /** Base score, level of the moved component, and the printing id in its own order. */
  datatype Printing = Printing(base: real, level: real, sid: nat)

  const SCORE_EPSILON: real := 0.000000001
  const STEP_SEARCH_CEILING: real := 512.0
  const TARGET_LO: nat := 6
  const TARGET_HI: nat := 9
  const BISECTIONS: nat := 40

  function Shifted(p: Printing, delta: real): real {
    p.base + delta * p.level
  }

  /** Order of the keys (shifted score, id). */
  predicate Above(p: Printing, q: Printing, delta: real) {
    Shifted(p, delta) > Shifted(q, delta) || (Shifted(p, delta) == Shifted(q, delta) && p.sid > q.sid)
  }

  // ---------------------------------------------------------------- the representative

  /** A card has at least one printing, and its printings have distinct ids. */
  ghost predicate IsCard(card: seq<Printing>) {
    |card| > 0 && forall i, j :: 0 <= i < j < |card| ==> card[i].sid != card[j].sid
  }

  ghost predicate AreCards(cards: seq<seq<Printing>>) {
    forall c :: 0 <= c < |cards| ==> IsCard(cards[c])
  }

  /** The first printing with the largest key. */
  function Best(card: seq<Printing>, delta: real): (p: Printing)
    requires |card| > 0
    ensures p in card
    decreases |card|
  {
    if |card| == 1 then card[0]
    else
      var before := Best(card[..|card| - 1], delta);
      if Above(card[|card| - 1], before, delta) then card[|card| - 1] else before
  }

  lemma {:induction false} BestIsMax(card: seq<Printing>, delta: real, q: Printing)
    requires |card| > 0 && q in card
    ensures !Above(q, Best(card, delta), delta)
    decreases |card|
  {
    if |card| > 1 {
      var n := |card| - 1;
      assert card == card[..n] + [card[n]];
      if q in card[..n] {
        BestIsMax(card[..n], delta, q);
      }
    }
  }

  lemma Strict(card: seq<Printing>, delta: real, q: Printing)
    requires IsCard(card) && q in card && q != Best(card, delta)
    ensures Above(Best(card, delta), q, delta)
  {
    BestIsMax(card, delta, q);
    var i :| 0 <= i < |card| && card[i] == q;
    var j :| 0 <= j < |card| && card[j] == Best(card, delta);
  }

  method MaxPrinting(card: seq<Printing>, delta: real) returns (p: Printing)
    requires |card| > 0
    ensures p == Best(card, delta)
  {
    p := card[0];
    for i := 1 to |card|
      invariant p == Best(card[..i], delta)
    {
      assert card[..i + 1][..i] == card[..i];
      if Above(card[i], p, delta) {
        p := card[i];
      }
    }
    assert card[..|card|] == card;
  }

  // ---------------------------------------------------------------- swaps

  predicate Swaps(card: seq<Printing>, delta: real)
    requires |card| > 0
  {
    Best(card, 0.0).sid != Best(card, delta).sid
  }

  /** The swap reverses a strict ranking: the two base scores are apart by a billionth or more. */
  predicate Overrides(card: seq<Printing>, delta: real)
    requires |card| > 0
  {
    Swaps(card, delta) && Abs(Best(card, 0.0).base - Best(card, delta).base) >= 0.000000001
  }

  ghost function Swapped(cards: seq<seq<Printing>>, delta: real): set<int>
    requires AreCards(cards)
  {
    set c | 0 <= c < |cards| && Swaps(cards[c], delta)
  }

  ghost function Overridden(cards: seq<seq<Printing>>, delta: real): set<int>
    requires AreCards(cards)
  {
    set c | 0 <= c < |cards| && Overrides(cards[c], delta)
  }

  /** `far` is at least as far from zero as `near`, on the same side. */
  predicate Beyond(near: real, far: real) {
    0.0 <= near <= far || far <= near <= 0.0
  }

  lemma AtZero(p: Printing)
    ensures Shifted(p, 0.0) == p.base
  {
  }

  /** A printing ahead at zero and at `far` is ahead in between, and is level there only if level everywhere. */
  lemma AheadBetween(p: Printing, q: Printing, near: real, far: real)
    requires Beyond(near, far) && near != 0.0
    requires p.base >= q.base && Shifted(p, far) >= Shifted(q, far)
    ensures Shifted(p, near) >= Shifted(q, near)
    ensures Shifted(p, near) == Shifted(q, near) && near != far ==>
            Shifted(p, far) == Shifted(q, far) && p.base == q.base
  {
    var f0, f1 := p.base - q.base, Shifted(p, far) - Shifted(q, far);
    var g := p.level - q.level;
    assert f1 == f0 + Times(far, g);
    assert Shifted(p, near) - Shifted(q, near) == f0 + Times(near, g);
    Interpolate(f0, g, near, far);
  }

  lemma Interpolate(f0: real, g: real, near: real, far: real)
    requires Beyond(near, far) && near != 0.0 && f0 >= 0.0 && f0 + Times(far, g) >= 0.0
    ensures f0 + Times(near, g) >= 0.0
    ensures f0 + Times(near, g) == 0.0 && near != far ==> f0 == 0.0 && f0 + Times(far, g) == 0.0
  {
    ProductSign(near, g);
    ProductSign(far, g);
    TimesDifference(far, near, g);
    if near != far {
      ProductSign(far - near, g);
    }
  }

  /** A card that swaps keeps swapping as the weight moves further. */
  lemma SwapStays(card: seq<Printing>, near: real, far: real)
    requires IsCard(card) && Beyond(near, far) && Swaps(card, near)
    ensures Swaps(card, far)
  {
    var p, q := Best(card, 0.0), Best(card, near);
    if Best(card, far).sid == p.sid {
      SameSid(card, p, Best(card, far));
      Strict(card, 0.0, q);
      Strict(card, near, p);
      Strict(card, far, q);
      AtZero(p);
      AtZero(q);
      AheadBetween(p, q, near, far);
    }
  }

  lemma SameSid(card: seq<Printing>, p: Printing, q: Printing)
    requires IsCard(card) && p in card && q in card && p.sid == q.sid
    ensures p == q
  {
    var i :| 0 <= i < |card| && card[i] == p;
    var j :| 0 <= j < |card| && card[j] == q;
  }

  /** The representative's base score only falls as the weight moves further. */
  lemma BaseFalls(card: seq<Printing>, near: real, far: real)
    requires |card| > 0 && Beyond(near, far)
    ensures Best(card, far).base <= Best(card, near).base
  {
    if near != far {
      BestScore(card, near, Best(card, far));
      BestScore(card, far, Best(card, near));
      Slides(Best(card, near), Best(card, far), near, far);
    }
  }

  lemma BestScore(card: seq<Printing>, delta: real, q: Printing)
    requires |card| > 0 && q in card
    ensures Shifted(Best(card, delta), delta) >= Shifted(q, delta)
  {
    BestIsMax(card, delta, q);
  }

  lemma Slides(p: Printing, q: Printing, near: real, far: real)
    requires Beyond(near, far) && near != far && Shifted(p, near) >= Shifted(q, near) &&
             Shifted(q, far) >= Shifted(p, far)
    ensures q.base <= p.base
  {
    var g := q.level - p.level;
    assert (far - near) * g >= 0.0;
    SameSign(near, far, g);
    assert p.base - q.base >= near * g;
  }

  lemma SameSign(near: real, far: real, g: real)
    requires Beyond(near, far) && near != far && (far - near) * g >= 0.0
    ensures near * g >= 0.0
  {
  }

  /** An override stays an override as the weight moves further, on either side and for any levels. */
  lemma OverrideStays(card: seq<Printing>, near: real, far: real)
    requires IsCard(card) && Beyond(near, far) && Overrides(card, near)
    ensures Overrides(card, far)
  {
    SwapStays(card, near, far);
    BaseFalls(card, 0.0, near);
    BaseFalls(card, near, far);
  }

  /** Overrides and swaps only grow with the size of the move. */
  lemma CountsGrow(cards: seq<seq<Printing>>, near: real, far: real)
    requires AreCards(cards) && Beyond(near, far)
    ensures Overridden(cards, near) <= Overridden(cards, far) && Swapped(cards, near) <= Swapped(cards, far)
    ensures |Overridden(cards, near)| <= |Overridden(cards, far)| && |Swapped(cards, near)| <= |Swapped(cards, far)|
  {
    forall c | c in Swapped(cards, near)
      ensures c in Swapped(cards, far)
    {
      SwapStays(cards[c], near, far);
    }
    forall c | c in Overridden(cards, near)
      ensures c in Overridden(cards, far)
    {
      OverrideStays(cards[c], near, far);
    }
    SubsetSize(Overridden(cards, near), Overridden(cards, far));
    SubsetSize(Swapped(cards, near), Swapped(cards, far));
  }

  lemma BestIs(card: seq<Printing>, delta: real, p: Printing)
    requires IsCard(card) && p in card && forall q :: q in card && q != p ==> Above(p, q, delta)
    ensures Best(card, delta) == p
  {
    BestIsMax(card, delta, p);
  }

  lemma TopOfThree(card: seq<Printing>, delta: real, p: Printing, q: Printing, r: Printing)
    requires |card| == 3 && IsCard(card) && p in card && q in card && r in card && p != q && p != r && q != r
    requires Above(p, q, delta) && Above(p, r, delta)
    ensures Best(card, delta) == p
  {
    assert forall x :: x in card ==> x == p || x == q || x == r;
    BestIs(card, delta, p);
  }

  /** Tie-breaks alone do not grow: a further move can turn one into an override. */
  lemma TiesCanShrink(card: seq<Printing>)
    requires card == [Printing(10.0, 0.0, 2), Printing(10.0, 1.0, 1), Printing(8.0, 2.0, 0)]
    ensures IsCard(card) && Swaps(card, 1.0) && !Overrides(card, 1.0) && Overrides(card, 3.0)
  {
    var a, b, c := card[0], card[1], card[2];
    assert Best(card, 0.0) == a by {
      TopOfThree(card, 0.0, a, b, c);
    }
    assert Best(card, 1.0) == b by {
      TopOfThree(card, 1.0, b, a, c);
    }
    assert Best(card, 3.0) == c by {
      TopOfThree(card, 3.0, c, a, b);
    }
  }

  lemma OneMore(cards: seq<seq<Printing>>, c: nat, delta: real)
    requires AreCards(cards) && c < |cards|
    ensures AreCards(cards[..c]) && AreCards(cards[..c + 1])
    ensures Swapped(cards[..c + 1], delta) == Swapped(cards[..c], delta) + if Swaps(cards[c], delta) then {c} else {}
    ensures Overridden(cards[..c + 1], delta)
         == Overridden(cards[..c], delta) + if Overrides(cards[c], delta) then {c} else {}
    ensures c !in Swapped(cards[..c], delta) && c !in Overridden(cards[..c], delta)
  {
  }

  /** The counts over the first cards, as the loop keeps them. */
  ghost predicate Counted(cards: seq<seq<Printing>>, delta: real, ties: int, over: int)
    requires AreCards(cards)
  {
    over == |Overridden(cards, delta)| && ties + over == |Swapped(cards, delta)|
  }

  lemma CountedMore(cards: seq<seq<Printing>>, c: nat, delta: real, ties: int, over: int, ties': int, over': int)
    requires AreCards(cards) && c < |cards| && AreCards(cards[..c]) && Counted(cards[..c], delta, ties, over)
    requires over' == over + if Overrides(cards[c], delta) then 1 else 0
    requires ties' == ties + if Swaps(cards[c], delta) && !Overrides(cards[c], delta) then 1 else 0
    ensures AreCards(cards[..c + 1]) && Counted(cards[..c + 1], delta, ties', over')
  {
    OneMore(cards, c, delta);
  }

  method CountSwaps(cards: seq<seq<Printing>>, delta: real) returns (ties: nat, over: nat)
    requires AreCards(cards)
    ensures over == |Overridden(cards, delta)|
    ensures ties + over == |Swapped(cards, delta)|
  {
    ties, over := 0, 0;
    for c := 0 to |cards|
      invariant AreCards(cards[..c]) && Counted(cards[..c], delta, ties, over)
    {
      ghost var ties0, over0 := ties, over;
      var before := MaxPrinting(cards[c], 0.0);
      var after := MaxPrinting(cards[c], delta);
      if before.sid != after.sid {
        if Abs(before.base - after.base) < SCORE_EPSILON {
          ties := ties + 1;
        } else {
          over := over + 1;
        }
      }
      CountedMore(cards, c, delta, ties0, over0, ties, over);
    }
    assert cards[..|cards|] == cards;
  }

  // ---------------------------------------------------------------- against full rescoring

  datatype Printed = Printed(row: Row, sid: nat)

  function ScoreBy(w: Weights, log: LogLevel): Row -> real {
    row => Score(row, w, log)
  }

  function LevelBy(comp: Comp, log: LogLevel): Row -> real {
    row => Level(row, comp, log)
  }

  function FastOne(p: Printed, score: Row -> real, level: Row -> real): Printing {
    Printing(score(p.row), level(p.row), p.sid)
  }

  /** The card as the shortcut sees it: base score and level of the component. */
  function Fast(card: seq<Printed>, score: Row -> real, level: Row -> real): (r: seq<Printing>)
    ensures |r| == |card|
    ensures forall i :: 0 <= i < |r| ==> r[i] == FastOne(card[i], score, level)
  {
    seq(|card|, i requires 0 <= i < |card| => FastOne(card[i], score, level))
  }

  /** The first index with the largest (score, id). */
  function Chosen(card: seq<Printed>, score: Row -> real): (k: nat)
    requires |card| > 0
    ensures k < |card|
    decreases |card|
  {
    if |card| == 1 then 0
    else
      var n := |card| - 1;
      var k := Chosen(card[..n], score);
      if Outranks(card[n], card[k], score) then n else k
  }

  predicate Outranks(p: Printed, q: Printed, score: Row -> real) {
    score(p.row) > score(q.row) || (score(p.row) == score(q.row) && p.sid > q.sid)
  }

  function MovedScore(base: real, level: real, delta: real): real {
    base + delta * level
  }

  /** One scoring is the other moved along the levels. */
  ghost predicate MovedAlong(score: Row -> real, level: Row -> real, delta: real, score': Row -> real) {
    forall row :: score'(row) == MovedScore(score(row), level(row), delta)
  }

  lemma OutranksIsAbove(p: Printed, q: Printed, score: Row -> real, level: Row -> real, delta: real,
                        score': Row -> real)
    requires MovedAlong(score, level, delta, score')
    ensures Outranks(p, q, score') <==> Above(FastOne(p, score, level), FastOne(q, score, level), delta)
  {
    assert score'(p.row) == MovedScore(score(p.row), level(p.row), delta);
    assert score'(q.row) == MovedScore(score(q.row), level(q.row), delta);
    assert Shifted(FastOne(p, score, level), delta) == score'(p.row);
    assert Shifted(FastOne(q, score, level), delta) == score'(q.row);
  }

  lemma BestAppend(card: seq<Printing>, p: Printing, delta: real)
    requires |card| > 0
    ensures Best(card + [p], delta) == if Above(p, Best(card, delta), delta) then p else Best(card, delta)
  {
    assert (card + [p])[..|card|] == card;
  }

  lemma FastAppend(card: seq<Printed>, front: seq<Printed>, last: Printed, score: Row -> real, level: Row -> real)
    requires card == front + [last]
    ensures Fast(card, score, level) == Fast(front, score, level) + [FastOne(last, score, level)]
  {
  }

  lemma {:induction false} ChosenIsBest(card: seq<Printed>, score: Row -> real, level: Row -> real, delta: real,
                                        score': Row -> real)
    requires |card| > 0 && MovedAlong(score, level, delta, score')
    ensures Best(Fast(card, score, level), delta) == FastOne(card[Chosen(card, score')], score, level)
    decreases |card|
  {
    if |card| > 1 {
      var n := |card| - 1;
      var front, last := card[..n], card[n];
      ChosenIsBest(front, score, level, delta, score');
      FastAppend(card, front, last, score, level);
      BestAppend(Fast(front, score, level), FastOne(last, score, level), delta);
      OutranksIsAbove(last, front[Chosen(front, score')], score, level, delta, score');
    }
  }

  lemma RowMoves(row: Row, w: Weights, log: LogLevel, comp: Comp, delta: real, w': Weights)
    requires comp != IllustrationCount && w' == Moved(w, comp, delta)
    ensures Score(row, w', log) == MovedScore(Score(row, w, log), Level(row, comp, log), delta)
  {
    FastRescore(row, w, log, comp, delta);
  }

  lemma ScoresMove(w: Weights, log: LogLevel, comp: Comp, delta: real, w': Weights)
    requires comp != IllustrationCount && w' == Moved(w, comp, delta)
    ensures MovedAlong(ScoreBy(w, log), LevelBy(comp, log), delta, ScoreBy(w', log))
  {
    forall row
      ensures ScoreBy(w', log)(row) == MovedScore(ScoreBy(w, log)(row), LevelBy(comp, log)(row), delta)
    {
      RowMoves(row, w, log, comp, delta, w');
    }
  }

  /** Rescoring every component picks the printing that the shortcut picks. */
  lemma FullPick(card: seq<Printed>, w: Weights, log: LogLevel, comp: Comp, delta: real)
    requires |card| > 0 && comp != IllustrationCount
    ensures Best(Fast(card, ScoreBy(w, log), LevelBy(comp, log)), delta).sid ==
            card[Chosen(card, ScoreBy(Moved(w, comp, delta), log))].sid
  {
    ScoresMove(w, log, comp, delta, Moved(w, comp, delta));
    ChosenIsBest(card, ScoreBy(w, log), LevelBy(comp, log), delta, ScoreBy(Moved(w, comp, delta), log));
  }

  /** The shortcut reports a swap exactly when full rescoring changes the representative. */
  lemma FastSwapIsFullSwap(card: seq<Printed>, w: Weights, log: LogLevel, comp: Comp, delta: real)
    requires |card| > 0 && comp != IllustrationCount
    ensures Swaps(Fast(card, ScoreBy(w, log), LevelBy(comp, log)), delta)
       <==> card[Chosen(card, ScoreBy(w, log))].sid != card[Chosen(card, ScoreBy(Moved(w, comp, delta), log))].sid
  {
    FullPick(card, w, log, comp, delta);
    ChosenIsBest(card, ScoreBy(w, log), LevelBy(comp, log), 0.0, ScoreBy(w, log));
  }

  function FastCards(cards: seq<seq<Printed>>, w: Weights, log: LogLevel, comp: Comp): (r: seq<seq<Printing>>)
    ensures |r| == |cards| && forall c :: 0 <= c < |r| ==> r[c] == Fast(cards[c], ScoreBy(w, log), LevelBy(comp, log))
  {
    seq(|cards|, c requires 0 <= c < |cards| => Fast(cards[c], ScoreBy(w, log), LevelBy(comp, log)))
  }

  method MaxPrinted(card: seq<Printed>, score: Row -> real) returns (p: Printed)
    requires |card| > 0
    ensures p == card[Chosen(card, score)]
  {
    p := card[0];
    for i := 1 to |card|
      invariant p == card[..i][Chosen(card[..i], score)]
    {
      assert card[..i + 1][..i] == card[..i];
      if Outranks(card[i], p, score) {
        p := card[i];
      }
    }
    assert card[..|card|] == card;
  }

  /** Ascending, and exactly the members below `c`. */
  ghost predicate ListsBelow(list: seq<int>, members: set<int>, c: int) {
    && (forall k :: k in list <==> k in members && k < c)
    && (forall i, j :: 0 <= i < j < |list| ==> list[i] < list[j])
  }

  lemma ListsOneMore(list: seq<int>, members: set<int>, c: int, list': seq<int>)
    requires ListsBelow(list, members, c) && list' == if c in members then list + [c] else list
    ensures ListsBelow(list', members, c + 1)
  {
    forall i, j | 0 <= i < j < |list'|
      ensures list'[i] < list'[j]
    {
      assert list[i] in list;
    }
  }

  lemma InSwapped(cards: seq<seq<Printed>>, w: Weights, log: LogLevel, comp: Comp, delta: real,
                  fast: seq<seq<Printing>>, c: nat)
    requires comp != IllustrationCount && fast == FastCards(cards, w, log, comp) && AreCards(fast) && c < |cards|
    ensures |cards[c]| > 0
    ensures c in Swapped(fast, delta)
       <==> cards[c][Chosen(cards[c], ScoreBy(w, log))].sid !=
            cards[c][Chosen(cards[c], ScoreBy(Moved(w, comp, delta), log))].sid
  {
    assert IsCard(fast[c]);
    FastSwapIsFullSwap(cards[c], w, log, comp, delta);
  }

  /** The review list, by full rescoring under both tables: exactly the cards the shortcut counted, in order. */
  method ReviewList(cards: seq<seq<Printed>>, w: Weights, log: LogLevel, comp: Comp, delta: real,
                    ghost fast: seq<seq<Printing>>)
    returns (changed: seq<int>)
    requires comp != IllustrationCount && fast == FastCards(cards, w, log, comp) && AreCards(fast)
    ensures ListsBelow(changed, Swapped(fast, delta), |cards|)
  {
    changed := [];
    var score, score' := ScoreBy(w, log), ScoreBy(Moved(w, comp, delta), log);
    ghost var swapped := Swapped(fast, delta);
    for c := 0 to |cards|
      invariant ListsBelow(changed, swapped, c)
    {
      InSwapped(cards, w, log, comp, delta, fast, c);
      var before := MaxPrinted(cards[c], score);
      var after := MaxPrinted(cards[c], score');
      ghost var list := changed;
      if before.sid != after.sid {
        changed := changed + [c];
      }
      ListsOneMore(list, swapped, c, changed);
    }
  }
}
