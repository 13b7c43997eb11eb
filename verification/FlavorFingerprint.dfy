/**
  The flavor-text fingerprint: the grams of a text, the greedy choice of 128 features with slots reserved for
  every letter, and the substring filter the features give.
*/
module FlavorFingerprint {
  import opened Options

  const BITS: nat := 128
  const LETTERS: nat := 26

  // ---------------------------------------------------------------- grams

  predicate IsAsciiAlpha(c: char) {
    'a' <= c <= 'z' || 'A' <= c <= 'Z'
  }

  predicate AllAlpha(g: string) {
    |g| > 0 && forall i :: 0 <= i < |g| ==> IsAsciiAlpha(g[i])
  }

  ghost predicate OccursAt(g: string, s: string, i: int) {
    0 <= i <= |s| - |g| && s[i..i + |g|] == g
  }

  ghost predicate Occurs(g: string, s: string) {
    exists i :: OccursAt(g, s, i)
  }

  /** An ASCII letter, by its code. */
  predicate LetterCode(c: int) {
    65 <= c <= 90 || 97 <= c <= 122
  }

  /** The grams of a text: its substrings of one to three characters that are all ASCII letters. */
  ghost predicate IsGram(g: string, s: string) {
    1 <= |g| <= 3 && (forall i :: 0 <= i < |g| ==> LetterCode(g[i] as int)) && Occurs(g, s)
  }

  method GramsOf(s: string) returns (out: set<string>)
    ensures forall g :: g in out <==> IsGram(g, s)
  {
    out := {};
    for n := 1 to 4
      invariant forall g :: g in out <==> IsGram(g, s) && |g| < n
    {
      var longer: set<string> := {};
      ghost var before := out;
      var i := 0;
      while i < |s| - n + 1
        invariant 0 <= i && (|s| >= n ==> i <= |s| - n + 1)
        invariant out == before + longer
        invariant forall g :: g in longer <==> |g| == n && AllAlpha(g) && exists k :: 0 <= k < i && OccursAt(g, s, k)
      {
        var g := s[i..i + n];
        ghost var was := longer;
        if AllAlpha(g) {
          longer := longer + {g};
          out := out + {g};
        }
        forall h
          ensures h in longer <==> |h| == n && AllAlpha(h) && exists k :: 0 <= k < i + 1 && OccursAt(h, s, k)
        {
          if |h| == n && AllAlpha(h) && OccursAt(h, s, i) {
            assert h == g;
          }
          if h == g {
            assert OccursAt(h, s, i);
          }
        }
        i := i + 1;
      }
    }
  }

  lemma SliceOfSlice(s: string, a: nat, b: nat, i: nat, j: nat)
    requires a <= b <= |s| && i <= j <= b - a
    ensures s[a..b][i..j] == s[a + i..a + j]
  {
    var x, y := s[a..b][i..j], s[a + i..a + j];
    assert |x| == |y|;
    forall k | 0 <= k < |x|
      ensures x[k] == y[k]
    {
      assert x[k] == s[a..b][i + k];
      assert y[k] == s[a + i + k];
    }
  }

  lemma OccursTrans(g: string, needle: string, text: string)
    requires Occurs(g, needle) && Occurs(needle, text)
    ensures Occurs(g, text)
  {
    var i :| OccursAt(g, needle, i);
    var j :| OccursAt(needle, text, j);
    SliceOfSlice(text, j, j + |needle|, i, i + |g|);
    assert OccursAt(g, text, j + i) by {
      assert j + i + |g| == j + (i + |g|);
    }
  }

  // ---------------------------------------------------------------- the filter

  /** The feature bits a string fires. */
  ghost function Mask(features: seq<string>, s: string): set<int> {
    set i | 0 <= i < |features| && IsGram(features[i], s)
  }

  /** A needle inside a text fires no bit the text does not: the filter never drops a match. */
  lemma MaskIsNecessary(features: seq<string>, needle: string, text: string)
    requires Occurs(needle, text)
    ensures Mask(features, needle) <= Mask(features, text)
  {
    forall i | i in Mask(features, needle)
      ensures i in Mask(features, text)
    {
      OccursTrans(features[i], needle, text);
    }
  }

  function Letter(k: nat): (g: string)
    requires k < LETTERS
  {
    [('a' as int + k) as char]
  }

  predicate IsLetter(g: string) {
    |g| == 1 && 'a' <= g[0] <= 'z'
  }

  ghost predicate HasEveryLetter(features: seq<string>) {
    forall g :: IsLetter(g) ==> g in features
  }

  /** With every letter a feature, a needle with a lower-case letter fires at least one bit. */
  lemma EveryNeedleFires(features: seq<string>, needle: string, i: int)
    requires HasEveryLetter(features) && 0 <= i < |needle| && 'a' <= needle[i] <= 'z'
    ensures Mask(features, needle) != {}
  {
    var g := [needle[i]];
    assert OccursAt(g, needle, i);
    assert IsLetter(g);
    var k :| 0 <= k < |features| && features[k] == g;
    assert k in Mask(features, needle);
  }

  // ---------------------------------------------------------------- reserved slots

  /** The letters below `n` not chosen yet, in order. */
  function MissingBelow(chosen: seq<string>, n: nat): (r: seq<string>)
    requires n <= LETTERS
    ensures forall g :: g in r ==> g !in chosen && IsLetter(g) && g[0] as int < 'a' as int + n
  {
    if n == 0 then []
    else if Letter(n - 1) in chosen then MissingBelow(chosen, n - 1)
    else MissingBelow(chosen, n - 1) + [Letter(n - 1)]
  }

  function Missing(chosen: seq<string>): seq<string> {
    MissingBelow(chosen, LETTERS)
  }

  lemma {:induction false} MissingIs(chosen: seq<string>, n: nat, k: nat)
    requires k < n <= LETTERS && Letter(k) !in chosen
    ensures Letter(k) in MissingBelow(chosen, n)
    decreases n
  {
    if k < n - 1 {
      MissingIs(chosen, n - 1, k);
    }
  }

  /** Choosing a new gram uses up a reserved slot exactly when it is a letter. */
  lemma {:induction false} MissingAfter(chosen: seq<string>, g: string, n: nat)
    requires n <= LETTERS && g !in chosen
    ensures |MissingBelow(chosen + [g], n)|
         == |MissingBelow(chosen, n)| - if IsLetter(g) && g[0] as int < 'a' as int + n then 1 else 0
    decreases n
  {
    if n > 0 {
      MissingAfter(chosen, g, n - 1);
      var letter := Letter(n - 1);
      assert letter in chosen + [g] <==> letter in chosen || letter == g;
      if IsLetter(g) && g[0] as int == 'a' as int + n - 1 {
        assert g == letter;
      }
    }
  }

  lemma {:induction false} AllMissing(n: nat)
    requires n <= LETTERS
    ensures |MissingBelow([], n)| == n
    decreases n
  {
    if n > 0 {
      AllMissing(n - 1);
    }
  }

  ghost predicate Distinct(s: seq<string>) {
    forall i, j :: 0 <= i < j < |s| ==> s[i] != s[j]
  }

  /** Grams that are not single lower-case letters. */
  function Plain(s: seq<string>): nat
    decreases |s|
  {
    if s == [] then 0 else Plain(s[..|s| - 1]) + if IsLetter(s[|s| - 1]) then 0 else 1
  }

  lemma PlainAppend(s: seq<string>, g: string)
    ensures Plain(s + [g]) == Plain(s) + if IsLetter(g) then 0 else 1
  {
    assert (s + [g])[..|s|] == s;
  }

  lemma {:induction false} PlainConcat(s: seq<string>, t: seq<string>)
    ensures Plain(s + t) == Plain(s) + Plain(t)
    decreases |t|
  {
    if t == [] {
      assert s + t == s;
    } else {
      var n := |t| - 1;
      PlainConcat(s, t[..n]);
      assert s + t == s + t[..n] + [t[n]];
      PlainAppend(s + t[..n], t[n]);
      assert t == t[..n] + [t[n]];
    }
  }

  lemma PlainRemove(before: seq<string>, g: string, after: seq<string>)
    ensures Plain(before + after) == Plain(before + [g] + after) - if IsLetter(g) then 0 else 1
  {
    PlainConcat(before, after);
    PlainConcat(before + [g], after);
    PlainAppend(before, g);
  }

  lemma PlainRemoveAt(s: seq<string>, k: nat, rest: seq<string>)
    requires k < |s| && rest == s[..k] + s[k + 1..]
    ensures Plain(rest) == Plain(s) - if IsLetter(s[k]) then 0 else 1
  {
    PlainRemove(s[..k], s[k], s[k + 1..]);
    assert s[..k] + [s[k]] + s[k + 1..] == s;
  }

  // ---------------------------------------------------------------- string order

  /** Lexicographic order of strings. */
  predicate Less(a: string, b: string)
    decreases |a|
  {
    b != [] && (a == [] || a[0] < b[0] || (a[0] == b[0] && Less(a[1..], b[1..])))
  }

  /** The strings agree before position i; there the one ends or has the smaller character. */
  ghost predicate DiffersAt(a: string, b: string, i: int) {
    0 <= i <= |a| && i < |b| && a[..i] == b[..i] && (i == |a| || a[i] < b[i])
  }

  lemma {:induction false} LessIff(a: string, b: string)
    ensures Less(a, b) <==> exists i :: DiffersAt(a, b, i)
    decreases |a|
  {
    if a == [] || b == [] || a[0] != b[0] {
      assert b != [] ==> (DiffersAt(a, b, 0) <==> Less(a, b));
      assert forall i :: DiffersAt(a, b, i) && i > 0 ==> a[..i][0] == b[..i][0];
    } else {
      LessIff(a[1..], b[1..]);
      if Less(a, b) {
        var i :| DiffersAt(a[1..], b[1..], i);
        TailDiffers(a, b, i);
      }
      if i :| DiffersAt(a, b, i) {
        TailDiffers(a, b, i - 1);
      }
    }
  }

  lemma TailDiffers(a: string, b: string, i: int)
    requires a != [] && b != [] && a[0] == b[0]
    ensures DiffersAt(a, b, i + 1) <==> DiffersAt(a[1..], b[1..], i)
  {
    if 0 <= i < |a| && i < |b| {
      assert a[..i + 1] == [a[0]] + a[1..][..i] && b[..i + 1] == [b[0]] + b[1..][..i];
      assert a[..i + 1][1..] == a[1..][..i] && b[..i + 1][1..] == b[1..][..i];
    }
  }

  lemma {:induction false} LessTrans(a: string, b: string, c: string)
    requires Less(a, b) && Less(b, c)
    ensures Less(a, c)
    decreases |a|
  {
    if a != [] && a[0] == b[0] && b[0] == c[0] {
      LessTrans(a[1..], b[1..], c[1..]);
    }
  }

  lemma {:induction false} LessTotal(a: string, b: string)
    ensures a == b || Less(a, b) || Less(b, a)
    ensures !(Less(a, b) && Less(b, a)) && !Less(a, a)
    decreases |a|
  {
    if a != [] && b != [] && a[0] == b[0] {
      LessTotal(a[1..], b[1..]);
      assert a == [a[0]] + a[1..] && b == [b[0]] + b[1..];
    }
    if a != [] {
      LessTotal(a[1..], a[1..]);
    }
  }

  // ---------------------------------------------------------------- selection

  /** The gain of a gram given what is chosen so far; smaller is better. */
  type Objective = (seq<string>, string) -> real

  predicate Before(obj: Objective, chosen: seq<string>, g: string, h: string) {
    obj(chosen, g) < obj(chosen, h) || (obj(chosen, g) == obj(chosen, h) && Less(g, h))
  }

  lemma BeforeTrans(obj: Objective, chosen: seq<string>, g: string, h: string, k: string)
    requires Before(obj, chosen, g, h) && Before(obj, chosen, h, k)
    ensures Before(obj, chosen, g, k)
  {
    if Less(g, h) && Less(h, k) {
      LessTrans(g, h, k);
    }
  }

  lemma BeforeTotal(obj: Objective, chosen: seq<string>, g: string, h: string)
    ensures g == h || Before(obj, chosen, g, h) || Before(obj, chosen, h, g)
  {
    LessTotal(g, h);
  }

  ghost predicate FirstOf(obj: Objective, chosen: seq<string>, pool: seq<string>, g: string) {
    g in pool && forall h :: h in pool && h != g ==>
      obj(chosen, g) <= obj(chosen, h) && (obj(chosen, g) == obj(chosen, h) ==> Less(g, h))
  }

  lemma FirstAfter(obj: Objective, chosen: seq<string>, pool: seq<string>, g: string, h: string, best: string)
    requires FirstOf(obj, chosen, pool, g)
    requires best == if Before(obj, chosen, h, g) then h else g
    ensures FirstOf(obj, chosen, pool + [h], best)
  {
    BeforeTotal(obj, chosen, g, h);
    forall x | x in pool + [h] && x != best
      ensures Before(obj, chosen, best, x)
    {
      if x in pool && x != g && best != g {
        BeforeTrans(obj, chosen, h, g, x);
      }
    }
  }

  method PickBest(obj: Objective, chosen: seq<string>, pool: seq<string>) returns (k: nat)
    requires |pool| > 0
    ensures k < |pool| && FirstOf(obj, chosen, pool, pool[k])
  {
    k := 0;
    for i := 1 to |pool|
      invariant k < i && FirstOf(obj, chosen, pool[..i], pool[k])
    {
      assert pool[..i + 1] == pool[..i] + [pool[i]];
      ghost var g := pool[k];
      if Before(obj, chosen, pool[i], pool[k]) {
        k := i;
      }
      FirstAfter(obj, chosen, pool[..i], g, pool[i], pool[k]);
    }
    assert pool[..|pool|] == pool;
  }

  /** The pool holds each candidate not chosen, once. */
  ghost predicate Remaining(cands: seq<string>, chosen: seq<string>, pool: seq<string>) {
    Distinct(chosen) && Distinct(pool) && forall g :: g in cands <==> (g in chosen) != (g in pool)
  }

  lemma RemainingStep(cands: seq<string>, chosen: seq<string>, pool: seq<string>, k: nat, chosen': seq<string>,
                      pool': seq<string>)
    requires Remaining(cands, chosen, pool) && (forall g :: g in chosen ==> g in cands) && k < |pool|
    requires chosen' == chosen + [pool[k]] && pool' == pool[..k] + pool[k + 1..]
    ensures Remaining(cands, chosen', pool') && (forall g :: g in chosen' ==> g in cands) && pool[k] !in chosen
  {
    var g := pool[k];
    assert g in pool;
    assert g in cands;
    assert g !in chosen;
    forall h
      ensures h in pool' <==> h in pool && h != g
    {
      if h in pool && h != g {
        var i :| 0 <= i < |pool| && pool[i] == h;
        assert if i < k then pool'[i] == h else pool'[i - 1] == h;
      }
    }
    forall h
      ensures h in chosen' <==> h in chosen || h == g
    {
    }
  }

  /** Each choice came first among the candidates left at its turn. */
  ghost predicate Greedy(obj: Objective, cands: seq<string>, chosen: seq<string>) {
    forall k :: 0 <= k < |chosen| ==> GreedyAt(obj, cands, chosen, k)
  }

  ghost predicate GreedyAt(obj: Objective, cands: seq<string>, chosen: seq<string>, k: int)
    requires 0 <= k < |chosen|
  {
    && chosen[k] in cands
    && forall h :: h in cands && h !in chosen[..k] && h != chosen[k] ==>
         && obj(chosen[..k], chosen[k]) <= obj(chosen[..k], h)
         && (obj(chosen[..k], chosen[k]) == obj(chosen[..k], h) ==> Less(chosen[k], h))
  }

  lemma GreedyGrows(obj: Objective, cands: seq<string>, chosen: seq<string>, pool: seq<string>, g: string,
                    chosen': seq<string>)
    requires Greedy(obj, cands, chosen) && Remaining(cands, chosen, pool) && FirstOf(obj, chosen, pool, g) && g in cands
    requires chosen' == chosen + [g]
    ensures Greedy(obj, cands, chosen')
  {
    forall k | 0 <= k < |chosen'|
      ensures GreedyAt(obj, cands, chosen', k)
    {
      if k < |chosen| {
        assert GreedyAt(obj, cands, chosen, k);
        assert chosen'[..k] == chosen[..k];
      } else {
        assert chosen'[..k] == chosen;
      }
    }
  }

  /** Each string before those after it. */
  ghost predicate InOrder(s: seq<string>) {
    forall i, j :: 0 <= i < j < |s| ==> Less(s[i], s[j])
  }

  /** The letters not chosen, each once, in order. */
  ghost predicate LettersLeft(chosen: seq<string>, tail: seq<string>) {
    InOrder(tail) && forall g :: g in tail <==> IsLetter(g) && g !in chosen
  }

  lemma {:induction false} MissingInOrder(chosen: seq<string>, n: nat)
    requires n <= LETTERS
    ensures InOrder(MissingBelow(chosen, n))
    decreases n
  {
    if n > 0 {
      MissingInOrder(chosen, n - 1);
      var front := MissingBelow(chosen, n - 1);
      forall i | 0 <= i < |front|
        ensures Less(front[i], Letter(n - 1))
      {
        assert front[i] in front;
      }
    }
  }

  lemma MissingIsLeft(chosen: seq<string>)
    ensures LettersLeft(chosen, Missing(chosen))
  {
    MissingInOrder(chosen, LETTERS);
    forall g | IsLetter(g) && g !in chosen
      ensures g in Missing(chosen)
    {
      var k := g[0] as int - 'a' as int;
      assert g == Letter(k);
      MissingIs(chosen, LETTERS, k);
    }
  }

  /** A table that fills every bit with a different feature and leaves no letter out. */
  ghost predicate FullTable(features: seq<string>) {
    |features| == 128 && Distinct(features) && HasEveryLetter(features)
  }

  lemma TableIsFull(chosen: seq<string>, tail: seq<string>)
    requires Distinct(chosen) && LettersLeft(chosen, tail) && |chosen| + |tail| == BITS
    ensures FullTable(chosen + tail)
  {
    var features := chosen + tail;
    forall i, j | 0 <= i < j < |features|
      ensures features[i] != features[j]
    {
      if i < |chosen| <= j {
        assert features[j] in tail;
      } else if |chosen| <= i {
        assert Less(features[i], features[j]);
        LessTotal(features[i], features[j]);
      }
    }
  }

  /**
    Selection.  It fails, on an empty pool, exactly when there are fewer than 102 candidates that are not single
    letters; otherwise the 128 features are the greedy choices followed by the letters not among them, in order.
  */
  method SelectFeatures(cands: seq<string>, obj: Objective) returns (r: Option<seq<string>>, ghost chosen: seq<string>)
    requires Distinct(cands)
    ensures r.Some? <==> Plain(cands) >= 102
    ensures Greedy(obj, cands, chosen)
    ensures r.Some? ==>
              FullTable(r.value) && chosen <= r.value && LettersLeft(chosen, r.value[|chosen|..])
  {
    var picked: seq<string> := [];
    var pool := cands;
    AllMissing(LETTERS);
    while true
      invariant Remaining(cands, picked, pool) && (forall g :: g in picked ==> g in cands)
      invariant Greedy(obj, cands, picked)
      invariant |picked| + |Missing(picked)| == LETTERS + Plain(picked) <= BITS
      invariant Plain(picked) + Plain(pool) == Plain(cands)
      decreases |pool|
    {
      var uncovered := Missing(picked);
      if BITS - |picked| <= |uncovered| {
        MissingIsLeft(picked);
        TableIsFull(picked, uncovered);
        assert (picked + uncovered)[|picked|..] == uncovered;
        return Some(picked + uncovered), picked;
      }
      if pool == [] {
        return None, picked;
      }
      var k := PickBest(obj, picked, pool);
      ghost var before, all := picked, pool;
      picked := picked + [pool[k]];
      pool := pool[..k] + pool[k + 1..];
      RemainingStep(cands, before, all, k, picked, pool);
      GreedyGrows(obj, cands, before, all, all[k], picked);
      MissingAfter(before, all[k], LETTERS);
      PlainAppend(before, all[k]);
      PlainRemoveAt(all, k, pool);
    }
  }
}
