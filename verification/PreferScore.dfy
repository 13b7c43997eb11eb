/**
  Scoring of printings from component levels and a weight table, and the one-multiply shortcut used to try a
  new weight for one component.
*/
module PreferScore {
  import opened Numbers

  datatype Rarity = Common | Uncommon | Rare | Mythic | OtherRarity
  datatype Frame = Frame2015 | Frame2003 | Frame1997 | Frame1993 | OtherFrame
  datatype Finish = Nonfoil | Foil | OtherFinish

  /** The columns of one printing that the score reads; `illustrations` is the printing count of its artwork. */
  datatype Row = Row(
    illustrations: nat,
    rarity: Rarity,
    blackBorder: bool,
    frame: Frame,
    extended: bool,
    highres: bool,
    paper: bool,
    english: bool,
    legendary: bool,
    showcase: bool,
    finish: Finish,
    artworkSetOk: bool,
    offStyle: bool)

  datatype Comp =
    | LanguageEn | FrameIs2015 | FrameIs2003 | FrameIs1997 | FrameIs1993 | ArtworkSetOk
    | RarityCommon | RarityUncommon | RarityRare | RarityMythic | HighresScan | BorderBlack | ExtendedArt
    | FinishNonfoil | FinishFoil | NonShowcase | HasPaper | LegendaryFrame | IllustrationCount | ArtStyle

  type Weights = Comp -> real

  /** `ln(1 + n) / ln 40`, whose values are not part of this model. */
  type LogLevel = nat -> real

  function If(b: bool, w: real): real {
    if b then w else 0.0
  }

  // ---------------------------------------------------------------- rounding

  /** The nearest integer, ties to even. */
  function Nearest(y: real): (n: int)
    ensures -0.5 <= n as real - y <= 0.5
    ensures Abs(n as real - y) == 0.5 ==> n % 2 == 0
  {
    var rest := y - y.Floor as real;
    if rest < 0.5 || (rest == 0.5 && y.Floor % 2 == 0) then y.Floor else y.Floor + 1
  }

  /** Rounding to the nearest multiple of 1 / scale, ties to even. */
  function RoundTo(x: real, scale: real): real
    requires scale > 0.0
  {
    Nearest(Times(x, scale)) as real / scale
  }

  /** A number within half a unit of another, both scaled down. */
  lemma Scaled(r: real, x: real, scale: real, half: real)
    requires scale > 0.0 && Times(half, scale) == 0.5 && -0.5 <= Times(r, scale) - Times(x, scale) <= 0.5
    ensures -half <= r - x <= half
  {
    TimesDifference(r, x, scale);
    TimesOrder(r - x, half, scale);
    TimesDifference(0.0, half, scale);
    TimesOrder(0.0 - half, r - x, scale);
  }

  lemma RoundingError(x: real, scale: real, half: real)
    requires scale > 0.0 && Times(half, scale) == 0.5
    ensures Abs(RoundTo(x, scale) - x) <= half
  {
    var y := Times(x, scale);
    DivideTimes(Nearest(y) as real, scale);
    Scaled(RoundTo(x, scale), x, scale, half);
  }

  // ---------------------------------------------------------------- score and level

  function IllustrationTerm(row: Row, weight: real, log: LogLevel): real {
    RoundTo(Times(weight, log(row.illustrations)), 10000.0)
  }

  function RarityTerm(row: Row, w: Weights): real {
    match row.rarity
    case Common => w(RarityCommon)
    case Uncommon => w(RarityUncommon)
    case Rare => w(RarityRare)
    case Mythic => w(RarityMythic)
    case OtherRarity => 0.0
  }

  function FrameTerm(row: Row, w: Weights): real {
    match row.frame
    case Frame2015 => w(FrameIs2015)
    case Frame2003 => w(FrameIs2003)
    case Frame1997 => w(FrameIs1997)
    case Frame1993 => w(FrameIs1993)
    case OtherFrame => 0.0
  }

  function FinishTerm(row: Row, w: Weights): real {
    match row.finish
    case Nonfoil => w(FinishNonfoil)
    case Foil => w(FinishFoil)
    case OtherFinish => 0.0
  }

  /** The components whose weight is used as it is. */
  function PlainScore(row: Row, w: Weights): real {
    RarityTerm(row, w)
    + If(row.blackBorder, w(BorderBlack))
    + FrameTerm(row, w)
    + If(row.extended, w(ExtendedArt))
    + If(row.highres, w(HighresScan))
    + If(row.paper, w(HasPaper))
    + If(row.english, w(LanguageEn))
    + If(row.legendary, w(LegendaryFrame))
    + If(!row.showcase, w(NonShowcase))
    + FinishTerm(row, w)
    + If(row.artworkSetOk, w(ArtworkSetOk))
    + If(!row.offStyle, w(ArtStyle))
  }

  /** The sum of the weighted components, the one for the printing count rounded. */
  function Score(row: Row, w: Weights, log: LogLevel): real {
    IllustrationTerm(row, w(IllustrationCount), log) + PlainScore(row, w)
  }

  /** The multiplier a component's weight is applied to. */
  function Level(row: Row, comp: Comp, log: LogLevel): real {
    match comp
    case IllustrationCount => RoundTo(log(row.illustrations), 1000000.0)
    case RarityCommon => If(row.rarity == Common, 1.0)
    case RarityUncommon => If(row.rarity == Uncommon, 1.0)
    case RarityRare => If(row.rarity == Rare, 1.0)
    case RarityMythic => If(row.rarity == Mythic, 1.0)
    case FrameIs2015 => If(row.frame == Frame2015, 1.0)
    case FrameIs2003 => If(row.frame == Frame2003, 1.0)
    case FrameIs1997 => If(row.frame == Frame1997, 1.0)
    case FrameIs1993 => If(row.frame == Frame1993, 1.0)
    case FinishNonfoil => If(row.finish == Nonfoil, 1.0)
    case FinishFoil => If(row.finish == Foil, 1.0)
    case BorderBlack => If(row.blackBorder, 1.0)
    case ExtendedArt => If(row.extended, 1.0)
    case HighresScan => If(row.highres, 1.0)
    case HasPaper => If(row.paper, 1.0)
    case LanguageEn => If(row.english, 1.0)
    case LegendaryFrame => If(row.legendary, 1.0)
    case NonShowcase => If(!row.showcase, 1.0)
    case ArtworkSetOk => If(row.artworkSetOk, 1.0)
    case ArtStyle => If(!row.offStyle, 1.0)
  }

  // ---------------------------------------------------------------- the score is a dot product

  const PLAIN: seq<Comp> := [
    RarityCommon, RarityUncommon, RarityRare, RarityMythic, BorderBlack, FrameIs2015, FrameIs2003, FrameIs1997,
    FrameIs1993, ExtendedArt, HighresScan, HasPaper, LanguageEn, LegendaryFrame, NonShowcase, FinishNonfoil,
    FinishFoil, ArtworkSetOk, ArtStyle]

  function Total(f: Comp -> real, comps: seq<Comp>): real
    decreases |comps|
  {
    if comps == [] then 0.0 else Total(f, comps[..|comps| - 1]) + f(comps[|comps| - 1])
  }

  lemma TotalAppend(f: Comp -> real, comps: seq<Comp>, comp: Comp)
    ensures Total(f, comps + [comp]) == Total(f, comps) + f(comp)
  {
    assert (comps + [comp])[..|comps|] == comps;
  }

  lemma TotalFour(f: Comp -> real, comps: seq<Comp>, a: Comp, b: Comp, c: Comp, d: Comp)
    ensures Total(f, comps + [a, b, c, d]) == Total(f, comps) + f(a) + f(b) + f(c) + f(d)
  {
    TotalAppend(f, comps, a);
    TotalAppend(f, comps + [a], b);
    TotalAppend(f, comps + [a] + [b], c);
    TotalAppend(f, comps + [a] + [b] + [c], d);
    assert comps + [a] + [b] + [c] + [d] == comps + [a, b, c, d];
  }

  const PLAIN12: seq<Comp> := [
    RarityCommon, RarityUncommon, RarityRare, RarityMythic, BorderBlack, FrameIs2015, FrameIs2003, FrameIs1997,
    FrameIs1993, ExtendedArt, HighresScan, HasPaper]

  lemma TotalPlain12(f: Comp -> real)
    ensures Total(f, PLAIN12)
         == f(RarityCommon) + f(RarityUncommon) + f(RarityRare) + f(RarityMythic)
            + f(BorderBlack) + f(FrameIs2015) + f(FrameIs2003) + f(FrameIs1997)
            + f(FrameIs1993) + f(ExtendedArt) + f(HighresScan) + f(HasPaper)
  {
    var p4 := [RarityCommon, RarityUncommon, RarityRare, RarityMythic];
    var p8 := p4 + [BorderBlack, FrameIs2015, FrameIs2003, FrameIs1997];
    TotalFour(f, [], RarityCommon, RarityUncommon, RarityRare, RarityMythic);
    assert [] + p4 == p4;
    TotalFour(f, p4, BorderBlack, FrameIs2015, FrameIs2003, FrameIs1997);
    TotalFour(f, p8, FrameIs1993, ExtendedArt, HighresScan, HasPaper);
    assert p8 + [FrameIs1993, ExtendedArt, HighresScan, HasPaper] == PLAIN12;
  }

  lemma TotalPlain(f: Comp -> real)
    ensures Total(f, PLAIN)
         == Total(f, PLAIN12) + f(LanguageEn) + f(LegendaryFrame) + f(NonShowcase) + f(FinishNonfoil)
            + f(FinishFoil) + f(ArtworkSetOk) + f(ArtStyle)
  {
    var p16 := PLAIN12 + [LanguageEn, LegendaryFrame, NonShowcase, FinishNonfoil];
    TotalFour(f, PLAIN12, LanguageEn, LegendaryFrame, NonShowcase, FinishNonfoil);
    TotalAppend(f, p16, FinishFoil);
    TotalAppend(f, p16 + [FinishFoil], ArtworkSetOk);
    TotalAppend(f, p16 + [FinishFoil] + [ArtworkSetOk], ArtStyle);
    assert p16 + [FinishFoil] + [ArtworkSetOk] + [ArtStyle] == PLAIN;
  }

  function Weighted(row: Row, w: Weights, log: LogLevel, comp: Comp): real {
    Times(w(comp), Level(row, comp, log))
  }

  function Terms(row: Row, w: Weights, log: LogLevel): Comp -> real {
    comp => Weighted(row, w, log, comp)
  }

  /** The weights against the levels, over every component that is not rounded. */
  function Dot(row: Row, w: Weights, log: LogLevel): real {
    Total(Terms(row, w, log), PLAIN)
  }

  lemma RarityWeighted(row: Row, w: Weights, log: LogLevel)
    ensures RarityTerm(row, w)
         == Weighted(row, w, log, RarityCommon) + Weighted(row, w, log, RarityUncommon)
            + Weighted(row, w, log, RarityRare) + Weighted(row, w, log, RarityMythic)
  {
  }

  lemma FrameWeighted(row: Row, w: Weights, log: LogLevel)
    ensures FrameTerm(row, w)
         == Weighted(row, w, log, FrameIs2015) + Weighted(row, w, log, FrameIs2003)
            + Weighted(row, w, log, FrameIs1997) + Weighted(row, w, log, FrameIs1993)
  {
  }

  lemma FinishWeighted(row: Row, w: Weights, log: LogLevel)
    ensures FinishTerm(row, w) == Weighted(row, w, log, FinishNonfoil) + Weighted(row, w, log, FinishFoil)
  {
  }

  lemma FlagsWeighted(row: Row, w: Weights, log: LogLevel)
    ensures Weighted(row, w, log, BorderBlack) == If(row.blackBorder, w(BorderBlack))
    ensures Weighted(row, w, log, ExtendedArt) == If(row.extended, w(ExtendedArt))
    ensures Weighted(row, w, log, HighresScan) == If(row.highres, w(HighresScan))
    ensures Weighted(row, w, log, HasPaper) == If(row.paper, w(HasPaper))
    ensures Weighted(row, w, log, LanguageEn) == If(row.english, w(LanguageEn))
  {
  }

  lemma MoreFlagsWeighted(row: Row, w: Weights, log: LogLevel)
    ensures Weighted(row, w, log, LegendaryFrame) == If(row.legendary, w(LegendaryFrame))
    ensures Weighted(row, w, log, NonShowcase) == If(!row.showcase, w(NonShowcase))
    ensures Weighted(row, w, log, ArtworkSetOk) == If(row.artworkSetOk, w(ArtworkSetOk))
    ensures Weighted(row, w, log, ArtStyle) == If(!row.offStyle, w(ArtStyle))
  {
  }

  lemma PlainIsDot(row: Row, w: Weights, log: LogLevel)
    ensures PlainScore(row, w) == Dot(row, w, log)
  {
    RarityWeighted(row, w, log);
    FrameWeighted(row, w, log);
    FinishWeighted(row, w, log);
    FlagsWeighted(row, w, log);
    MoreFlagsWeighted(row, w, log);
    TotalPlain12(Terms(row, w, log));
    TotalPlain(Terms(row, w, log));
  }

  /** Every component but the rounded one contributes its weight times its level, exactly once. */
  lemma ScoreIsDotProduct(row: Row, w: Weights, log: LogLevel)
    ensures Score(row, w, log) == IllustrationTerm(row, w(IllustrationCount), log) + Dot(row, w, log)
  {
    PlainIsDot(row, w, log);
  }

  // ---------------------------------------------------------------- one component changed

  /** The weight table with one weight moved by `delta`. */
  function Moved(w: Weights, comp: Comp, delta: real): Weights {
    c => if c == comp then w(c) + delta else w(c)
  }

  ghost predicate DiffersAt(f: Comp -> real, f': Comp -> real, comp: Comp, x: real) {
    forall c :: f'(c) == f(c) + If(c == comp, x)
  }

  lemma {:induction false} TotalDiffers(f: Comp -> real, f': Comp -> real, comp: Comp, x: real, comps: seq<Comp>)
    requires DiffersAt(f, f', comp, x)
    requires forall i, j :: 0 <= i < j < |comps| ==> comps[i] != comps[j]
    ensures Total(f', comps) == Total(f, comps) + If(comp in comps, x)
    decreases |comps|
  {
    if comps != [] {
      var n := |comps| - 1;
      TotalDiffers(f, f', comp, x, comps[..n]);
      assert comps == comps[..n] + [comps[n]];
      assert f'(comps[n]) == f(comps[n]) + If(comps[n] == comp, x);
    }
  }

  lemma DotMoved(row: Row, w: Weights, log: LogLevel, comp: Comp, delta: real, w': Weights)
    requires w' == Moved(w, comp, delta)
    ensures Dot(row, w', log) == Dot(row, w, log) + If(comp != IllustrationCount, Times(delta, Level(row, comp, log)))
  {
    var f, f' := Terms(row, w, log), Terms(row, w', log);
    var x := Times(delta, Level(row, comp, log));
    forall c
      ensures f'(c) == f(c) + If(c == comp, x)
    {
      TimesSum(w(comp), delta, Level(row, comp, log));
    }
    PlainComponents(comp);
    TotalDiffers(f, f', comp, x, PLAIN);
  }

  lemma PlainComponents(comp: Comp)
    ensures forall i, j :: 0 <= i < j < |PLAIN| ==> PLAIN[i] != PLAIN[j]
    ensures comp in PLAIN <==> comp != IllustrationCount
  {
    forall k | 0 <= k < |PLAIN|
      ensures Position(PLAIN[k]) == k
    {
    }
    assert comp != IllustrationCount ==> PLAIN[Position(comp)] == comp;
  }

  function Position(comp: Comp): int {
    match comp
    case RarityCommon => 0
    case RarityUncommon => 1
    case RarityRare => 2
    case RarityMythic => 3
    case BorderBlack => 4
    case FrameIs2015 => 5
    case FrameIs2003 => 6
    case FrameIs1997 => 7
    case FrameIs1993 => 8
    case ExtendedArt => 9
    case HighresScan => 10
    case HasPaper => 11
    case LanguageEn => 12
    case LegendaryFrame => 13
    case NonShowcase => 14
    case FinishNonfoil => 15
    case FinishFoil => 16
    case ArtworkSetOk => 17
    case ArtStyle => 18
    case IllustrationCount => -1
  }

  lemma PlainMoved(row: Row, w: Weights, log: LogLevel, comp: Comp, delta: real, w': Weights)
    requires w' == Moved(w, comp, delta)
    ensures PlainScore(row, w') ==
            PlainScore(row, w) + If(comp != IllustrationCount, Times(delta, Level(row, comp, log)))
  {
    PlainIsDot(row, w, log);
    PlainIsDot(row, w', log);
    DotMoved(row, w, log, comp, delta, w');
  }

  /** Moving one weight moves the score by `delta * level`, for every component but the rounded one. */
  lemma FastRescore(row: Row, w: Weights, log: LogLevel, comp: Comp, delta: real)
    requires comp != IllustrationCount
    ensures Score(row, Moved(w, comp, delta), log) == Score(row, w, log) + delta * Level(row, comp, log)
  {
    PlainMoved(row, w, log, comp, delta, Moved(w, comp, delta));
  }

  lemma RoundedMoves(row: Row, w: Weights, log: LogLevel, delta: real, w': Weights)
    requires w' == Moved(w, IllustrationCount, delta)
    ensures PlainScore(row, w') == PlainScore(row, w) && w'(IllustrationCount) == w(IllustrationCount) + delta
  {
    PlainMoved(row, w, log, IllustrationCount, delta, w');
  }

  lemma TermError(row: Row, weight: real, log: LogLevel, l: real)
    requires l == log(row.illustrations)
    ensures Abs(IllustrationTerm(row, weight, log) - Times(weight, l)) <= 0.00005
  {
    RoundingError(Times(weight, l), 10000.0, 0.00005);
  }

  lemma LevelError(row: Row, log: LogLevel, l: real)
    requires l == log(row.illustrations)
    ensures Abs(Level(row, IllustrationCount, log) - l) <= 0.0000005
  {
    RoundingError(l, 1000000.0, 0.0000005);
  }

  /** A whole number of units of 1 / scale, half a unit or less from x, and an even number if exactly half. */
  ghost predicate RoundsTo(x: real, scale: real, r: real, n: int) {
    Times(r, scale) == n as real && Abs(n as real - Times(x, scale)) <= 0.5 &&
    (Abs(n as real - Times(x, scale)) == 0.5 ==> n % 2 == 0)
  }

  /** The term of the printing count is rounded to four digits and its level to six. */
  lemma RoundedToDigits(row: Row, weight: real, log: LogLevel, l: real) returns (units: int, parts: int)
    requires l == log(row.illustrations)
    ensures RoundsTo(Times(weight, l), 10000.0, IllustrationTerm(row, weight, log), units)
    ensures RoundsTo(l, 1000000.0, Level(row, IllustrationCount, log), parts)
  {
    units, parts := Nearest(Times(Times(weight, l), 10000.0)), Nearest(Times(l, 1000000.0));
    DivideTimes(units as real, 10000.0);
    DivideTimes(parts as real, 1000000.0);
  }

  lemma RoundedGap(moved: real, r: real, r': real, weight: real, delta: real, l: real, level: real)
    requires moved == r' - r && Abs(r - Times(weight, l)) <= 0.00005 && Abs(r' - Times(weight + delta, l)) <= 0.00005
    requires Abs(level - l) <= 0.0000005
    ensures Abs(moved - Times(delta, level)) <= 0.0001 + Abs(delta) * 0.0000005
  {
    ScaledError(delta, level, l);
    TimesSum(weight, delta, l);
    CombineErrors(Times(weight, l), Times(weight + delta, l), Times(delta, l), r, r', Times(delta, level),
                  Abs(delta) * 0.0000005);
  }

  lemma TermsGap(row: Row, log: LogLevel, weight: real, delta: real)
    ensures Abs(IllustrationTerm(row, weight + delta, log) - IllustrationTerm(row, weight, log)
                - Times(delta, Level(row, IllustrationCount, log)))
         <= 0.0001 + Abs(delta) * 0.0000005
  {
    var l := log(row.illustrations);
    var r, r' := IllustrationTerm(row, weight, log), IllustrationTerm(row, weight + delta, log);
    var level := Level(row, IllustrationCount, log);
    TermError(row, weight, log, l);
    TermError(row, weight + delta, log, l);
    LevelError(row, log, l);
    RoundedGap(r' - r, r, r', weight, delta, l, level);
  }

  /** For the rounded component the shortcut is off by at most the two roundings. */
  lemma FastRescoreRounded(row: Row, w: Weights, log: LogLevel, delta: real, w': Weights)
    requires w' == Moved(w, IllustrationCount, delta)
    ensures Abs(Score(row, w', log) - Score(row, w, log) - Times(delta, Level(row, IllustrationCount, log))) <=
            0.0001 + Abs(delta) * 0.0000005
  {
    RoundedMoves(row, w, log, delta, w');
    TermsGap(row, log, w(IllustrationCount), delta);
  }

  lemma CombineErrors(x: real, x': real, d: real, r: real, r': real, e: real, slack: real)
    requires x' == x + d && Abs(r - x) <= 0.00005 && Abs(r' - x') <= 0.00005 && Abs(e - d) <= slack
    ensures Abs(r' - r - e) <= 0.0001 + slack
  {
  }

  lemma ScaledError(delta: real, level: real, l: real)
    requires Abs(level - l) <= 0.0000005
    ensures Abs(Times(delta, level) - Times(delta, l)) <= Abs(delta) * 0.0000005
  {
    var e := level - l;
    assert Times(delta, level) - Times(delta, l) == delta * e;
    if delta < 0.0 {
      BoundedFactor(-delta, e);
      assert -delta * e == -(delta * e);
    } else {
      BoundedFactor(delta, e);
    }
  }

  lemma BoundedFactor(d: real, e: real)
    requires d >= 0.0 && -0.0000005 <= e <= 0.0000005
    ensures -(d * 0.0000005) <= d * e <= d * 0.0000005
  {
    assert d * (0.0000005 - e) >= 0.0;
    assert d * (0.0000005 + e) >= 0.0;
  }

  lemma RoundedAway(row: Row, log: LogLevel)
    requires row.illustrations == 39 && log(39) == 1.0
    ensures IllustrationTerm(row, 23.00001, log) == IllustrationTerm(row, 23.0, log) &&
            Level(row, IllustrationCount, log) == 1.0
  {
    assert Nearest(230000.1) == 230000 && Nearest(230000.0) == 230000 && Nearest(1000000.0) == 1000000;
  }

  /** An artwork with 39 printings has level one, and a small move of its weight is rounded away. */
  lemma RoundedComponentDiffers(row: Row, w: Weights, log: LogLevel, w': Weights)
    requires row.illustrations == 39 && log(39) == 1.0 && w(IllustrationCount) == 23.0 &&
             w' == Moved(w, IllustrationCount, 0.00001)
    ensures Score(row, w', log) == Score(row, w, log) && Level(row, IllustrationCount, log) == 1.0
  {
    RoundedMoves(row, w, log, 0.00001, w');
    RoundedAway(row, log);
  }
}
