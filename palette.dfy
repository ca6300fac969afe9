/** The eight-colour reference palette and the nearest-colour match.

    Every palette entry gets its Euclidean RGB distance to the mean colour,
    the entries are stably sorted ascending by distance, the first is the
    match, and the confidence is the gap to the runner-up over 40, clamped
    to [0, 1].  `Math.sqrt` is a parameter `sqrt` that is only known to
    return the non-negative square root (`IsSqrt`).
 */
module Palette {
  import opened Basics
  import opened StableSort
  import opened HexColor

  /** `{ level, label, hex }` (the label is the field `name`). */
  datatype Entry = Entry(level: nat, name: string, hex: string)

  const URINE_PALETTE: seq<Entry> := [
    Entry(1, "Very pale", "#FFFDF2"),
    Entry(2, "Pale straw", "#FFF6C9"),
    Entry(3, "Light yellow", "#FFE993"),
    Entry(4, "Yellow", "#FFD35C"),
    Entry(5, "Dark yellow", "#FFB93A"),
    Entry(6, "Amber", "#F39A1F"),
    Entry(7, "Dark amber", "#D97D12"),
    Entry(8, "Very dark amber", "#B45E0C")
  ]

  /** The label of level `level`. */
  function LevelName(level: int): string
    requires 1 <= level <= |URINE_PALETTE|
  {
    URINE_PALETTE[level - 1].name
  }

  /** The colours the palette's hex codes decode to, in palette order. */
  const REFERENCE_COLORS: seq<Rgb> := [
    Rgb(255, 253, 242), Rgb(255, 246, 201), Rgb(255, 233, 147), Rgb(255, 211, 92),
    Rgb(255, 185, 58), Rgb(243, 154, 31), Rgb(217, 125, 18), Rgb(180, 94, 12)
  ]

  /** A mean colour: real-valued channels. */
  datatype MeanRgb = MeanRgb(r: real, g: real, b: real)

  function AsMean(c: Rgb): MeanRgb
  {
    MeanRgb(c.r as real, c.g as real, c.b as real)
  }

  /** `Math.max(lo, Math.min(hi, n))`. */
  function Clamp(n: real, lo: real, hi: real): (r: real)
    ensures lo <= hi ==> lo <= r <= hi
    ensures lo <= n <= hi ==> r == n
    ensures n < lo ==> r == lo
    ensures lo <= hi < n ==> r == hi
  {
    RealMax(lo, RealMin(hi, n))
  }

  /** The identity.  Squares are written `x * Same(x)` so that the solver
      treats them as a product of two terms; it reasons about those more
      reliably than about a syntactic square. */
  function Same(x: real): real
  {
    x
  }

  function Sq(x: real): real
  {
    x * Same(x)
  }

  lemma SquareSign(x: real)
    ensures Sq(x) >= 0.0
    ensures x != 0.0 ==> Sq(x) > 0.0
  {
  }

  /** On non-negative reals squaring is strictly increasing. */
  lemma SquareStrictlyIncreasing(a: real, b: real)
    requires 0.0 <= a && 0.0 <= b
    ensures a < b ==> Sq(a) < Sq(b)
  {
    if a < b {
      assert a * Same(a) <= a * Same(b);
      assert a * Same(b) < b * Same(b);
    }
  }

  /** The square of the Euclidean distance between a mean colour and a
      reference colour. */
  function SqDist(m: MeanRgb, c: Rgb): real
  {
    Sq(m.r - c.r as real) + Sq(m.g - c.g as real) + Sq(m.b - c.b as real)
  }

  lemma SqDistZero(m: MeanRgb, c: Rgb)
    ensures SqDist(m, c) >= 0.0
    ensures SqDist(m, c) == 0.0 <==> m == AsMean(c)
  {
    SquareSign(m.r - c.r as real);
    SquareSign(m.g - c.g as real);
    SquareSign(m.b - c.b as real);
  }

  /** `sqrt` returns the non-negative square root of every non-negative real. */
  ghost predicate IsSqrt(sqrt: real -> real)
  {
    && (forall x :: x >= 0.0 ==> sqrt(x) >= 0.0)
    && (forall x {:trigger Sq(sqrt(x))} :: x >= 0.0 ==> Sq(sqrt(x)) == x)
  }

  /** `rgbDist`. */
  function RgbDist(m: MeanRgb, c: Rgb, sqrt: real -> real): (d: real)
    requires IsSqrt(sqrt)
    ensures d >= 0.0
  {
    SqDistZero(m, c);
    sqrt(SqDist(m, c))
  }

  /** Comparing square roots compares the squares. */
  lemma SqrtMonotone(x: real, y: real, sqrt: real -> real)
    requires IsSqrt(sqrt) && x >= 0.0 && y >= 0.0
    ensures sqrt(x) <= sqrt(y) <==> x <= y
  {
    SquareStrictlyIncreasing(sqrt(x), sqrt(y));
    SquareStrictlyIncreasing(sqrt(y), sqrt(x));
  }

  /** `rgbDist` is the Euclidean distance: its square is the squared
      distance, and it is 0 exactly for the colour itself. */
  lemma RgbDistSquare(m: MeanRgb, c: Rgb, sqrt: real -> real)
    requires IsSqrt(sqrt)
    ensures Sq(RgbDist(m, c, sqrt)) == SqDist(m, c)
    ensures RgbDist(m, c, sqrt) == 0.0 <==> m == AsMean(c)
  {
    SqDistZero(m, c);
    SqrtOfSquare(0.0, sqrt);
    assert Sq(sqrt(SqDist(m, c))) == SqDist(m, c);
    SqrtMonotone(SqDist(m, c), 0.0, sqrt);
  }

  /** A palette entry together with its distance `{ ...p, dist }`. */
  datatype Ranked = Ranked(level: nat, name: string, hex: string, dist: real)

  function WithDist(p: Entry, m: MeanRgb, sqrt: real -> real): Ranked
    requires IsSqrt(sqrt)
  {
    Ranked(p.level, p.name, p.hex, RgbDist(m, HexToRgb(p.hex), sqrt))
  }

  /** The `map` step: every entry with its distance, in palette order. */
  function Measure(palette: seq<Entry>, m: MeanRgb, sqrt: real -> real): (r: seq<Ranked>)
    requires IsSqrt(sqrt)
    ensures |r| == |palette|
    ensures forall i :: 0 <= i < |r| ==> r[i] == WithDist(palette[i], m, sqrt)
  {
    if palette == [] then []
    else [WithDist(palette[0], m, sqrt)] + Measure(palette[1..], m, sqrt)
  }

  /** The sort keys of `ranked`: distance first, palette level for ties. */
  function DistKey(x: Ranked): real
  {
    x.dist
  }

  function LevelOf(x: Ranked): int
  {
    x.level
  }

  /** `{ best, ranked, confidence }`. */
  datatype Match = Match(best: Ranked, ranked: seq<Ranked>, confidence: real)

  /** `matchPalette` over an arbitrary non-empty palette. */
  function MatchAgainst(palette: seq<Entry>, m: MeanRgb, sqrt: real -> real): (r: Match)
    requires |palette| >= 1 && IsSqrt(sqrt)
    ensures |r.ranked| == |palette|
    ensures multiset(r.ranked) == multiset(Measure(palette, m, sqrt))
    ensures SortedBy(r.ranked, DistKey)
    ensures r.best == r.ranked[0]
    ensures 0.0 <= r.confidence <= 1.0
  {
    var ranked := SortBy(Measure(palette, m, sqrt), DistKey);
    var best := ranked[0];
    var gap := if |ranked| >= 2 then ranked[1].dist - best.dist else best.dist;
    Match(best, ranked, Clamp(gap / 40.0, 0.0, 1.0))
  }

  /** `matchPalette`: the match against the eight-colour palette. */
  function MatchPalette(m: MeanRgb, sqrt: real -> real): Match
    requires IsSqrt(sqrt)
  {
    MatchAgainst(URINE_PALETTE, m, sqrt)
  }

  /**
   * Palette entry `i` decodes to reference colour `i` when its hex code is
   * "#RRGGBB" written with the upper-case digits of that colour.
   */
  lemma EntryDecodes(i: nat, c: Rgb, hex: string)
    requires i < |URINE_PALETTE| && i < |REFERENCE_COLORS|
    requires URINE_PALETTE[i].hex == hex && REFERENCE_COLORS[i] == c
    requires hex == RgbToHex(c)
    ensures HexToRgb(URINE_PALETTE[i].hex) == REFERENCE_COLORS[i]
  {
    RoundTrip(c);
  }

  /** Palette entry `i`'s hex code decodes to `REFERENCE_COLORS[i]`. */
  lemma PaletteColor(i: nat)
    requires i < |URINE_PALETTE|
    ensures HexToRgb(URINE_PALETTE[i].hex) == REFERENCE_COLORS[i]
  {
    if i == 0 {
      EntryColor1();
    } else if i == 1 {
      EntryColor2();
    } else if i == 2 {
      EntryColor3();
    } else if i == 3 {
      EntryColor4();
    } else if i == 4 {
      EntryColor5();
    } else if i == 5 {
      EntryColor6();
    } else if i == 6 {
      EntryColor7();
    } else {
      EntryColor8();
    }
  }

  /** The hex code of level 1 decodes to its reference colour. */
  lemma EntryColor1()
    ensures HexToRgb(URINE_PALETTE[0].hex) == REFERENCE_COLORS[0]
  {
    assert ByteToHex(255) == "FF";
    assert ByteToHex(253) == "FD";
    assert ByteToHex(242) == "F2";
    EntryDecodes(0, Rgb(255, 253, 242), "#FFFDF2");
  }

  /** The hex code of level 2 decodes to its reference colour. */
  lemma EntryColor2()
    ensures HexToRgb(URINE_PALETTE[1].hex) == REFERENCE_COLORS[1]
  {
    assert ByteToHex(255) == "FF";
    assert ByteToHex(246) == "F6";
    assert ByteToHex(201) == "C9";
    EntryDecodes(1, Rgb(255, 246, 201), "#FFF6C9");
  }

  /** The hex code of level 3 decodes to its reference colour. */
  lemma EntryColor3()
    ensures HexToRgb(URINE_PALETTE[2].hex) == REFERENCE_COLORS[2]
  {
    assert ByteToHex(255) == "FF";
    assert ByteToHex(233) == "E9";
    assert ByteToHex(147) == "93";
    EntryDecodes(2, Rgb(255, 233, 147), "#FFE993");
  }

  /** The hex code of level 4 decodes to its reference colour. */
  lemma EntryColor4()
    ensures HexToRgb(URINE_PALETTE[3].hex) == REFERENCE_COLORS[3]
  {
    assert ByteToHex(255) == "FF";
    assert ByteToHex(211) == "D3";
    assert ByteToHex(92) == "5C";
    EntryDecodes(3, Rgb(255, 211, 92), "#FFD35C");
  }

  /** The hex code of level 5 decodes to its reference colour. */
  lemma EntryColor5()
    ensures HexToRgb(URINE_PALETTE[4].hex) == REFERENCE_COLORS[4]
  {
    assert ByteToHex(255) == "FF";
    assert ByteToHex(185) == "B9";
    assert ByteToHex(58) == "3A";
    EntryDecodes(4, Rgb(255, 185, 58), "#FFB93A");
  }

  /** The hex code of level 6 decodes to its reference colour. */
  lemma EntryColor6()
    ensures HexToRgb(URINE_PALETTE[5].hex) == REFERENCE_COLORS[5]
  {
    assert ByteToHex(243) == "F3";
    assert ByteToHex(154) == "9A";
    assert ByteToHex(31) == "1F";
    EntryDecodes(5, Rgb(243, 154, 31), "#F39A1F");
  }

  /** The hex code of level 7 decodes to its reference colour. */
  lemma EntryColor7()
    ensures HexToRgb(URINE_PALETTE[6].hex) == REFERENCE_COLORS[6]
  {
    assert ByteToHex(217) == "D9";
    assert ByteToHex(125) == "7D";
    assert ByteToHex(18) == "12";
    EntryDecodes(6, Rgb(217, 125, 18), "#D97D12");
  }

  /** The hex code of level 8 decodes to its reference colour. */
  lemma EntryColor8()
    ensures HexToRgb(URINE_PALETTE[7].hex) == REFERENCE_COLORS[7]
  {
    assert ByteToHex(180) == "B4";
    assert ByteToHex(94) == "5E";
    assert ByteToHex(12) == "0C";
    EntryDecodes(7, Rgb(180, 94, 12), "#B45E0C");
  }

  /** Entry `i` of the palette has level `i + 1`. */
  lemma PaletteLevels()
    ensures |URINE_PALETTE| == 8
    ensures forall i :: 0 <= i < |URINE_PALETTE| ==> URINE_PALETTE[i].level == i + 1
  {
  }

  /** The palette's hex codes decode to `REFERENCE_COLORS`. */
  lemma PaletteColors()
    ensures forall i :: 0 <= i < |URINE_PALETTE| ==> HexToRgb(URINE_PALETTE[i].hex) == REFERENCE_COLORS[i]
  {
    forall i | 0 <= i < |URINE_PALETTE|
      ensures HexToRgb(URINE_PALETTE[i].hex) == REFERENCE_COLORS[i]
    {
      PaletteColor(i);
    }
  }

  /** The match is a palette entry, and no palette colour is strictly closer
      to the mean than it: ranking by `rgbDist` ranks by squared distance. */
  lemma {:induction false} BestIsClosest(palette: seq<Entry>, m: MeanRgb, sqrt: real -> real)
    requires |palette| >= 1 && IsSqrt(sqrt)
    ensures var best := MatchAgainst(palette, m, sqrt).best;
            && (exists i :: 0 <= i < |palette| && best == WithDist(palette[i], m, sqrt))
            && forall e :: e in palette ==> SqDist(m, HexToRgb(best.hex)) <= SqDist(m, HexToRgb(e.hex))
  {
    var measured := Measure(palette, m, sqrt);
    var best := MatchAgainst(palette, m, sqrt).best;
    SortByFirstIsLeast(measured, DistKey);
    assert best == SortBy(measured, DistKey)[0];
    var i :| 0 <= i < |measured| && measured[i] == best;
    var bestSq := SqDist(m, HexToRgb(palette[i].hex));
    assert best.dist == sqrt(bestSq);
    forall e | e in palette
      ensures bestSq <= SqDist(m, HexToRgb(e.hex))
    {
      var j :| 0 <= j < |palette| && palette[j] == e;
      assert DistKey(best) <= DistKey(measured[j]);
      SqDistZero(m, HexToRgb(palette[i].hex));
      SqDistZero(m, HexToRgb(e.hex));
      SqrtMonotone(bestSq, SqDist(m, HexToRgb(e.hex)), sqrt);
    }
  }

  /** Measuring keeps the levels in palette order. */
  lemma MeasuredLevels(palette: seq<Entry>, m: MeanRgb, sqrt: real -> real)
    requires IsSqrt(sqrt)
    requires forall i, j :: 0 <= i < j < |palette| ==> palette[i].level < palette[j].level
    ensures var measured := Measure(palette, m, sqrt);
            forall i, j :: 0 <= i < j < |measured| ==> LevelOf(measured[i]) < LevelOf(measured[j])
  {
    var measured := Measure(palette, m, sqrt);
    forall i, j | 0 <= i < j < |measured|
      ensures LevelOf(measured[i]) < LevelOf(measured[j])
    {
      assert measured[i].level == palette[i].level;
      assert measured[j].level == palette[j].level;
    }
  }

  /** Ties in distance keep palette order: with strictly increasing levels,
      equally distant entries appear in `ranked` by ascending level. */
  lemma {:induction false} TiesInLevelOrder(palette: seq<Entry>, m: MeanRgb, sqrt: real -> real)
    requires |palette| >= 1 && IsSqrt(sqrt)
    requires forall i, j :: 0 <= i < j < |palette| ==> palette[i].level < palette[j].level
    ensures var ranked := MatchAgainst(palette, m, sqrt).ranked;
            forall i, j :: 0 <= i < j < |ranked| && ranked[i].dist == ranked[j].dist ==>
              ranked[i].level < ranked[j].level
  {
    MeasuredLevels(palette, m, sqrt);
    SortByBreaksTiesByOrd(Measure(palette, m, sqrt), DistKey, LevelOf);
    EqualDistInLevelOrder(MatchAgainst(palette, m, sqrt).ranked);
  }

  lemma EqualDistInLevelOrder(ranked: seq<Ranked>)
    requires SortedByThen(ranked, DistKey, LevelOf)
    ensures forall i, j :: 0 <= i < j < |ranked| && ranked[i].dist == ranked[j].dist ==>
              ranked[i].level < ranked[j].level
  {
    forall i, j | 0 <= i < j < |ranked| && ranked[i].dist == ranked[j].dist
      ensures ranked[i].level < ranked[j].level
    {
      assert DistKey(ranked[i]) == DistKey(ranked[j]);
    }
  }

  /** With eight entries a runner-up always exists: the gap is the
      non-negative difference of the two smallest distances, and the
      confidence is `min(1, gap / 40)`. */
  lemma MatchPaletteConfidence(m: MeanRgb, sqrt: real -> real)
    requires IsSqrt(sqrt)
    ensures var r := MatchPalette(m, sqrt);
            && |r.ranked| == 8
            && r.ranked[1].dist - r.best.dist >= 0.0
            && r.confidence == RealMin(1.0, (r.ranked[1].dist - r.best.dist) / 40.0)
  {
    var r := MatchPalette(m, sqrt);
    assert DistKey(r.ranked[0]) <= DistKey(r.ranked[1]);
  }

  lemma HeadPairCount<T>(r: seq<T>)
    requires |r| >= 2 && r[0] == r[1]
    ensures multiset(r)[r[0]] >= 2
  {
    assert r == [r[0], r[1]] + r[2..];
  }

  lemma {:induction false} CountOfUnique<T>(s: seq<T>, k: nat)
    requires k < |s|
    requires forall j :: 0 <= j < |s| && j != k ==> s[j] != s[k]
    ensures multiset(s)[s[k]] == 1
  {
    var x := s[k];
    assert s == s[..k] + [x] + s[k + 1..];
    assert x !in s[..k] && x !in s[k + 1..];
    assert multiset(s[..k])[x] == 0 && multiset(s[k + 1..])[x] == 0;
  }

  /** `sqrt` undoes squaring on non-negative reals. */
  lemma SqrtOfSquare(y: real, sqrt: real -> real)
    requires IsSqrt(sqrt) && y >= 0.0
    ensures sqrt(Sq(y)) == y
  {
    SquareSign(y);
    SquareStrictlyIncreasing(sqrt(Sq(y)), y);
    SquareStrictlyIncreasing(y, sqrt(Sq(y)));
  }

  /** If entry `k` is at distance 0 and every other entry at least 40 away,
      stable sorting puts `k` first and a runner-up at least 40 away second. */
  lemma {:induction false} UniqueNearestFirst(measured: seq<Ranked>, k: nat)
    requires k < |measured| && |measured| >= 2 && measured[k].dist == 0.0
    requires forall j :: 0 <= j < |measured| && j != k ==> measured[j].dist >= 40.0
    ensures var ranked := SortBy(measured, DistKey);
            ranked[0] == measured[k] && ranked[1].dist >= 40.0
  {
    var ranked := SortBy(measured, DistKey);
    SortByFirstIsLeast(measured, DistKey);
    var b :| 0 <= b < |measured| && measured[b] == ranked[0];
    assert DistKey(ranked[0]) <= DistKey(measured[k]);
    assert b == k;
    CountOfUnique(measured, k);
    if ranked[1] == ranked[0] {
      HeadPairCount(ranked);
      assert false;
    }
    assert ranked[1] in multiset(measured);
    var c :| 0 <= c < |measured| && measured[c] == ranked[1];
    assert c != k;
  }

  /** If the mean is the colour of entry `k` and every other entry's colour
      is at squared distance at least 1600 (distance 40) from it, the match
      is entry `k` at distance 0 with confidence 1. */
  lemma {:induction false} ExactColorMatches(palette: seq<Entry>, k: nat, m: MeanRgb, sqrt: real -> real)
    requires k < |palette| && |palette| >= 2 && IsSqrt(sqrt)
    requires m == AsMean(HexToRgb(palette[k].hex))
    requires forall j :: 0 <= j < |palette| && j != k ==> SqDist(m, HexToRgb(palette[j].hex)) >= 1600.0
    ensures var r := MatchAgainst(palette, m, sqrt);
            && r.best == WithDist(palette[k], m, sqrt)
            && r.best.level == palette[k].level
            && r.best.dist == 0.0
            && r.confidence == 1.0
  {
    var measured := Measure(palette, m, sqrt);
    MeasuredExact(palette, k, m, sqrt);
    UniqueNearestFirst(measured, k);
    var ranked := SortBy(measured, DistKey);
    assert ranked[1].dist - ranked[0].dist >= 40.0;
  }

  /** The distances `Measure` gives in the situation of `ExactColorMatches`. */
  lemma MeasuredExact(palette: seq<Entry>, k: nat, m: MeanRgb, sqrt: real -> real)
    requires k < |palette| && IsSqrt(sqrt)
    requires m == AsMean(HexToRgb(palette[k].hex))
    requires forall j :: 0 <= j < |palette| && j != k ==> SqDist(m, HexToRgb(palette[j].hex)) >= 1600.0
    ensures var measured := Measure(palette, m, sqrt);
            && measured[k] == WithDist(palette[k], m, sqrt)
            && measured[k].dist == 0.0
            && forall j :: 0 <= j < |measured| && j != k ==> measured[j].dist >= 40.0
  {
    var measured := Measure(palette, m, sqrt);
    SqrtOfSquare(0.0, sqrt);
    SqrtOfSquare(40.0, sqrt);
    SqDistZero(m, HexToRgb(palette[k].hex));
    forall j | 0 <= j < |palette| && j != k
      ensures measured[j].dist >= 40.0
    {
      SqrtMonotone(1600.0, SqDist(m, HexToRgb(palette[j].hex)), sqrt);
    }
  }

  /** Any two distinct reference colours are at squared distance >= 1600. */
  lemma ReferenceColorsApart()
    ensures forall j, k :: 0 <= j < 8 && 0 <= k < 8 && j != k ==>
      SqDist(AsMean(REFERENCE_COLORS[k]), REFERENCE_COLORS[j]) >= 1600.0
  {
  }

  /** `ExactColorMatches` for a palette whose colours are `colors`, pairwise
      at squared distance at least 1600, and whose entry `i` has level
      `i + 1`. */
  lemma {:induction false} LevelColorMatches(palette: seq<Entry>, colors: seq<Rgb>, k: nat, sqrt: real -> real)
    requires 1 <= k <= |palette| && |palette| >= 2 && |colors| == |palette| && IsSqrt(sqrt)
    requires forall i :: 0 <= i < |palette| ==> palette[i].level == i + 1
    requires forall i :: 0 <= i < |palette| ==> HexToRgb(palette[i].hex) == colors[i]
    requires forall j :: 0 <= j < |colors| && j != k - 1 ==> SqDist(AsMean(colors[k - 1]), colors[j]) >= 1600.0
    ensures var r := MatchAgainst(palette, AsMean(colors[k - 1]), sqrt);
            r.best.level == k && r.best.dist == 0.0 && r.confidence == 1.0
  {
    var m := AsMean(colors[k - 1]);
    assert m == AsMean(HexToRgb(palette[k - 1].hex));
    forall j | 0 <= j < |palette| && j != k - 1
      ensures SqDist(m, HexToRgb(palette[j].hex)) >= 1600.0
    {
      assert HexToRgb(palette[j].hex) == colors[j];
    }
    ExactColorMatches(palette, k - 1, m, sqrt);
  }

  /** A mean equal to palette colour `k` is matched to level `k` at
      distance 0 with confidence 1. */
  lemma PaletteColorMatchesItself(k: nat, sqrt: real -> real)
    requires 1 <= k <= 8 && IsSqrt(sqrt)
    ensures var r := MatchPalette(AsMean(REFERENCE_COLORS[k - 1]), sqrt);
            r.best.level == k && r.best.dist == 0.0 && r.confidence == 1.0
  {
    PaletteLevels();
    PaletteColors();
    ReferenceColorsApart();
    LevelColorMatches(URINE_PALETTE, REFERENCE_COLORS, k, sqrt);
  }

  /** In a palette whose entry `i` has level `i + 1`, the match reports a
      level of the palette together with that level's label. */
  lemma {:induction false} BestLevelNamed(palette: seq<Entry>, m: MeanRgb, sqrt: real -> real)
    requires |palette| >= 1 && IsSqrt(sqrt)
    requires forall i :: 0 <= i < |palette| ==> palette[i].level == i + 1
    ensures var best := MatchAgainst(palette, m, sqrt).best;
            1 <= best.level <= |palette| && best.name == palette[best.level - 1].name
  {
    BestIsClosest(palette, m, sqrt);
    var best := MatchAgainst(palette, m, sqrt).best;
    var i :| 0 <= i < |palette| && best == WithDist(palette[i], m, sqrt);
  }

  /** The match against the eight-colour palette reports a level from 1 to 8
      together with that level's label, and a confidence in [0, 1]. */
  lemma MatchPaletteBest(m: MeanRgb, sqrt: real -> real)
    requires IsSqrt(sqrt)
    ensures var r := MatchPalette(m, sqrt);
            && 1 <= r.best.level <= 8
            && r.best.name == LevelName(r.best.level)
            && 0.0 <= r.confidence <= 1.0
  {
    PaletteLevels();
    BestLevelNamed(URINE_PALETTE, m, sqrt);
  }

  /** `ranked` holds each entry of `palette`, with its distance to `m`. */
  ghost predicate RankedIs(ranked: seq<Ranked>, palette: seq<Entry>, m: MeanRgb, sqrt: real -> real)
    requires IsSqrt(sqrt)
  {
    && |ranked| == |palette|
    && (forall i :: 0 <= i < |palette| ==> WithDist(palette[i], m, sqrt) in ranked)
    && (forall j :: 0 <= j < |ranked| ==>
          exists i :: 0 <= i < |palette| && ranked[j] == WithDist(palette[i], m, sqrt))
  }

  /** A reordering of the measured palette holds each entry with its
      distance. */
  lemma PermutedMeasure(ranked: seq<Ranked>, palette: seq<Entry>, m: MeanRgb, sqrt: real -> real)
    requires IsSqrt(sqrt)
    requires multiset(ranked) == multiset(Measure(palette, m, sqrt))
    ensures RankedIs(ranked, palette, m, sqrt)
  {
    var measured := Measure(palette, m, sqrt);
    assert |ranked| == |multiset(ranked)| == |measured|;
    forall i | 0 <= i < |palette|
      ensures WithDist(palette[i], m, sqrt) in ranked
    {
      assert measured[i] in multiset(measured);
    }
    forall j | 0 <= j < |ranked|
      ensures exists i :: 0 <= i < |palette| && ranked[j] == WithDist(palette[i], m, sqrt)
    {
      assert ranked[j] in multiset(ranked);
      var i :| 0 <= i < |measured| && measured[i] == ranked[j];
    }
  }

  /** `ranked` is the measured palette, reordered. */
  lemma MatchAgainstRanked(palette: seq<Entry>, m: MeanRgb, sqrt: real -> real)
    requires |palette| >= 1 && IsSqrt(sqrt)
    ensures RankedIs(MatchAgainst(palette, m, sqrt).ranked, palette, m, sqrt)
  {
    PermutedMeasure(MatchAgainst(palette, m, sqrt).ranked, palette, m, sqrt);
  }
}
