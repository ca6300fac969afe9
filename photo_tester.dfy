/** The photo tester page of `UrinePhotoTester.jsx`: its variant of the
    region analysis (an `ok`/`reason` result that also reports the mean
    brightness and saturation), the drawing of the photo and of the dashed
    target square, and the page state that `runAnalysis` updates.

    The tester's palette, `clamp`, `hexToRgb`, `rgbDist` and
    `matchPalette` are the same as those of `urineColorAnalysis.js`; they
    are `Palette` and `HexColor` here.  Its sampling loop is the same as
    well (`ColorAnalysis.CollectUsablePixels`); what differs is the
    accumulator, the result and the default region size.
 */
module PhotoTester {
  import opened Basics
  import opened StableSort
  import opened HexColor
  import opened Geometry
  import opened Palette
  import opened ColorAnalysis

  const TOO_FEW_PIXELS: string := "Not enough usable pixels (glare/shadow/too small region)."

  /** `{ ok: false, reason }` or
      `{ ok: true, region, meanRgb, brightness, saturation, usablePixels }`. */
  datatype TesterAnalysis =
    | Failed(reason: string)
    | Success(region: Region, meanRgb: MeanRgb, brightness: real, saturation: real, usablePixels: nat)

  /** What the tester's `analyzeCenterRegion` returns for the bytes `data`
      of the centred square of a `w` x `h` canvas. */
  function TesterAnalyzeRegion(w: int, h: int, regionSize: int, data: seq<Byte>): TesterAnalysis
    requires |data| % 4 == 0
  {
    var pixels := UsablePixels(data);
    if |pixels| < MIN_USABLE_PIXELS then Failed(TOO_FEW_PIXELS)
    else
      var core := Core(SortBy(pixels, Brightness));
      Success(CenterRegion(regionSize, w, h), Mean(core), Avg(core, Brightness), Avg(core, Saturation),
              |pixels|)
  }

  /** The tester's `reduce`: the channel sums and the sums of `v` and
      `sat`. */
  method SumAll(core: seq<Rgb>) returns (sumR: real, sumG: real, sumB: real, sumV: real, sumSat: real)
    ensures sumR == SumOf(core, Red) && sumG == SumOf(core, Green) && sumB == SumOf(core, Blue)
    ensures sumV == SumOf(core, Brightness) && sumSat == SumOf(core, Saturation)
  {
    sumR, sumG, sumB, sumV, sumSat := 0.0, 0.0, 0.0, 0.0, 0.0;
    var k := 0;
    while k < |core|
      invariant 0 <= k <= |core|
      invariant sumR == SumOf(core[..k], Red)
      invariant sumG == SumOf(core[..k], Green)
      invariant sumB == SumOf(core[..k], Blue)
      invariant sumV == SumOf(core[..k], Brightness)
      invariant sumSat == SumOf(core[..k], Saturation)
    {
      assert core[..k + 1][..k] == core[..k];
      var p := core[k];
      sumR, sumG, sumB := sumR + p.r as real, sumG + p.g as real, sumB + p.b as real;
      sumV, sumSat := sumV + Brightness(p), sumSat + Saturation(p);
      k := k + 1;
    }
    assert core[..k] == core;
  }

  /** `analyzeCenterRegion(canvas, regionSize)` of the tester page, whose
      default region is 120 pixels. */
  method TesterAnalyzeCenterRegion(data: seq<Byte>, w: int, h: int, regionSize: int := 120)
    returns (a: TesterAnalysis)
    requires w >= 1 && h >= 1 && regionSize >= 1
    requires SquareBuffer(data, Min3(regionSize, w, h))
    ensures |data| % 4 == 0 && a == TesterAnalyzeRegion(w, h, regionSize, data)
  {
    var size := Min3(regionSize, w, h);
    var x0 := (w - size) / 2;
    var y0 := (h - size) / 2;
    SquareBufferQuads(data, size);

    var pixels := CollectUsablePixels(data);
    if |pixels| < MIN_USABLE_PIXELS {
      return Failed(TOO_FEW_PIXELS);
    }
    var sorted := SortBy(pixels, Brightness);
    var trim := (|sorted| * 15) / 100;
    var core := sorted[trim..|sorted| - trim];
    assert core == Core(sorted);

    var sumR, sumG, sumB, sumV, sumSat := SumAll(core);
    var n := |core| as real;
    a := Success(Region(x0, y0, size), MeanRgb(sumR / n, sumG / n, sumB / n), sumV / n, sumSat / n,
                 |pixels|);
  }

  // ---------------------------------------------------------------------
  // Properties of the tester's analysis

  lemma {:induction false} SumOfBrightness(ps: seq<Rgb>)
    ensures SumOf(ps, Brightness) == (SumOf(ps, Red) + SumOf(ps, Green) + SumOf(ps, Blue)) / 3.0
  {
    if ps != [] {
      SumOfBrightness(ps[..|ps| - 1]);
    }
  }

  lemma ThirdOfQuotients(a: real, b: real, c: real, n: real)
    requires n > 0.0
    ensures ((a + b + c) / 3.0) / n == (a / n + b / n + c / n) / 3.0
  {
    var x, y, z := a / n, b / n, c / n;
    assert x * n == a && y * n == b && z * n == c;
    var q := ((a + b + c) / 3.0) / n;
    assert q * n == (a + b + c) / 3.0;
    assert ((x + y + z) / 3.0) * n == (a + b + c) / 3.0;
    assert (q - (x + y + z) / 3.0) * n == 0.0;
  }

  /** `brightness` is the brightness of `meanRgb`, `saturation` is in
      [0, 1], and the rest agrees with `urineColorAnalysis.js`: the tester
      succeeds exactly when the app's analysis is not `null`, with the same
      mean, pixel count and region. */
  lemma TesterAnalysisFacts(w: int, h: int, regionSize: int, data: seq<Byte>)
    requires |data| % 4 == 0
    ensures var t := TesterAnalyzeRegion(w, h, regionSize, data);
            var a := AnalyzeRegion(w, h, regionSize, data);
            && (t.Failed? <==> a.None?)
            && (t.Failed? ==> t.reason == TOO_FEW_PIXELS)
            && (t.Success? ==>
                  && t.brightness == (t.meanRgb.r + t.meanRgb.g + t.meanRgb.b) / 3.0
                  && 0.0 <= t.saturation <= 1.0
                  && t.meanRgb == a.value.meanRgb
                  && t.usablePixels == a.value.usablePixels
                  && t.region == a.value.region)
  {
    var pixels := UsablePixels(data);
    if |pixels| >= MIN_USABLE_PIXELS {
      var core := Core(SortBy(pixels, Brightness));
      SumOfBrightness(core);
      ThirdOfQuotients(SumOf(core, Red), SumOf(core, Green), SumOf(core, Blue), |core| as real);
      AvgWithin(core, Saturation, 0.0, 1.0);
    }
  }

  /** A square filled with one usable colour `c`, with at least 50
      pixels, reports `c` as the mean together with its brightness and
      saturation. */
  lemma {:induction false} TesterFilledRegion(w: int, h: int, regionSize: int, data: seq<Byte>, c: Rgb)
    requires |data| % 4 == 0 && |data| / 4 >= MIN_USABLE_PIXELS
    requires Filled(data, c) && Usable(c)
    ensures TesterAnalyzeRegion(w, h, regionSize, data)
              == Success(CenterRegion(regionSize, w, h), AsMean(c), Brightness(c), Saturation(c), |data| / 4)
  {
    FilledCore(data, c);
    var core := Core(SortBy(UsablePixels(data), Brightness));
    MeanOfConstant(core, c);
    AvgOfConstant(core, Brightness, c);
    AvgOfConstant(core, Saturation, c);
  }

  /** A sampled buffer filled with the colour of level `k`, for `k` from 2
      to 8, passes the filter, and its mean, the colour of level `k`, is matched
      to level `k` at distance 0 (`Palette.PaletteColorMatchesItself`). */
  lemma TesterFilledWithLevelColor(w: int, h: int, regionSize: int, data: seq<Byte>, k: nat)
    requires |data| % 4 == 0 && |data| / 4 >= MIN_USABLE_PIXELS
    requires 2 <= k <= 8 && Filled(data, REFERENCE_COLORS[k - 1])
    ensures var c := REFERENCE_COLORS[k - 1];
            TesterAnalyzeRegion(w, h, regionSize, data)
              == Success(CenterRegion(regionSize, w, h), AsMean(c), Brightness(c), Saturation(c), |data| / 4)
  {
    ReferenceColorsUsable();
    TesterFilledRegion(w, h, regionSize, data, REFERENCE_COLORS[k - 1]);
  }

  /** A sampled buffer filled with the level-1 colour, with white or with
      black fails with the tester's reason: every pixel is glare or shadow.
      On the page the buffer read back also holds the dashed overlay that
      `drawToCanvas` strokes over the square's border, so a uniform photo
      does not give a uniform buffer there. */
  lemma TesterFilledWithRejectedColor(w: int, h: int, regionSize: int, data: seq<Byte>, c: Rgb)
    requires |data| % 4 == 0 && Filled(data, c)
    requires c == REFERENCE_COLORS[0] || c == Rgb(255, 255, 255) || c == Rgb(0, 0, 0)
    ensures TesterAnalyzeRegion(w, h, regionSize, data) == Failed(TOO_FEW_PIXELS)
  {
    ReferenceColorsUsable();
    FilledPixels(data, c);
  }

  // ---------------------------------------------------------------------
  // drawToCanvas

  datatype CanvasSize = CanvasSize(width: nat, height: nat)

  /** What `drawToCanvas` draws: the photo's destination rectangle (`None`
      when it is not drawn), the dashed target square, and the position of
      the "Target area" caption. */
  datatype Drawing = Drawing(photo: Option<Rect>, overlay: Region, captionX: int, captionY: int)

  /** `drawToCanvas()`; `None` when the canvas or the image element is
      missing, in which case nothing is drawn. */
  function DrawToCanvas(canvas: Option<CanvasSize>, img: Option<ImageSize>, regionSize: int): Option<Drawing>
    requires canvas.Some? ==> canvas.value.width > 0 && canvas.value.height > 0
  {
    if canvas.None? || img.None? then None
    else
      var cw, ch := canvas.value.width, canvas.value.height;
      var overlay := CenterRegion(regionSize, cw, ch);
      var captionY := if overlay.y - 10 < 12 then overlay.y + 18 else overlay.y - 10;
      Some(Drawing(FitRect(img.value.naturalWidth, img.value.naturalHeight, cw, ch), overlay,
                   overlay.x + 8, captionY))
  }

  /** The tester's canvas. */
  const TESTER_CANVAS: CanvasSize := CanvasSize(CANVAS_WIDTH, CANVAS_HEIGHT)

  /** The dashed square is exactly the region the analysis samples and
      reports, and the caption's baseline is at least 12 pixels down, next
      to the square (10 above it, or 18 below its top edge when the square
      is too close to the top). */
  lemma OverlayIsSampledRegion(img: ImageSize, regionSize: int, data: seq<Byte>)
    requires |data| % 4 == 0
    ensures var d := DrawToCanvas(Some(TESTER_CANVAS), Some(img), regionSize);
            var t := TesterAnalyzeRegion(CANVAS_WIDTH, CANVAS_HEIGHT, regionSize, data);
            && d.Some?
            && (t.Success? ==> t.region == d.value.overlay)
            && d.value.captionY >= 12
            && (d.value.captionY == d.value.overlay.y - 10 || d.value.captionY == d.value.overlay.y + 18)
  {
  }

  // ---------------------------------------------------------------------
  // The page state

  /** `{ ...analysis, match, ranked, confidence }`. */
  datatype TesterResult = TesterResult(region: Region, meanRgb: MeanRgb, brightness: real, saturation: real,
                                       usablePixels: nat, matched: Ranked, ranked: seq<Ranked>,
                                       confidence: real)

  /** The `error` and `result` that `runAnalysis` leaves for the bytes
      `data` of the sampled square. */
  function RunOutcome(data: seq<Byte>, regionSize: int, sqrt: real -> real): (string, Option<TesterResult>)
    requires |data| % 4 == 0 && IsSqrt(sqrt)
  {
    OutcomeOf(TesterAnalyzeRegion(CANVAS_WIDTH, CANVAS_HEIGHT, regionSize, data), sqrt)
  }

  /** The `error` and `result` for the analysis `t`. */
  function OutcomeOf(t: TesterAnalysis, sqrt: real -> real): (string, Option<TesterResult>)
    requires IsSqrt(sqrt)
  {
    match t
    case Failed(reason) => (if reason != "" then reason else "Analysis failed.", None)
    case Success(region, mean, v, sat, n) =>
      var m := MatchPalette(mean, sqrt);
      ("", Some(TesterResult(region, mean, v, sat, n, m.best, m.ranked, m.confidence)))
  }

  /** For an analysis that fails with a non-empty reason, the error is that
      reason and there is no result; otherwise there is no error, and the
      result carries the analysis together with its match: the first ranked
      entry, a palette level with its label, and `ranked` holding the eight
      palette entries with their distances. */
  lemma OutcomeOfFacts(t: TesterAnalysis, sqrt: real -> real)
    requires IsSqrt(sqrt)
    requires t.Failed? ==> t.reason != ""
    ensures var o := OutcomeOf(t, sqrt);
            && (t.Failed? ==> o.0 == t.reason && o.1.None?)
            && (t.Success? ==>
                  var r := o.1.value;
                  && o.0 == "" && o.1.Some?
                  && r.region == t.region && r.meanRgb == t.meanRgb && r.usablePixels == t.usablePixels
                  && r.brightness == t.brightness && r.saturation == t.saturation
                  && r.matched == r.ranked[0]
                  && 1 <= r.matched.level <= 8
                  && r.matched.name == LevelName(r.matched.level)
                  && 0.0 <= r.confidence <= 1.0
                  && RankedIs(r.ranked, URINE_PALETTE, r.meanRgb, sqrt))
  {
    if t.Success? {
      var m := MatchPalette(t.meanRgb, sqrt);
      MatchPaletteBest(t.meanRgb, sqrt);
      MatchAgainstRanked(URINE_PALETTE, t.meanRgb, sqrt);
      assert OutcomeOf(t, sqrt)
          == ("", Some(TesterResult(t.region, t.meanRgb, t.brightness, t.saturation, t.usablePixels,
                                    m.best, m.ranked, m.confidence)));
    } else {
      assert OutcomeOf(t, sqrt) == (t.reason, None);
    }
  }

  /** The tester's analysis fails, with its fixed reason, exactly when
      fewer than 50 pixels survive the filter. */
  lemma TesterFailedIffFewPixels(w: int, h: int, regionSize: int, data: seq<Byte>)
    requires |data| % 4 == 0
    ensures var t := TesterAnalyzeRegion(w, h, regionSize, data);
            && (t.Failed? <==> |UsablePixels(data)| < MIN_USABLE_PIXELS)
            && (t.Failed? ==> t.reason == TOO_FEW_PIXELS)
  {
  }

  /** After `runAnalysis` exactly one of `error` and `result` is set.  The
      error is the tester's reason, given exactly when fewer than 50 pixels
      survive the filter; a result's match is the first ranked entry, a
      palette level with its label, and `ranked` holds the eight palette
      entries with their distances. */
  lemma RunOutcomeFacts(data: seq<Byte>, regionSize: int, sqrt: real -> real)
    requires |data| % 4 == 0 && IsSqrt(sqrt)
    ensures var o := RunOutcome(data, regionSize, sqrt);
            && (o.1.None? <==> o.0 != "")
            && (o.1.None? <==> |UsablePixels(data)| < MIN_USABLE_PIXELS)
            && (o.0 != "" ==> o.0 == TOO_FEW_PIXELS)
            && (o.1.Some? ==>
                  var r := o.1.value;
                  && r.matched == r.ranked[0]
                  && 1 <= r.matched.level <= 8
                  && r.matched.name == LevelName(r.matched.level)
                  && 0.0 <= r.confidence <= 1.0
                  && RankedIs(r.ranked, URINE_PALETTE, r.meanRgb, sqrt))
  {
    var t := TesterAnalyzeRegion(CANVAS_WIDTH, CANVAS_HEIGHT, regionSize, data);
    TesterFailedIffFewPixels(CANVAS_WIDTH, CANVAS_HEIGHT, regionSize, data);
    OutcomeOfFacts(t, sqrt);
    assert RunOutcome(data, regionSize, sqrt) == OutcomeOf(t, sqrt);
  }

  /** The tester page's state: the slider value, the error line and the
      result panel. */
  class TesterPage {
    var regionSize: int
    var error: string
    var result: Option<TesterResult>

    ghost predicate Valid()
      reads this
    {
      regionSize >= 1
    }

    /** The initial state: a 140-pixel target, no error and no result. */
    constructor ()
      ensures Valid() && regionSize == 140 && error == "" && result == None
    {
      regionSize := 140;
      error := "";
      result := None;
    }

    /** The "Target size" slider, which ranges over 80 to 220. */
    method SetRegionSize(v: int)
      requires 80 <= v <= 220
      modifies this
      ensures Valid() && regionSize == v && error == old(error) && result == old(result)
    {
      regionSize := v;
    }

    /** `runAnalysis()`.  `canvas` is `None` when the canvas element is
        missing, and otherwise the bytes of the square the analysis
        samples, as they are after `drawToCanvas` (photo and dashed
        overlay both drawn). */
    method RunAnalysis(canvas: Option<seq<Byte>>, sqrt: real -> real)
      requires Valid() && IsSqrt(sqrt)
      requires canvas.Some? ==> SquareBuffer(canvas.value, Min3(regionSize, CANVAS_WIDTH, CANVAS_HEIGHT))
      modifies this
      ensures Valid() && regionSize == old(regionSize)
      ensures canvas.None? ==> error == "" && result == None
      ensures canvas.Some? ==> |canvas.value| % 4 == 0 && (error, result) == RunOutcome(canvas.value, regionSize, sqrt)
    {
      error := "";
      result := None;
      if canvas.None? {
        return;
      }
      var analysis := TesterAnalyzeCenterRegion(canvas.value, CANVAS_WIDTH, CANVAS_HEIGHT, regionSize);
      if analysis.Failed? {
        error := if analysis.reason != "" then analysis.reason else "Analysis failed.";
        return;
      }
      var matched := MatchPalette(analysis.meanRgb, sqrt);
      result := Some(TesterResult(analysis.region, analysis.meanRgb, analysis.brightness, analysis.saturation,
                                  analysis.usablePixels, matched.best, matched.ranked, matched.confidence));
    }
  }
}
