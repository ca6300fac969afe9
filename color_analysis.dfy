/** The pixel side of the classifier of `urineColorAnalysis.js`: the filter
    on the RGBA bytes of the centred square, the brightness sort, the 15%
    trim, the channel means, and the public `analyzeUrineFile` result.

    A pixel buffer is a `seq<Byte>` of RGBA quadruples, as `getImageData`
    returns it.  Means are exact reals; the sort is the stable sort of
    `StableSort`.
 */
module ColorAnalysis {
  import opened Basics
  import opened StableSort
  import opened HexColor
  import opened Geometry
  import opened Palette

  /** Fewer kept pixels than this and the analysis gives up. */
  const MIN_USABLE_PIXELS: nat := 50

  // ---------------------------------------------------------------------
  // Real quotients

  lemma DivLess(d: real, m: real, t: real)
    requires m > 0.0
    ensures d / m < t <==> d < t * m
  {
    var q := d / m;
    assert q * m == d;
    if q < t { assert q * m < t * m; }
    if d < t * m { assert q * m < t * m; }
  }

  lemma Ratio(a: real, m: real)
    requires 0.0 <= a <= m && m > 0.0
    ensures 0.0 <= a / m <= 1.0
  {
    assert a / m * m == a;
  }

  // ---------------------------------------------------------------------
  // One pixel

  /** Pixel `k` of an RGBA buffer; its alpha byte is not read. */
  function PixelAt(data: seq<Byte>, k: nat): Rgb
    requires k < |data| / 4
  {
    Rgb(data[4 * k], data[4 * k + 1], data[4 * k + 2])
  }

  /** `v = (r + g + b) / 3`. */
  function Brightness(p: Rgb): real
  {
    (p.r + p.g + p.b) as real / 3.0
  }

  function MaxC(p: Rgb): int
  {
    if p.r >= p.g && p.r >= p.b then p.r else if p.g >= p.b then p.g else p.b
  }

  function MinC(p: Rgb): int
  {
    if p.r <= p.g && p.r <= p.b then p.r else if p.g <= p.b then p.g else p.b
  }

  /** `maxC === 0 ? 0 : (maxC - minC) / maxC`. */
  function Saturation(p: Rgb): (s: real)
    ensures 0.0 <= s <= 1.0
  {
    if MaxC(p) == 0 then 0.0
    else
      Ratio((MaxC(p) - MinC(p)) as real, MaxC(p) as real);
      (MaxC(p) - MinC(p)) as real / MaxC(p) as real
  }

  /** The filter of the sampling loop: not glare (`v > 245`), not shadow
      (`v < 25`), and not a bright near-neutral highlight (`v > 220` with
      saturation below 0.08). */
  predicate Usable(p: Rgb)
  {
    var v := Brightness(p);
    if v > 245.0 then false
    else if v < 25.0 then false
    else !(v > 220.0 && Saturation(p) < 0.08)
  }

  /** The filter over the integers: with `s = r + g + b` a pixel is kept iff
      `75 <= s <= 735` and not (`s > 660` and `100 (max - min) < 8 max`). */
  lemma UsableIntegerForm(p: Rgb)
    ensures Usable(p) <==>
      var s := p.r + p.g + p.b;
      75 <= s <= 735 && !(s > 660 && 100 * (MaxC(p) - MinC(p)) < 8 * MaxC(p))
  {
    var hi, lo := MaxC(p), MinC(p);
    if hi > 0 {
      DivLess((hi - lo) as real, hi as real, 0.08);
      assert (hi - lo) as real < 0.08 * hi as real <==> 100 * (hi - lo) < 8 * hi;
    }
  }

  // ---------------------------------------------------------------------
  // The sampling loop

  /** The pixels the loop pushes, in buffer order. */
  function UsablePixels(data: seq<Byte>): (r: seq<Rgb>)
    requires |data| % 4 == 0
    ensures |r| <= |data| / 4
    ensures forall i :: 0 <= i < |r| ==> Usable(r[i])
    decreases |data|
  {
    if |data| == 0 then []
    else
      var n := |data|;
      var p := Rgb(data[n - 4], data[n - 3], data[n - 2]);
      UsablePixels(data[..n - 4]) + (if Usable(p) then [p] else [])
  }

  /** A pixel is pushed iff it is usable and occurs in the buffer. */
  lemma {:induction false} UsablePixelsMembers(data: seq<Byte>, x: Rgb)
    requires |data| % 4 == 0
    ensures x in UsablePixels(data) <==>
      Usable(x) && exists k :: 0 <= k < |data| / 4 && PixelAt(data, k) == x
    decreases |data|
  {
    if |data| > 0 {
      var n := |data|;
      var prefix := data[..n - 4];
      UsablePixelsMembers(prefix, x);
      forall k | 0 <= k < |prefix| / 4
        ensures PixelAt(prefix, k) == PixelAt(data, k)
      {
      }
      assert PixelAt(data, n / 4 - 1) == Rgb(data[n - 4], data[n - 3], data[n - 2]);
      if exists k :: 0 <= k < n / 4 && PixelAt(data, k) == x {
        var k :| 0 <= k < n / 4 && PixelAt(data, k) == x;
        if k < n / 4 - 1 {
          assert PixelAt(prefix, k) == x;
        }
      }
    }
  }

  /** Only the colour bytes matter: buffers that differ in alpha bytes only
      give the same pixels. */
  lemma {:induction false} AlphaIgnored(data: seq<Byte>, other: seq<Byte>)
    requires |data| % 4 == 0 && |other| == |data|
    requires forall i :: 0 <= i < |data| && i % 4 != 3 ==> data[i] == other[i]
    ensures UsablePixels(data) == UsablePixels(other)
    decreases |data|
  {
    if |data| > 0 {
      var n := |data|;
      assert (n - 4) % 4 == 0 && (n - 3) % 4 == 1 && (n - 2) % 4 == 2;
      AlphaIgnored(data[..n - 4], other[..n - 4]);
    }
  }

  /** Every pixel of the buffer is `c`. */
  ghost predicate Filled(data: seq<Byte>, c: Rgb)
  {
    forall k :: 0 <= k < |data| / 4 ==> PixelAt(data, k) == c
  }

  /** A buffer filled with one colour yields that colour once per pixel, or
      nothing when the colour is filtered out. */
  lemma {:induction false} FilledPixels(data: seq<Byte>, c: Rgb)
    requires |data| % 4 == 0 && Filled(data, c)
    ensures |UsablePixels(data)| == if Usable(c) then |data| / 4 else 0
    ensures forall i :: 0 <= i < |UsablePixels(data)| ==> UsablePixels(data)[i] == c
    decreases |data|
  {
    if |data| > 0 {
      var n := |data|;
      var prefix := data[..n - 4];
      assert |prefix| / 4 == n / 4 - 1;
      forall k | 0 <= k < |prefix| / 4
        ensures PixelAt(prefix, k) == c
      {
        assert PixelAt(prefix, k) == PixelAt(data, k);
      }
      FilledPixels(prefix, c);
      assert PixelAt(data, n / 4 - 1) == Rgb(data[n - 4], data[n - 3], data[n - 2]);
    }
  }

  // ---------------------------------------------------------------------
  // Trim and mean

  /** `Math.floor(n * 0.15)`, over the integers. */
  function TrimCount(n: nat): (t: nat)
    ensures 2 * t <= n
    ensures n >= 1 ==> 2 * t < n
  {
    (n * 15) / 100
  }

  /** In exact arithmetic the integer trim is the floor of `0.15 n`. */
  lemma TrimIsFloor(n: nat)
    ensures (n as real * 0.15).Floor == TrimCount(n)
  {
    assert n as real * 0.15 == (n * 15) as real / 100.0;
    FloorOfQuotient(n * 15, 100);
  }

  /** `pixels.slice(trim, pixels.length - trim)`. */
  function Core(s: seq<Rgb>): (r: seq<Rgb>)
    ensures |r| == |s| - 2 * TrimCount(|s|)
    ensures |s| >= 1 ==> |r| >= 1
  {
    s[TrimCount(|s|)..|s| - TrimCount(|s|)]
  }

  /** The pixels dropped below the core are no brighter than any core pixel,
      and those dropped above it no darker. */
  lemma CoreBetweenTrimmed(s: seq<Rgb>)
    requires SortedBy(s, Brightness)
    ensures var t := TrimCount(|s|);
            && (forall i, j :: 0 <= i < t <= j < |s| - t ==> Brightness(s[i]) <= Brightness(s[j]))
            && (forall i, j :: t <= i < |s| - t <= j < |s| ==> Brightness(s[i]) <= Brightness(s[j]))
  {
  }

  function Red(p: Rgb): real { p.r as real }
  function Green(p: Rgb): real { p.g as real }
  function Blue(p: Rgb): real { p.b as real }

  /** The sum of `f` over `ps`, accumulated left to right like `reduce`. */
  function SumOf(ps: seq<Rgb>, f: Rgb -> real): real
  {
    if ps == [] then 0.0 else SumOf(ps[..|ps| - 1], f) + f(ps[|ps| - 1])
  }

  function Avg(ps: seq<Rgb>, f: Rgb -> real): real
    requires |ps| >= 1
  {
    SumOf(ps, f) / |ps| as real
  }

  /** The channel means of `core`. */
  function Mean(core: seq<Rgb>): MeanRgb
    requires |core| >= 1
  {
    MeanRgb(Avg(core, Red), Avg(core, Green), Avg(core, Blue))
  }

  lemma {:induction false} SumOfBounds(ps: seq<Rgb>, f: Rgb -> real, lo: real, hi: real)
    requires forall i :: 0 <= i < |ps| ==> lo <= f(ps[i]) <= hi
    ensures |ps| as real * lo <= SumOf(ps, f) <= |ps| as real * hi
  {
    if ps != [] {
      var n := |ps|;
      SumOfBounds(ps[..n - 1], f, lo, hi);
      assert n as real * lo == (n - 1) as real * lo + lo;
      assert n as real * hi == (n - 1) as real * hi + hi;
    }
  }

  /** An average lies between every lower and every upper bound of its terms. */
  lemma AvgWithin(ps: seq<Rgb>, f: Rgb -> real, lo: real, hi: real)
    requires |ps| >= 1
    requires forall i :: 0 <= i < |ps| ==> lo <= f(ps[i]) <= hi
    ensures lo <= Avg(ps, f) <= hi
  {
    SumOfBounds(ps, f, lo, hi);
    QuotientBetween(SumOf(ps, f), |ps| as real, lo, hi);
  }

  /** An index of a smallest and one of a largest value of `f` on `ps`. */
  lemma {:induction false} Extremes(ps: seq<Rgb>, f: Rgb -> real) returns (lo: nat, hi: nat)
    requires |ps| >= 1
    ensures lo < |ps| && hi < |ps|
    ensures forall i :: 0 <= i < |ps| ==> f(ps[lo]) <= f(ps[i]) <= f(ps[hi])
  {
    if |ps| == 1 {
      lo, hi := 0, 0;
    } else {
      var n := |ps|;
      lo, hi := Extremes(ps[..n - 1], f);
      assert forall i :: 0 <= i < n - 1 ==> ps[..n - 1][i] == ps[i];
      if f(ps[n - 1]) < f(ps[lo]) { lo := n - 1; }
      if f(ps[n - 1]) > f(ps[hi]) { hi := n - 1; }
    }
  }

  /** The average of `f` lies between its smallest and its largest term. */
  lemma AvgBetweenExtremes(ps: seq<Rgb>, f: Rgb -> real)
    requires |ps| >= 1
    ensures exists i, j :: 0 <= i < |ps| && 0 <= j < |ps| && f(ps[i]) <= Avg(ps, f) <= f(ps[j])
  {
    var lo, hi := Extremes(ps, f);
    AvgWithin(ps, f, f(ps[lo]), f(ps[hi]));
  }

  lemma {:induction false} SumOfConstant(ps: seq<Rgb>, f: Rgb -> real, c: Rgb)
    requires forall i :: 0 <= i < |ps| ==> ps[i] == c
    ensures SumOf(ps, f) == |ps| as real * f(c)
  {
    if ps != [] {
      var n := |ps|;
      SumOfConstant(ps[..n - 1], f, c);
      assert n as real * f(c) == (n - 1) as real * f(c) + f(c);
    }
  }

  /** Averaging a constant colour gives that colour's value. */
  lemma AvgOfConstant(ps: seq<Rgb>, f: Rgb -> real, c: Rgb)
    requires |ps| >= 1
    requires forall i :: 0 <= i < |ps| ==> ps[i] == c
    ensures Avg(ps, f) == f(c)
  {
    SumOfConstant(ps, f, c);
  }

  /** The mean of pixels that all have colour `c` is `c`. */
  lemma MeanOfConstant(ps: seq<Rgb>, c: Rgb)
    requires |ps| >= 1
    requires forall i :: 0 <= i < |ps| ==> ps[i] == c
    ensures Mean(ps) == AsMean(c)
  {
    AvgOfConstant(ps, Red, c);
    AvgOfConstant(ps, Green, c);
    AvgOfConstant(ps, Blue, c);
  }

  /** Every channel of a mean of pixels is in [0, 255]. */
  lemma MeanInRange(ps: seq<Rgb>)
    requires |ps| >= 1
    ensures var m := Mean(ps);
            0.0 <= m.r <= 255.0 && 0.0 <= m.g <= 255.0 && 0.0 <= m.b <= 255.0
  {
    AvgWithin(ps, Red, 0.0, 255.0);
    AvgWithin(ps, Green, 0.0, 255.0);
    AvgWithin(ps, Blue, 0.0, 255.0);
  }

  // ---------------------------------------------------------------------
  // analyzeCenterRegion

  /** `{ meanRgb, usablePixels, region }`. */
  datatype Analysis = Analysis(meanRgb: MeanRgb, usablePixels: nat, region: Region)

  /** What `analyzeCenterRegion` returns for the bytes `data` of the sampled
      square (`None` is `null`). */
  function AnalyzeRegion(canvasW: int, canvasH: int, regionSize: int, data: seq<Byte>): Option<Analysis>
    requires |data| % 4 == 0
  {
    var pixels := UsablePixels(data);
    if |pixels| < MIN_USABLE_PIXELS then None
    else Some(Analysis(Mean(Core(SortBy(pixels, Brightness))), |pixels|,
                       CenterRegion(regionSize, canvasW, canvasH)))
  }

  /** The bytes `getImageData` returns for a square of side `size`. */
  ghost predicate SquareBuffer(data: seq<Byte>, size: int)
  {
    size >= 1 && |data| == 4 * (size * size)
  }

  lemma SquareBufferQuads(data: seq<Byte>, size: int)
    requires SquareBuffer(data, size)
    ensures |data| % 4 == 0 && |data| / 4 == size * size
  {
    var q := size * size;
    assert |data| == 4 * q;
  }

  /** One more step of the loop: the pixel at byte `i` is pushed iff it is
      usable. */
  lemma UsablePixelsStep(data: seq<Byte>, i: nat)
    requires i % 4 == 0 && i + 4 <= |data|
    ensures var p := Rgb(data[i], data[i + 1], data[i + 2]);
            UsablePixels(data[..i + 4]) == UsablePixels(data[..i]) + (if Usable(p) then [p] else [])
  {
    assert data[..i + 4][..i] == data[..i];
  }

  /** The next pixel of a buffer of whole quadruples starts 4 bytes on. */
  lemma NextQuad(i: int, n: int)
    requires 0 <= i < n && i % 4 == 0 && n % 4 == 0
    ensures (i + 4) % 4 == 0 && i + 4 <= n
  {
  }

  /** The sampling loop: walks the buffer four bytes at a time and pushes
      every pixel that is neither glare, shadow nor a bright near-neutral
      highlight. */
  method CollectUsablePixels(data: seq<Byte>) returns (pixels: seq<Rgb>)
    requires |data| % 4 == 0
    ensures pixels == UsablePixels(data)
  {
    pixels := [];
    var i := 0;
    while i < |data|
      invariant 0 <= i <= |data| && i % 4 == 0
      invariant pixels == UsablePixels(data[..i])
    {
      NextQuad(i, |data|);
      var p := Rgb(data[i], data[i + 1], data[i + 2]);
      var v := Brightness(p);
      UsablePixelsStep(data, i);
      if v > 245.0 {
        // glare
      } else if v < 25.0 {
        // shadow
      } else {
        var sat := Saturation(p);
        if v > 220.0 && sat < 0.08 {
          // bright, nearly neutral
        } else {
          pixels := pixels + [p];
        }
      }
      i := i + 4;
    }
    assert data[..i] == data;
  }

  /** The `reduce` over the core: the three channel sums. */
  method SumChannels(core: seq<Rgb>) returns (sumR: real, sumG: real, sumB: real)
    ensures sumR == SumOf(core, Red) && sumG == SumOf(core, Green) && sumB == SumOf(core, Blue)
  {
    sumR, sumG, sumB := 0.0, 0.0, 0.0;
    var k := 0;
    while k < |core|
      invariant 0 <= k <= |core|
      invariant sumR == SumOf(core[..k], Red)
      invariant sumG == SumOf(core[..k], Green)
      invariant sumB == SumOf(core[..k], Blue)
    {
      assert core[..k + 1][..k] == core[..k];
      sumR, sumG, sumB := sumR + core[k].r as real, sumG + core[k].g as real, sumB + core[k].b as real;
      k := k + 1;
    }
    assert core[..k] == core;
  }

  /** `analyzeCenterRegion(ctx, canvasW, canvasH, regionSize)`.  `data`
      stands for the bytes `ctx.getImageData` returns for the centred
      square; the sort of `pixels` is the stable sort `SortBy`. */
  method AnalyzeCenterRegion(data: seq<Byte>, canvasW: int, canvasH: int, regionSize: int := 140)
    returns (a: Option<Analysis>)
    requires canvasW >= 1 && canvasH >= 1 && regionSize >= 1
    requires SquareBuffer(data, Min3(regionSize, canvasW, canvasH))
    ensures |data| % 4 == 0 && a == AnalyzeRegion(canvasW, canvasH, regionSize, data)
  {
    var size := Min3(regionSize, canvasW, canvasH);
    var x0 := (canvasW - size) / 2;
    var y0 := (canvasH - size) / 2;
    SquareBufferQuads(data, size);

    var pixels := CollectUsablePixels(data);
    if |pixels| < MIN_USABLE_PIXELS {
      return None;
    }
    var sorted := SortBy(pixels, Brightness);
    var trim := (|sorted| * 15) / 100;
    var core := sorted[trim..|sorted| - trim];
    assert core == Core(sorted);

    var sumR, sumG, sumB := SumChannels(core);
    var n := |core| as real;
    a := Some(Analysis(MeanRgb(sumR / n, sumG / n, sumB / n), |pixels|, Region(x0, y0, size)));
  }

  /** `null` exactly when fewer than 50 pixels survive the filter. */
  lemma NullIffFewPixels(canvasW: int, canvasH: int, regionSize: int, data: seq<Byte>)
    requires |data| % 4 == 0
    ensures AnalyzeRegion(canvasW, canvasH, regionSize, data).None? <==>
            |UsablePixels(data)| < MIN_USABLE_PIXELS
  {
  }

  /** A non-null analysis counts the filtered pixels, before the trim. */
  lemma AnalysisCount(canvasW: int, canvasH: int, regionSize: int, data: seq<Byte>)
    requires |data| % 4 == 0
    requires AnalyzeRegion(canvasW, canvasH, regionSize, data).Some?
    ensures AnalyzeRegion(canvasW, canvasH, regionSize, data).value.usablePixels
            == |UsablePixels(data)| >= MIN_USABLE_PIXELS
  {
  }

  /** A non-null analysis reports the number of filtered pixels (before the
      trim), the centred square, and a mean whose every channel lies in
      [0, 255] and between the smallest and largest value of that channel
      over the trimmed core. */
  lemma AnalysisFacts(canvasW: int, canvasH: int, regionSize: int, data: seq<Byte>)
    requires |data| % 4 == 0
    requires AnalyzeRegion(canvasW, canvasH, regionSize, data).Some?
    ensures var a := AnalyzeRegion(canvasW, canvasH, regionSize, data).value;
            var core := Core(SortBy(UsablePixels(data), Brightness));
            && a.usablePixels == |UsablePixels(data)| >= MIN_USABLE_PIXELS
            && |core| >= 1
            && a.region == CenterRegion(regionSize, canvasW, canvasH)
            && 0.0 <= a.meanRgb.r <= 255.0 && 0.0 <= a.meanRgb.g <= 255.0 && 0.0 <= a.meanRgb.b <= 255.0
            && (exists i, j :: 0 <= i < |core| && 0 <= j < |core| && Red(core[i]) <= a.meanRgb.r <= Red(core[j]))
            && (exists i, j :: 0 <= i < |core| && 0 <= j < |core| && Green(core[i]) <= a.meanRgb.g <= Green(core[j]))
            && (exists i, j :: 0 <= i < |core| && 0 <= j < |core| && Blue(core[i]) <= a.meanRgb.b <= Blue(core[j]))
  {
    var core := Core(SortBy(UsablePixels(data), Brightness));
    MeanInRange(core);
    AvgBetweenExtremes(core, Red);
    AvgBetweenExtremes(core, Green);
    AvgBetweenExtremes(core, Blue);
  }

  /** A square filled with one usable colour `c` (at least 50 pixels) has
      mean exactly `c`; one filled with a colour the filter rejects gives
      `null`. */
  lemma {:induction false} FilledRegion(canvasW: int, canvasH: int, regionSize: int, data: seq<Byte>, c: Rgb)
    requires |data| % 4 == 0 && Filled(data, c)
    ensures !Usable(c) ==> AnalyzeRegion(canvasW, canvasH, regionSize, data).None?
    ensures Usable(c) && |data| / 4 >= MIN_USABLE_PIXELS ==>
            AnalyzeRegion(canvasW, canvasH, regionSize, data)
              == Some(Analysis(AsMean(c), |data| / 4, CenterRegion(regionSize, canvasW, canvasH)))
  {
    FilledPixels(data, c);
    if Usable(c) && |data| / 4 >= MIN_USABLE_PIXELS {
      FilledCore(data, c);
      MeanOfConstant(Core(SortBy(UsablePixels(data), Brightness)), c);
    }
  }

  /** The trimmed core of a square filled with one usable colour `c` is
      made of `c` only. */
  lemma {:induction false} FilledCore(data: seq<Byte>, c: Rgb)
    requires |data| % 4 == 0 && |data| / 4 >= 1 && Filled(data, c) && Usable(c)
    ensures |UsablePixels(data)| == |data| / 4
    ensures var core := Core(SortBy(UsablePixels(data), Brightness));
            |core| >= 1 && forall i :: 0 <= i < |core| ==> core[i] == c
  {
    FilledPixels(data, c);
    var pixels := UsablePixels(data);
    SortConstant(pixels, c, Brightness);
    var core := Core(pixels);
    forall i | 0 <= i < |core|
      ensures core[i] == c
    {
      assert core[i] == pixels[TrimCount(|pixels|) + i];
    }
  }

  // ---------------------------------------------------------------------
  // Reference colours under the filter

  /** The level-1 colour (brightness 250) is glare; levels 2 to 8 pass. */
  lemma ReferenceColorsUsable()
    ensures !Usable(REFERENCE_COLORS[0])
    ensures forall k :: 1 <= k < 8 ==> Usable(REFERENCE_COLORS[k])
  {
    forall k | 0 <= k < 8
      ensures Usable(REFERENCE_COLORS[k]) <==> k != 0
    {
      UsableIntegerForm(REFERENCE_COLORS[k]);
    }
  }

  // ---------------------------------------------------------------------
  // analyzeUrineFile

  /** The natural size of a decoded photo. */
  datatype ImageSize = ImageSize(naturalWidth: nat, naturalHeight: nat)

  /** The settled promise of `analyzeUrineFile`: `Rejected` when the image
      fails to load, otherwise `{ ok: false, reason }` or
      `{ ok: true, level, label, confidence, usablePixels }`. */
  datatype FileResult =
    | Rejected
    | NotOk(reason: string)
    | Ok(level: nat, name: string, confidence: real, usablePixels: nat)

  const NOT_ENOUGH_PIXELS: string := "Not enough usable pixels (glare/shadow). Try better light."

  /** Where the photo is drawn on the 520 x 360 working canvas. */
  function DrawnRect(image: ImageSize): Option<Rect>
  {
    FitRect(image.naturalWidth, image.naturalHeight, CANVAS_WIDTH, CANVAS_HEIGHT)
  }

  /** The drawn photo stays on the canvas, centred, touching two opposite
      edges. */
  lemma DrawnRectInside(image: ImageSize)
    requires image.naturalWidth > 0 && image.naturalHeight > 0
    ensures DrawnRect(image).Some?
    ensures var r := DrawnRect(image).value;
            && 0 <= r.x && r.x + r.w <= CANVAS_WIDTH
            && 0 <= r.y && r.y + r.h <= CANVAS_HEIGHT
            && (r.w == CANVAS_WIDTH || r.h == CANVAS_HEIGHT)
  {
    FitRectInside(image.naturalWidth, image.naturalHeight, CANVAS_WIDTH, CANVAS_HEIGHT);
  }

  /** A photo with both sides zero is not drawn at all. */
  lemma EmptyImageNotDrawn()
    ensures DrawnRect(ImageSize(0, 0)).None?
  {
  }

  /** The side of the sampled square on the working canvas. */
  function SampleSide(regionSize: int): int
  {
    Min3(regionSize, CANVAS_WIDTH, CANVAS_HEIGHT)
  }

  /** `analyzeUrineFile(file, regionSize)`.  `image` is the outcome of
      loading the file and `data` the bytes of the centred square of the
      canvas after the photo has been drawn into `DrawnRect`. */
  function AnalyzeUrineFile(image: Option<ImageSize>, data: seq<Byte>, sqrt: real -> real,
                            regionSize: int := 140): FileResult
    requires IsSqrt(sqrt) && regionSize >= 1
    requires SquareBuffer(data, SampleSide(regionSize))
  {
    if image.None? then Rejected
    else
      SquareBufferQuads(data, SampleSide(regionSize));
      FileResultOf(AnalyzeRegion(CANVAS_WIDTH, CANVAS_HEIGHT, regionSize, data), sqrt)
  }

  /** The result for a loaded photo whose analysis is `a`. */
  function FileResultOf(a: Option<Analysis>, sqrt: real -> real): FileResult
    requires IsSqrt(sqrt)
  {
    if a.None? then NotOk(NOT_ENOUGH_PIXELS)
    else
      var m := MatchPalette(a.value.meanRgb, sqrt);
      Ok(m.best.level, m.best.name, m.confidence, a.value.usablePixels)
  }

  /** `ok: false` with the fixed reason exactly for a `null` analysis;
      otherwise a palette level with its own label, a confidence in [0, 1]
      and the analysis' pixel count. */
  lemma FileResultOfFacts(a: Option<Analysis>, sqrt: real -> real)
    requires IsSqrt(sqrt)
    ensures var r := FileResultOf(a, sqrt);
            && (r.NotOk? <==> a.None?)
            && (r.NotOk? ==> r.reason == NOT_ENOUGH_PIXELS)
            && (r.Ok? ==>
                  && 1 <= r.level <= 8
                  && r.name == LevelName(r.level)
                  && 0.0 <= r.confidence <= 1.0
                  && r.usablePixels == a.value.usablePixels)
  {
    if a.Some? {
      var m := MatchPalette(a.value.meanRgb, sqrt);
      MatchPaletteBest(a.value.meanRgb, sqrt);
      assert FileResultOf(a, sqrt) == Ok(m.best.level, m.best.name, m.confidence, a.value.usablePixels);
    } else {
      assert FileResultOf(a, sqrt) == NotOk(NOT_ENOUGH_PIXELS);
    }
  }

  /** With the default size the sampled square is 140 x 140 at (190, 110). */
  lemma DefaultSampleSquare()
    ensures CenterRegion(140, CANVAS_WIDTH, CANVAS_HEIGHT) == Region(190, 110, 140)
  {
  }

  /** The outcome of a loaded photo: `ok: false` with the fixed reason
      exactly when fewer than 50 pixels survive the filter; otherwise a
      palette level with its own label, a confidence in [0, 1] and the
      pre-trim pixel count. */
  lemma {:induction false} FileOutcome(image: Option<ImageSize>, data: seq<Byte>, sqrt: real -> real,
                                       regionSize: int)
    requires IsSqrt(sqrt) && regionSize >= 1
    requires SquareBuffer(data, SampleSide(regionSize))
    ensures var r := AnalyzeUrineFile(image, data, sqrt, regionSize);
            && (image.None? <==> r.Rejected?)
            && (image.Some? ==> (r.NotOk? <==> |UsablePixels(data)| < MIN_USABLE_PIXELS))
            && (r.NotOk? ==> r.reason == NOT_ENOUGH_PIXELS)
            && (r.Ok? ==>
                  && 1 <= r.level <= 8
                  && r.name == LevelName(r.level)
                  && 0.0 <= r.confidence <= 1.0
                  && r.usablePixels == |UsablePixels(data)| >= MIN_USABLE_PIXELS)
  {
    SquareBufferQuads(data, SampleSide(regionSize));
    var a := AnalyzeRegion(CANVAS_WIDTH, CANVAS_HEIGHT, regionSize, data);
    NullIffFewPixels(CANVAS_WIDTH, CANVAS_HEIGHT, regionSize, data);
    if a.Some? {
      AnalysisCount(CANVAS_WIDTH, CANVAS_HEIGHT, regionSize, data);
    }
    FileResultOfFacts(a, sqrt);
  }

  /** A photo whose sampled square is filled with the colour of level `k`,
      for `k` from 2 to 8, is classified as level `k` with confidence 1. */
  lemma FilledWithLevelColor(image: ImageSize, data: seq<Byte>, sqrt: real -> real, regionSize: int, k: nat)
    requires IsSqrt(sqrt) && regionSize >= 1
    requires SquareBuffer(data, SampleSide(regionSize))
    requires 2 <= k <= 8 && Filled(data, REFERENCE_COLORS[k - 1])
    requires |data| / 4 >= MIN_USABLE_PIXELS
    ensures AnalyzeUrineFile(Some(image), data, sqrt, regionSize)
              == Ok(k, LevelName(k), 1.0, |data| / 4)
  {
    SquareBufferQuads(data, SampleSide(regionSize));
    var c := REFERENCE_COLORS[k - 1];
    ReferenceColorsUsable();
    FilledRegion(CANVAS_WIDTH, CANVAS_HEIGHT, regionSize, data, c);
    PaletteColorMatchesItself(k, sqrt);
    MatchPaletteBest(AsMean(c), sqrt);
  }

  /** A square filled with the level-1 colour, with white or with black
      (the cleared canvas) gives `ok: false`. */
  lemma FilledWithRejectedColor(image: ImageSize, data: seq<Byte>, sqrt: real -> real, regionSize: int, c: Rgb)
    requires IsSqrt(sqrt) && regionSize >= 1
    requires SquareBuffer(data, SampleSide(regionSize))
    requires c == REFERENCE_COLORS[0] || c == Rgb(255, 255, 255) || c == Rgb(0, 0, 0)
    requires Filled(data, c)
    ensures AnalyzeUrineFile(Some(image), data, sqrt, regionSize) == NotOk(NOT_ENOUGH_PIXELS)
  {
    SquareBufferQuads(data, SampleSide(regionSize));
    ReferenceColorsUsable();
    FilledRegion(CANVAS_WIDTH, CANVAS_HEIGHT, regionSize, data, c);
  }
}
