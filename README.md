# Urine-colour hydration tracker: classifier and log bookkeeping

This project models the core of a small React web app that estimates
hydration from the colour of urine. It has two parts.

**The photo classifier** (`src/urineColorAnalysis.js`):

1. A photo is scaled uniformly to fit a 520 x 360 working canvas, floored and
   centred.
2. A centred square of side `min(regionSize, 520, 360)` is read back as RGBA
   bytes.
3. Each pixel is filtered:
   - glare is dropped (mean brightness above 245);
   - shadow is dropped (below 25);
   - near-neutral highlights are dropped (brightness above 220 with
     saturation below 0.08).
4. Fewer than 50 surviving pixels gives up. Otherwise the survivors are
   sorted by brightness, 15% is trimmed from each end, and the rest are
   averaged per channel.
5. The mean is matched against an 8-entry reference palette by Euclidean RGB
   distance and a stable sort. The confidence is `clamp((d2 - d1) / 40, 0, 1)`.

**The tester page** (`src/UrinePhotoTester.jsx`) repeats the classifier.
Its analysis returns an `ok`/`reason` object that also reports the mean
brightness and saturation. It draws a dashed target square and stores the
result of "Analyze" in its state.

**The hydration log** (`src/App.jsx`) keeps:

- today's colour entries, the saved daily averages and a day counter;
- the derived week number, week progress, 7-day trend, weekly-tip countdown
  and 7-day kidney report;
- the transitions "add entry", "end the day" and "reset".

## Modules

- `StableSort` (`stable_sort.dfy`) models `Array.prototype.sort` with a
  comparator: a stable insertion sort by a real key. It is sorted, a
  permutation, keeps the input order of equal keys, and puts the minimum
  first.
- `HexColor` (`hex_color.dfy`) models `hexToRgb`. It covers `replace("#", "")`,
  `trim` with the JavaScript white-space set, the 3-digit expansion,
  `parseInt(_, 16)` including its stop-at-first-non-digit and `NaN` cases,
  and the shifts and masks. An encoder `RgbToHex` is its inverse.
- `Palette` (`palette.dfy`) models the palette, `clamp`, `rgbDist` and
  `matchPalette`. `Math.sqrt` is a parameter `sqrt` constrained by `IsSqrt`.
- `Geometry` (`geometry.dfy`) models the fit-to-canvas rectangle and the
  centred sampling square.
- `ColorAnalysis` (`color_analysis.dfy`) models `analyzeCenterRegion` as an
  imperative method with loops, proved against the function `AnalyzeRegion`,
  and the result of `analyzeUrineFile`.
- `PhotoTester` (`photo_tester.dfy`) models the tester's
  `analyzeCenterRegion`, `drawToCanvas`, and the page state as a class
  whose `RunAnalysis` method models `runAnalysis`.
- `HydrationLog` (`hydration_log.dfy`) models the memos and
  `compute7DayTrend` as functions, and the log as a class `Tracker` with
  `AddEntry`, `EndDay` and `ResetAll`.

**Exact arithmetic.** Pixel bytes are integers, and means and distances are
exact reals. The trim `Math.floor(n * 0.15)` is the integer `(n * 15) / 100`.
`TrimIsFloor` proves that this equals the floor of the exact product. The
brightness and saturation tests are also proved equivalent to integer
comparisons (`UsableIntegerForm`).

**Behaviour of the code worth knowing.**

- The level-1 colour `#FFFDF2` has brightness `(255 + 253 + 242) / 3 = 250`,
  above the glare cut of 245 (`src/urineColorAnalysis.js:4`, `:55`). A
  sampled square of that colour therefore loses every pixel as glare, and
  `analyzeUrineFile` gives `ok: false`. `ReferenceColorsUsable` and
  `FilledWithRejectedColor` state this. Levels 2 to 8 do classify exactly,
  with confidence 1 (`FilledWithLevelColor`).
- The tester's `analyzeCenterRegion` works on the same bytes in the same
  way (`TesterFilledWithLevelColor`, `TesterFilledWithRejectedColor`). On
  the tester page, though, those bytes are read back from a canvas on which
  `drawToCanvas` has already stroked the dashed target square along the
  sampled square's border (`src/UrinePhotoTester.jsx:186-194`). The darkened
  border pixels can pass the filter, so a photo of the level-1 colour or of
  white can still give a result there. See `TesterPage.RunAnalysis` under
  "Left out".
- The tester's `analyzeCenterRegion` defaults to a 120-pixel region. The
  tester page always passes its state, which starts at 140. The app's
  module defaults to 140.
- The tester's slider schedules `drawToCanvas` with `setTimeout(_, 0)` from
  a closure that still holds the previous `regionSize`
  (`src/UrinePhotoTester.jsx:262-265`), so the overlay on the canvas lags
  the slider by one step.

## Model

| member | source | states |
|---|---|---|
| StableSort.Insert | src/urineColorAnalysis.js:69 | inserting into a sorted sequence keeps it sorted and adds exactly that element (multiset) |
| StableSort.SortBy | src/urineColorAnalysis.js:69 | the result is sorted by the key and is a permutation of the input |
| StableSort.InsertKeepsEqualKeyOrder | src/urineColorAnalysis.js:32 | inserting keeps the elements of any one key in their order, with the inserted one first |
| StableSort.SortByKeepsEqualKeyOrder | src/urineColorAnalysis.js:69 | stability: the elements with any one key appear in the same order as in the input |
| StableSort.SortByBreaksTiesByOrd | src/urineColorAnalysis.js:32 | if the input is in increasing order of a tie-breaker, the sorted output is ordered by key and then by that tie-breaker |
| StableSort.SortByFirstIsLeast | src/urineColorAnalysis.js:34 | the first sorted element comes from the input and has the least key |
| StableSort.SortConstant | src/urineColorAnalysis.js:69 | sorting a sequence of one repeated element leaves it unchanged |
| HexColor.RemoveFirstHash | src/urineColorAnalysis.js:19 | `replace("#", "")` leaves a string without `#` unchanged, and otherwise removes one character and adds none |
| HexColor.RemoveFirstHashSplice | src/urineColorAnalysis.js:19 | when `s[i]` is the first `#`, the result is `s` with exactly position `i` removed and every other character kept in order |
| HexColor.Trim | src/urineColorAnalysis.js:19 | `trim()`: stated by `TrimStartSuffix` and `TrimEndPrefix` (exactly the leading and trailing JavaScript white space is removed) and `TrimKeepsNonWhite` |
| HexColor.TrimStartSuffix | src/urineColorAnalysis.js:19 | the left trim is a suffix of its input, every removed character is white space, and the rest does not start with white space |
| HexColor.TrimEndPrefix | src/urineColorAnalysis.js:19 | the right trim is a prefix of its input, every removed character is white space, and the rest does not end with white space |
| HexColor.TrimKeepsNonWhite | src/urineColorAnalysis.js:19 | trimming a string without white space leaves it unchanged |
| HexColor.TrimKeepsChars | src/urineColorAnalysis.js:19 | trimming introduces no character |
| HexColor.DoubleEach | src/urineColorAnalysis.js:20 | the 3-digit expansion doubles the length and repeats each character twice in place |
| HexColor.HexDigitPrefix | src/urineColorAnalysis.js:20 | `parseInt` reads the longest prefix of hexadecimal digits: it is all digits, and the next character is not a digit |
| HexColor.ParseIntHex | src/urineColorAnalysis.js:20 | `parseInt(_, 16)`: stated by `HexDigitPrefix`, `ParseIntHexOfDigits` (digits give their base-16 value) and `ParseIntHexNoDigits` (no digit gives `NaN`) |
| HexColor.ParseIntHexOfDigits | src/urineColorAnalysis.js:20 | `parseInt(ds, 16)` of a non-empty digit string is its base-16 value |
| HexColor.ParseIntHexNoDigits | src/urineColorAnalysis.js:20 | `parseInt` of a string with no hexadecimal digit anywhere in it is `NaN` |
| HexColor.HexToRgb | src/urineColorAnalysis.js:18-22 | `hexToRgb`, also the tester's copy at src/UrinePhotoTester.jsx:23-31: stated by `RoundTrip` (inverse of `#RRGGBB`), `ShortFormExpands` (`#abc` is `#aabbcc`), `HexToRgbOfDigits` and `NoDigitsIsBlack` |
| HexColor.HexToRgbOfDigits | src/urineColorAnalysis.js:18-22 | decoding `#` plus a digit string unpacks the value of its expansion |
| HexColor.ChannelsOfPacked | src/urineColorAnalysis.js:21 | `>> 16 & 255`, `>> 8 & 255` and `& 255` recover the three bytes packed as `r*65536 + g*256 + b` |
| HexColor.ByteToHexValue | src/urineColorAnalysis.js:18-22 | the two upper-case digits written for a byte read back as that byte |
| HexColor.RoundTrip | src/urineColorAnalysis.js:18-22 | `hexToRgb` inverts the upper-case `#RRGGBB` encoding of every colour |
| HexColor.DoubleEachValue | src/UrinePhotoTester.jsx:25 | the expanded 3-digit code has value `17*a*65536 + 17*b*256 + 17*c` |
| HexColor.ShortFormExpands | src/UrinePhotoTester.jsx:23-31 | `#abc` decodes the same as `#aabbcc` |
| HexColor.ShortFormChannels | src/UrinePhotoTester.jsx:23-31 | `#abc` decodes to channels `17*a`, `17*b` and `17*c` |
| HexColor.PrepareKeepsChars | src/urineColorAnalysis.js:19-20 | removing `#`, trimming and expanding introduce no character |
| HexColor.NoDigitsIsBlack | src/urineColorAnalysis.js:20-21 | a code with no hexadecimal digit decodes to black, because `NaN >> k` and `NaN & 255` are 0 |
| Palette.Clamp | src/urineColorAnalysis.js:14-16 | `clamp(n, a, b)` is `n` inside `[a, b]` and the nearer bound outside it |
| Palette.SqDistZero | src/urineColorAnalysis.js:24-27 | the squared distance is non-negative and is zero exactly at the colour itself |
| Palette.RgbDist | src/urineColorAnalysis.js:24-27 | the distance is non-negative; `RgbDistSquare` states that its square is the sum of squared channel differences, zero exactly at equal colours |
| Palette.RgbDistSquare | src/urineColorAnalysis.js:24-27 | the distance squared is the sum of squared channel differences, and it is zero exactly when the mean equals the colour |
| Palette.SqrtMonotone | src/urineColorAnalysis.js:26 | `sqrt` preserves and reflects order on non-negative reals, so ranking by distance is ranking by squared distance |
| Palette.Measure | src/urineColorAnalysis.js:30-31 | the `map` pairs each palette entry, in order, with its distance to the mean |
| Palette.MatchAgainst | src/urineColorAnalysis.js:29-40 | `ranked` is a permutation of the measured entries sorted by distance, `best` is its head, and the confidence lies in `[0, 1]` |
| Palette.MatchAgainstRanked | src/urineColorAnalysis.js:30-32 | `ranked` holds each palette entry exactly once, with its own distance |
| Palette.PermutedMeasure | src/urineColorAnalysis.js:30-32 | any permutation of the measured palette holds each entry once, with its own distance |
| Palette.BestIsClosest | src/urineColorAnalysis.js:34 | `best` is a palette entry whose colour is at the least squared distance from the mean |
| Palette.MeasuredLevels | src/urineColorAnalysis.js:30-31 | measuring keeps the palette's increasing level order |
| Palette.TiesInLevelOrder | src/urineColorAnalysis.js:32 | entries at equal distance stay in increasing level order, because the sort is stable |
| Palette.EqualDistInLevelOrder | src/urineColorAnalysis.js:32 | a sequence ordered by distance and then level lists equal distances in increasing level |
| Palette.MatchPalette | src/urineColorAnalysis.js:29-40 | `matchPalette` over the fixed palette, also the tester's copy at src/UrinePhotoTester.jsx:122-140: stated by `MatchAgainst`, `BestIsClosest`, `TiesInLevelOrder`, `MatchPaletteConfidence` and `MatchPaletteBest` |
| Palette.MatchPaletteConfidence | src/urineColorAnalysis.js:34-37 | with 8 entries `second` always exists, the gap is non-negative, and the confidence is `min(1, gap / 40)` |
| Palette.MatchPaletteBest | src/urineColorAnalysis.js:29-40 | `best` has a level 1 to 8 with that level's own label, and the confidence is in `[0, 1]` |
| Palette.BestLevelNamed | src/urineColorAnalysis.js:34 | for a palette with levels `1..n`, `best` has a level in range and carries that level's label |
| Palette.PaletteLevels | src/urineColorAnalysis.js:3-12 | the palette has 8 entries, and entry `i` has level `i + 1` |
| Palette.PaletteColor | src/urineColorAnalysis.js:3-12 | entry `i`'s hex code decodes to the `i`-th reference colour |
| Palette.PaletteColors | src/urineColorAnalysis.js:3-12 | every palette hex code decodes to its reference colour |
| Palette.ReferenceColorsApart | src/urineColorAnalysis.js:3-12 | any two reference colours are at least 40 apart (squared distance at least 1600) |
| Palette.SqrtOfSquare | src/urineColorAnalysis.js:26 | `sqrt` of a square of a non-negative number is that number |
| Palette.UniqueNearestFirst | src/urineColorAnalysis.js:32-35 | one entry at distance 0 with every other at 40 or more sorts first, followed by one at 40 or more |
| Palette.MeasuredExact | src/urineColorAnalysis.js:30-31 | measuring a palette colour itself gives it distance 0 and every other entry distance at least 40 |
| Palette.ExactColorMatches | src/urineColorAnalysis.js:29-40 | a mean equal to one entry's colour, at least 40 from the others, matches that entry at distance 0 with confidence 1 |
| Palette.LevelColorMatches | src/urineColorAnalysis.js:29-40 | for a palette with levels `1..n` and well-separated colours, the level-`k` colour matches level `k` at distance 0 with confidence 1 |
| Palette.PaletteColorMatchesItself | src/urineColorAnalysis.js:29-40 | `matchPalette` of reference colour `k` returns level `k` at distance 0 with confidence 1 |
| Geometry.Min3 | src/urineColorAnalysis.js:43 | `Math.min` of three integers is one of them and no larger than any |
| Geometry.CenterRegion | src/urineColorAnalysis.js:43-45 | the square has side `min(regionSize, w, h)`, lies inside the canvas, and its right or bottom margin equals the opposite margin or exceeds it by one |
| Geometry.FitRect | src/urineColorAnalysis.js:105-110 | the scale-to-fit rectangle, also at src/UrinePhotoTester.jsx:174-181: stated by `FitRectIntegerForm` (one full side, the other floored) and `FitRectInside` (inside the canvas, centred) |
| Geometry.FitRectIntegerForm | src/urineColorAnalysis.js:105-110 | for positive sizes, the drawn width or height is the full canvas side, and the other is the floored integer `ih*cw/iw` or `iw*ch/ih` |
| Geometry.FitRectInside | src/urineColorAnalysis.js:105-110 | for positive sizes, the drawn rectangle lies in the canvas, centred to within one pixel, touching two opposite edges |
| ColorAnalysis.Saturation | src/urineColorAnalysis.js:58-60 | saturation is in `[0, 1]` (0 for black) |
| ColorAnalysis.Usable | src/urineColorAnalysis.js:53-62 | the per-pixel filter: stated by `UsableIntegerForm` (exact integer form of the glare, shadow and neutral-highlight tests) and `AlphaIgnored` |
| ColorAnalysis.UsableIntegerForm | src/urineColorAnalysis.js:53-62 | a pixel is kept iff `75 <= r+g+b <= 735` and not (`r+g+b > 660` and `100*(max-min) < 8*max`) |
| ColorAnalysis.UsablePixels | src/urineColorAnalysis.js:50-65 | the kept pixels are at most one per quadruple, and every one passes the filter |
| ColorAnalysis.UsablePixelsMembers | src/urineColorAnalysis.js:51-64 | a colour is kept iff it passes the filter and is some pixel of the buffer |
| ColorAnalysis.AlphaIgnored | src/urineColorAnalysis.js:52 | buffers that differ only in the alpha bytes keep the same pixels |
| ColorAnalysis.FilledPixels | src/urineColorAnalysis.js:50-65 | a buffer of one colour keeps every pixel if that colour passes the filter and none otherwise |
| ColorAnalysis.TrimCount | src/urineColorAnalysis.js:70-71 | the two trims together never remove all pixels of a non-empty list |
| ColorAnalysis.TrimIsFloor | src/urineColorAnalysis.js:70 | `(n * 15) / 100` equals `floor(n * 0.15)` in exact arithmetic |
| ColorAnalysis.Core | src/urineColorAnalysis.js:71 | `slice(trim, n - trim)` has `n - 2*trim` elements and is non-empty for non-empty input |
| ColorAnalysis.CoreBetweenTrimmed | src/urineColorAnalysis.js:69-71 | in the sorted list, every dropped low pixel is no brighter than any core pixel, and every dropped high pixel is no darker |
| ColorAnalysis.SumOfBounds | src/urineColorAnalysis.js:73-76 | a sum of `n` values in `[lo, hi]` lies in `[n*lo, n*hi]` |
| ColorAnalysis.AvgWithin | src/urineColorAnalysis.js:79 | the average of values in `[lo, hi]` lies in `[lo, hi]` |
| ColorAnalysis.AvgBetweenExtremes | src/urineColorAnalysis.js:79 | the average lies between the least and the greatest value |
| ColorAnalysis.MeanInRange | src/urineColorAnalysis.js:73-79 | each channel of the mean is in `[0, 255]` |
| ColorAnalysis.MeanOfConstant | src/urineColorAnalysis.js:73-79 | the mean of copies of a colour is that colour |
| ColorAnalysis.CollectUsablePixels | src/urineColorAnalysis.js:50-65 | the `i += 4` loop pushes exactly the kept pixels, in buffer order |
| ColorAnalysis.SumChannels | src/urineColorAnalysis.js:73-76 | the `reduce` accumulates the sums of the red, green and blue channels over the core |
| ColorAnalysis.AnalyzeCenterRegion | src/urineColorAnalysis.js:42-83 | the imperative routine returns what `AnalyzeRegion` specifies for the sampled bytes |
| ColorAnalysis.AnalyzeRegion | src/urineColorAnalysis.js:42-83 | `analyzeCenterRegion` as a function of the sampled bytes: stated by `NullIffFewPixels`, `AnalysisCount`, `AnalysisFacts` and `FilledRegion`; `AnalyzeCenterRegion` is proved to compute it |
| ColorAnalysis.NullIffFewPixels | src/urineColorAnalysis.js:67 | the result is `null` exactly when fewer than 50 pixels are kept |
| ColorAnalysis.AnalysisCount | src/urineColorAnalysis.js:80 | `usablePixels` is the pre-trim count of kept pixels, at least 50 |
| ColorAnalysis.AnalysisFacts | src/urineColorAnalysis.js:67-82 | a non-null result has a non-empty core, the clamped centred region, and each mean channel in `[0, 255]` and between that channel's extremes over the core |
| ColorAnalysis.FilledRegion | src/urineColorAnalysis.js:50-82 | a region of one colour gives `null` if the colour is filtered out, and otherwise that colour as mean with every pixel counted |
| ColorAnalysis.FilledCore | src/urineColorAnalysis.js:69-71 | for a region of one kept colour, the trimmed core is non-empty and holds only that colour |
| ColorAnalysis.ReferenceColorsUsable | src/urineColorAnalysis.js:4-11 | the level-1 reference colour is dropped by the filter and the other seven are kept |
| ColorAnalysis.DrawnRectInside | src/urineColorAnalysis.js:105-110 | a photo with positive sides is drawn inside the 520 x 360 canvas, spanning its width or its height |
| ColorAnalysis.EmptyImageNotDrawn | src/urineColorAnalysis.js:106-108 | a 0 x 0 photo is not drawn (its scale is infinite and its size `NaN`) |
| ColorAnalysis.DefaultSampleSquare | src/urineColorAnalysis.js:42-45 | the default 140-pixel square on the 520 x 360 canvas is at (190, 110) |
| ColorAnalysis.FileResultOf | src/urineColorAnalysis.js:115-127 | the result object built from the analysis: stated by `FileResultOfFacts` |
| ColorAnalysis.FileResultOfFacts | src/urineColorAnalysis.js:115-127 | a null analysis gives `ok: false` with the fixed reason; otherwise `ok: true` with a level 1 to 8, its own label, a confidence in `[0, 1]`, and the pre-trim count |
| ColorAnalysis.AnalyzeUrineFile | src/urineColorAnalysis.js:88-131 | `analyzeUrineFile` with the photo size and sampled bytes as inputs: stated by `FileOutcome`, `FilledWithLevelColor` and `FilledWithRejectedColor` |
| ColorAnalysis.FileOutcome | src/urineColorAnalysis.js:88-131 | a failed load rejects; a loaded photo gives `ok: false` exactly when fewer than 50 pixels are kept, and otherwise a level with its label, a confidence in `[0, 1]`, and the kept-pixel count |
| ColorAnalysis.FilledWithLevelColor | src/urineColorAnalysis.js:88-131 | a square filled with reference colour `k` (2 to 8) yields `ok: true`, level `k`, its label, confidence 1, every pixel counted |
| ColorAnalysis.FilledWithRejectedColor | src/urineColorAnalysis.js:116-118 | a square of the level-1 colour, of white, or of black yields `ok: false` with the reason |
| PhotoTester.SumAll | src/UrinePhotoTester.jsx:95-102 | the `reduce` accumulates the sums of r, g, b, `v` and `sat` over the core |
| PhotoTester.TesterAnalyzeCenterRegion | src/UrinePhotoTester.jsx:54-120 | the imperative routine returns what `TesterAnalyzeRegion` specifies for the sampled bytes |
| PhotoTester.SumOfBrightness | src/UrinePhotoTester.jsx:70 | the sum of brightnesses is a third of the sum of the three channel sums |
| PhotoTester.TesterAnalyzeRegion | src/UrinePhotoTester.jsx:54-120 | the tester's `analyzeCenterRegion` as a function of the sampled bytes: stated by `TesterFailedIffFewPixels`, `TesterAnalysisFacts` and `TesterFilledRegion`; `TesterAnalyzeCenterRegion` is proved to compute it |
| PhotoTester.TesterFailedIffFewPixels | src/UrinePhotoTester.jsx:86-88 | the analysis fails exactly when fewer than 50 pixels are kept, with the fixed reason |
| PhotoTester.TesterAnalysisFacts | src/UrinePhotoTester.jsx:86-119 | it fails exactly when the app's analysis is null; on success, brightness is the mean of the mean's channels, saturation is in `[0, 1]`, and mean, count and region equal the app's |
| PhotoTester.TesterFilledRegion | src/UrinePhotoTester.jsx:66-119 | a region of one kept colour reports that colour, its brightness and saturation, and every pixel |
| PhotoTester.TesterFilledWithLevelColor | src/UrinePhotoTester.jsx:66-119 | a sampled buffer of reference colour `k` (2 to 8) succeeds with that colour as mean |
| PhotoTester.TesterFilledWithRejectedColor | src/UrinePhotoTester.jsx:73-88 | a sampled buffer of the level-1 colour, of white, or of black fails with the fixed reason |
| PhotoTester.DrawToCanvas | src/UrinePhotoTester.jsx:162-200 | the photo rectangle, dashed square and caption position: stated by `OverlayIsSampledRegion` |
| PhotoTester.OverlayIsSampledRegion | src/UrinePhotoTester.jsx:186-198 | the dashed square is the region the analysis samples and reports; the caption sits 10 above it or 18 below its top, at least 12 down |
| PhotoTester.OutcomeOf | src/UrinePhotoTester.jsx:213-226 | the error or result set from an analysis: stated by `OutcomeOfFacts` |
| PhotoTester.OutcomeOfFacts | src/UrinePhotoTester.jsx:213-226 | a failure shows its reason with no result; a success shows no error and the analysis with `match = ranked[0]`, a level 1 to 8 and its label, a confidence in `[0, 1]`, and `ranked` holding every palette entry once |
| PhotoTester.RunOutcome | src/UrinePhotoTester.jsx:206-227 | what `runAnalysis` leaves in `error` and `result`: stated by `RunOutcomeFacts` |
| PhotoTester.RunOutcomeFacts | src/UrinePhotoTester.jsx:206-227 | there is an error exactly when there is no result, exactly when fewer than 50 pixels are kept, and the result satisfies the match facts |
| PhotoTester.TesterPage.constructor | src/UrinePhotoTester.jsx:144-146 | the page starts with a 140-pixel target, no error and no result |
| PhotoTester.TesterPage.SetRegionSize | src/UrinePhotoTester.jsx:255-266 | the slider sets the target size within 80 to 220 and changes nothing else |
| PhotoTester.TesterPage.RunAnalysis | src/UrinePhotoTester.jsx:206-227 | without a canvas, error and result are cleared; otherwise they become `RunOutcome` of the sampled bytes (read back after the overlay is drawn), and the target size is kept |
| HydrationLog.Round2 | src/App.jsx:138 | `+(x).toFixed(2)`: stated by `Round2Facts` |
| HydrationLog.Round2Facts | src/App.jsx:138 | two-decimal rounding gives a multiple of 0.01 within 0.005 of its argument, keeps whole numbers and is monotone |
| HydrationLog.TodayAvg | src/App.jsx:243-247 | the `todayAvg` memo: stated by `TodayAvgFacts` and `TodayAvgInRange` |
| HydrationLog.TodayAvgFacts | src/App.jsx:243-247 | `todayAvg` is null iff no entries, and otherwise lies between the least and the greatest entry |
| HydrationLog.TodayAvgInRange | src/App.jsx:243-247 | with every entry in `lo..hi`, `todayAvg` is in `[lo, hi]` |
| HydrationLog.WeekNumber | src/App.jsx:250-253 | the `weekNumber` memo: stated by `WeekCounters` |
| HydrationLog.WeekProgress | src/App.jsx:256-259 | the `weekProgress` memo: stated by `WeekCounters` |
| HydrationLog.WeekCounters | src/App.jsx:250-259 | the week number is at least 1; the progress is 0 only for an empty history, otherwise 1 to 7, 7 exactly at non-zero multiples of 7, and `n = 7*(week-1) + progress` |
| HydrationLog.TipOnStart | src/App.jsx:221-241 | the tip line set at start-up: stated by `TipCountdown` |
| HydrationLog.TipAfterEndDay | src/App.jsx:291-332 | the tip line set after a saved day: stated by `TipCountdown` |
| HydrationLog.TipCountdown | src/App.jsx:221-241 | the tip unlocks exactly at a non-zero multiple of 7 days; otherwise the countdown is 1 to 7 and reaches the next multiple of 7; after a saved day, "end the day" shows what start-up would |
| HydrationLog.Compute7DayTrend | src/App.jsx:134-157 | `compute7DayTrend`: stated by `TrendWindows`, `TrendLabels` and `ShortHistoryIsStable` |
| HydrationLog.TrendWindows | src/App.jsx:134-145 | `last7Avg` exists iff at least 7 days are saved and `prev7Avg` iff at least 14; each is the rounded mean of its 7-day window |
| HydrationLog.TrendLabels | src/App.jsx:147-154 | "improving" iff both averages exist and the last is lower; "getting darker" iff it is higher; "stable" otherwise |
| HydrationLog.ShortHistoryIsStable | src/App.jsx:141-154 | with fewer than 14 saved days the trend is "stable" |
| HydrationLog.WeeklyReport | src/App.jsx:465-506 | the `weeklyReport` memo: stated by `ReportBands` and `Last7MeanInRange` |
| HydrationLog.ReportBands | src/App.jsx:465-506 | the report is ready iff 7 days are saved; it bands the last-7 mean as at most 3, at most 5, or above 5 |
| HydrationLog.Last7MeanInRange | src/App.jsx:475-476 | with saved averages in `[1, 8]`, the last-7 mean is in `[1, 8]` |
| HydrationLog.Tracker.constructor | src/App.jsx:159-179 | a first start has empty logs, day 1, no selection and the full countdown |
| HydrationLog.Tracker.AddEntry | src/App.jsx:267-272 | appends exactly the one value, selects it, and changes nothing else |
| HydrationLog.Tracker.EndDay | src/App.jsx:274-333 | with no entries nothing changes; otherwise appends exactly `todayAvg`, empties today, clears the selection, adds one to the day counter and updates the tip line |
| HydrationLog.Tracker.ResetAll | src/App.jsx:335-350 | unless cancelled, back to empty logs, day 1, no selection and the full countdown |

## Left out

- Image loading and canvas I/O (`Image`, object URLs, the promise, `drawImage`
  and `getImageData`) are not modelled. The photo is its natural size, and the
  sampled square is an input buffer of `4*size*size` RGBA bytes. The pixels
  `drawImage` produces cannot be computed.
- Floating point is modelled as exact reals: the means, `/ 40`, the
  `n * 0.15` product and the scale quotients. `toFixed(2)` is modelled as
  rounding half up in exact arithmetic, and the result is not bit-exact.
- `Math.sqrt` is a parameter `sqrt` required to be non-negative with
  `sqrt(x)^2 == x`, because it is a library function without a definition
  here.
- Palette.RgbDist: its own contract states only that the distance is
  non-negative. The square and zero facts are stated by RgbDistSquare.
- TesterPage.RunAnalysis: the bytes it analyses are an input. The model
  does not compute the dashed overlay (`strokeRect`, 2 pixels wide, dashes
  of 6 and 4, black at 65% opacity) that `drawToCanvas` strokes over the
  sampled square's border before they are read back. The model does not
  compute that stroke, which darkens part of the border ring to 35% of the
  photo's colour. So the uniform-buffer lemmas describe the
  analysis, not what the page shows for a uniform photo. The one-step lag of
  the overlay behind the slider is not modelled either.
- `pixels.sort` works in place on an array. The model sorts a sequence by
  value.
- HexColor.HexToRgb: strings are sequences of Unicode scalar values, while
  JavaScript counts `length` and `split("")` in UTF-16 code units. Codes
  with characters outside the Basic Multilingual Plane, or with lone
  surrogates, are not modelled. Every code in the source is ASCII.
- Hex codes are not modelled beyond 2^53 or the 32-bit truncation of `>>`.
  Every code in the source has at most six digits.
- `regionSize` must be at least 1. A zero-sized `getImageData` throws, and
  the callers pass 140 or a slider value of 80 to 220.
- React rendering, `useState`/`useEffect` wiring, Chart.js, toasts,
  `setTimeout` and `confirm`/`alert` are not modelled. The answer to
  `confirm` is `ResetAll`'s parameter.
- `localStorage`, `Date.now` and restoring saved state are not modelled.
  `Tracker` starts fresh, so its day counter is always one more than the
  number of saved days.
- The weekly-tip text is not modelled: the cached tip, `pickQuickTip`'s
  `Math.random`, and the async `generateWeeklyTip` and chat calls. The tip
  line is a `TipStatus`, either a countdown or unlocked.
- The `URINE_COLORS` hex values in `src/App.jsx` are display-only and differ
  from the classifier palette. Only the range 1 to 8 of entry values is used.
- `src/PhotoAnalyzeButton.jsx`, `src/gemini.js` and `src/SplashScreen.jsx`
  are not part of this model. They are UI glue, a network call and static
  markup.
- The tester defines its own palette, `clamp`, `hexToRgb`, `rgbDist` and
  `matchPalette`. They are identical to the app's, entry for entry, so both
  are modelled by `Palette` and `HexColor`.
