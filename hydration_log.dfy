/** The hydration log of `App.jsx`: the colour entries of the current day,
    the saved daily averages, the day counter, the derived week counter,
    week progress, 7-day trend, weekly tip countdown and kidney report, and
    the three state transitions "add entry", "end the day" and "reset".

    An entry's value is a colour level from 1 (very pale) to 8 (very dark
    amber); timestamps are not modelled.  `+(x).toFixed(2)` is `Round2`,
    rounding half up to two decimals in exact arithmetic.
 */
module HydrationLog {
  import opened Basics

  // ---------------------------------------------------------------------
  // Two-decimal rounding

  /** `toFixed(2)` of a non-negative number: the nearest multiple of 0.01,
      the larger one on a tie. */
  function RoundHalfUp(x: real): real
  {
    (x * 100.0 + 0.5).Floor as real / 100.0
  }

  /** `+(x).toFixed(2)`; a negative number is rounded by its magnitude. */
  function Round2(x: real): real
  {
    if x < 0.0 then -RoundHalfUp(-x) else RoundHalfUp(x)
  }

  lemma RoundHalfUpSign(x: real)
    requires x >= 0.0
    ensures RoundHalfUp(x) >= 0.0
  {
  }

  /** Rounding lands on a multiple of 0.01 no farther than 0.005 from its
      argument, keeps every whole number and never swaps two numbers. */
  lemma Round2Facts(x: real, y: real, k: int)
    ensures -0.005 <= Round2(x) - x <= 0.005
    ensures (Round2(x) * 100.0).Floor as real == Round2(x) * 100.0
    ensures Round2(k as real) == k as real
    ensures x <= y ==> Round2(x) <= Round2(y)
  {
    Round2Accuracy(x);
    Round2Order(x, y, k);
  }

  lemma Round2Accuracy(x: real)
    ensures -0.005 <= Round2(x) - x <= 0.005
    ensures (Round2(x) * 100.0).Floor as real == Round2(x) * 100.0
  {
    var a := if x < 0.0 then -x else x;
    var m := (a * 100.0 + 0.5).Floor;
    assert m as real <= a * 100.0 + 0.5 < m as real + 1.0;
    assert RoundHalfUp(a) * 100.0 == m as real;
    if x < 0.0 {
      assert Round2(x) * 100.0 == -(m as real);
      assert (-(m as real)).Floor == -m;
    } else {
      assert (m as real).Floor == m;
    }
  }

  lemma Round2Order(x: real, y: real, k: int)
    ensures Round2(k as real) == k as real
    ensures x <= y ==> Round2(x) <= Round2(y)
  {
    assert (k as real * 100.0 + 0.5).Floor == 100 * k;
    assert (-(k as real) * 100.0 + 0.5).Floor == -100 * k;
    if x <= y {
      if x >= 0.0 {
        assert (x * 100.0 + 0.5).Floor <= (y * 100.0 + 0.5).Floor;
      } else if y < 0.0 {
        assert (-y * 100.0 + 0.5).Floor <= (-x * 100.0 + 0.5).Floor;
      } else {
        RoundHalfUpSign(-x);
        RoundHalfUpSign(y);
      }
    }
  }

  // ---------------------------------------------------------------------
  // Sums

  function SumInts(s: seq<int>): int
  {
    if s == [] then 0 else SumInts(s[..|s| - 1]) + s[|s| - 1]
  }

  function SumReals(s: seq<real>): real
  {
    if s == [] then 0.0 else SumReals(s[..|s| - 1]) + s[|s| - 1]
  }

  lemma {:induction false} SumIntsBounds(s: seq<int>, lo: int, hi: int)
    requires forall i :: 0 <= i < |s| ==> lo <= s[i] <= hi
    ensures |s| * lo <= SumInts(s) <= |s| * hi
  {
    if s != [] {
      var n := |s|;
      SumIntsBounds(s[..n - 1], lo, hi);
      assert n * lo == (n - 1) * lo + lo;
      assert n * hi == (n - 1) * hi + hi;
    }
  }

  lemma {:induction false} SumRealsBounds(s: seq<real>, lo: real, hi: real)
    requires forall i :: 0 <= i < |s| ==> lo <= s[i] <= hi
    ensures |s| as real * lo <= SumReals(s) <= |s| as real * hi
  {
    if s != [] {
      var n := |s|;
      SumRealsBounds(s[..n - 1], lo, hi);
      assert n as real * lo == (n - 1) as real * lo + lo;
      assert n as real * hi == (n - 1) as real * hi + hi;
    }
  }

  /** Indices of a smallest and a largest element. */
  lemma {:induction false} IntExtremes(s: seq<int>) returns (lo: nat, hi: nat)
    requires |s| >= 1
    ensures lo < |s| && hi < |s|
    ensures forall i :: 0 <= i < |s| ==> s[lo] <= s[i] <= s[hi]
  {
    if |s| == 1 {
      lo, hi := 0, 0;
    } else {
      var n := |s|;
      lo, hi := IntExtremes(s[..n - 1]);
      assert forall i :: 0 <= i < n - 1 ==> s[..n - 1][i] == s[i];
      if s[n - 1] < s[lo] { lo := n - 1; }
      if s[n - 1] > s[hi] { hi := n - 1; }
    }
  }

  // ---------------------------------------------------------------------
  // Memos over the log

  /** `todayAvg`: `null` for an empty day, otherwise the rounded mean of
      the day's values. */
  function TodayAvg(entries: seq<int>): Option<real>
  {
    if |entries| == 0 then None
    else Some(Round2(SumInts(entries) as real / |entries| as real))
  }

  /** `todayAvg` is `null` iff nothing is logged today, and otherwise lies
      between the smallest and the largest value logged today. */
  lemma TodayAvgFacts(entries: seq<int>)
    ensures TodayAvg(entries).None? <==> entries == []
    ensures TodayAvg(entries).Some? ==>
      exists i, j :: 0 <= i < |entries| && 0 <= j < |entries| &&
        entries[i] as real <= TodayAvg(entries).value <= entries[j] as real
  {
    if entries != [] {
      var lo, hi := IntExtremes(entries);
      var n := |entries|;
      SumIntsBounds(entries, entries[lo], entries[hi]);
      var q := SumInts(entries) as real / n as real;
      QuotientBetween(SumInts(entries) as real, n as real, entries[lo] as real, entries[hi] as real);
      Round2Order(entries[lo] as real, q, entries[lo]);
      Round2Order(q, entries[hi] as real, entries[hi]);
    }
  }

  /** With every value in `lo..hi`, so is `todayAvg`. */
  lemma TodayAvgInRange(entries: seq<int>, lo: int, hi: int)
    requires entries != []
    requires forall i :: 0 <= i < |entries| ==> lo <= entries[i] <= hi
    ensures lo as real <= TodayAvg(entries).value <= hi as real
  {
    TodayAvgFacts(entries);
  }

  /** `weekNumber`: 1 for an empty history, then `floor((n - 1) / 7) + 1`. */
  function WeekNumber(n: nat): int
  {
    if n == 0 then 1 else (n - 1) / 7 + 1
  }

  /** `weekProgress`: `n % 7`, except 7 for a non-empty history whose length
      is a multiple of 7. */
  function WeekProgress(n: nat): int
  {
    var m := n % 7;
    if m == 0 && n > 0 then 7 else m
  }

  /** The week counter is at least 1, and a non-empty history of `n` saved
      days is `WeekNumber(n) - 1` full weeks and `WeekProgress(n)` days
      into the current week, which is 1 to 7 days long; the progress is 7
      exactly when `n` is a non-zero multiple of 7. */
  lemma WeekCounters(n: nat)
    ensures WeekNumber(n) >= 1
    ensures WeekProgress(n) == 0 <==> n == 0
    ensures n > 0 ==> 1 <= WeekProgress(n) <= 7 && n == 7 * (WeekNumber(n) - 1) + WeekProgress(n)
    ensures WeekProgress(n) == 7 <==> n > 0 && n % 7 == 0
  {
  }

  /** The tip line: a countdown of the days left, or the weekly tip. */
  datatype TipStatus = Remaining(days: nat) | Unlocked

  /** The tip line on start-up, for `completed` saved days. */
  function TipOnStart(completed: nat): TipStatus
  {
    if completed < 7 then Remaining(7 - completed)
    else if completed % 7 == 0 then Unlocked
    else Remaining(7 - completed % 7)
  }

  /** The tip line after "end the day" brings the history to `completed`
      days. */
  function TipAfterEndDay(completed: nat): TipStatus
  {
    if completed % 7 == 0 then Unlocked else Remaining(7 - completed % 7)
  }

  /** The tip unlocks exactly at a non-zero multiple of 7 days; otherwise
      the countdown is between 1 and 7 (7 only for an empty history) and
      reaches the next multiple of 7.  After the first saved day "end the
      day" shows what start-up would. */
  lemma TipCountdown(completed: nat)
    ensures TipOnStart(completed).Unlocked? <==> completed >= 7 && completed % 7 == 0
    ensures TipOnStart(completed).Remaining? ==>
      var r := TipOnStart(completed).days;
      1 <= r <= 7 && (r == 7 <==> completed == 0) && (completed + r) % 7 == 0
    ensures completed < 7 ==> TipOnStart(completed) == Remaining(7 - completed)
    ensures completed >= 1 ==> TipAfterEndDay(completed) == TipOnStart(completed)
  {
  }

  // ---------------------------------------------------------------------
  // compute7DayTrend

  datatype TrendLabel = Stable | Improving | GettingDarker

  /** `{ last7Avg, prev7Avg, trend }`. */
  datatype Trend = Trend(last7Avg: Option<real>, prev7Avg: Option<real>, trend: TrendLabel)

  function Max0(x: int): nat
  {
    if x < 0 then 0 else x
  }

  /** The rounded mean of a window if it holds exactly 7 days. */
  function WindowAvg(window: seq<real>): Option<real>
  {
    if |window| == 7 then Some(Round2(SumReals(window) / 7.0)) else None
  }

  /** `compute7DayTrend(history)`: `slice(-7)` and `slice(-14, -7)` of the
      daily averages, their rounded means, and the trend between them. */
  function Compute7DayTrend(history: seq<real>): Trend
  {
    var n := |history|;
    var last7 := WindowAvg(history[Max0(n - 7)..]);
    var prev7 := WindowAvg(history[Max0(n - 14)..Max0(n - 7)]);
    var trend :=
      if prev7.None? || last7.None? then Stable
      else if last7.value < prev7.value then Improving
      else if last7.value > prev7.value then GettingDarker
      else Stable;
    Trend(last7, prev7, trend)
  }

  /** The last-7 mean exists iff at least 7 days are saved and is the mean
      of the last 7; the previous-7 mean exists iff at least 14 are saved
      and is the mean of the 7 days before those. */
  lemma TrendWindows(history: seq<real>)
    ensures var t := Compute7DayTrend(history);
            var n := |history|;
            && (t.last7Avg.Some? <==> n >= 7)
            && (t.prev7Avg.Some? <==> n >= 14)
            && (n >= 7 ==> t.last7Avg.value == Round2(SumReals(history[n - 7..]) / 7.0))
            && (n >= 14 ==> t.prev7Avg.value == Round2(SumReals(history[n - 14..n - 7]) / 7.0))
  {
  }

  /** "improving" iff both means exist and the last is lower, "getting
      darker" iff both exist and the last is higher, "stable" otherwise. */
  lemma TrendLabels(history: seq<real>)
    ensures var t := Compute7DayTrend(history);
            && (t.trend == Improving <==>
                  t.last7Avg.Some? && t.prev7Avg.Some? && t.last7Avg.value < t.prev7Avg.value)
            && (t.trend == GettingDarker <==>
                  t.last7Avg.Some? && t.prev7Avg.Some? && t.last7Avg.value > t.prev7Avg.value)
            && (t.trend == Stable <==>
                  t.last7Avg.None? || t.prev7Avg.None? || t.last7Avg.value == t.prev7Avg.value)
  {
  }

  /** A history of fewer than 14 days has a stable trend. */
  lemma ShortHistoryIsStable(history: seq<real>)
    requires |history| < 14
    ensures Compute7DayTrend(history).trend == Stable
  {
    TrendWindows(history);
  }

  // ---------------------------------------------------------------------
  // weeklyReport

  datatype ReportStatus = InProgress | Excellent | GoodStable | AtRiskOfStrain

  /** `{ ready, title, text, status }`: the week shown in the title, the
      number of saved days shown while collecting, and the status. */
  datatype Report = Report(ready: bool, week: int, saved: nat, status: ReportStatus)

  /** The unrounded mean of the last 7 saved days. */
  function Last7Mean(history: seq<real>): real
    requires |history| >= 7
  {
    SumReals(history[|history| - 7..]) / 7.0
  }

  function WeeklyReport(history: seq<real>): Report
  {
    var n := |history|;
    if n < 7 then Report(false, WeekNumber(n), n, InProgress)
    else
      var mean := Last7Mean(history);
      var status := if mean <= 3.0 then Excellent else if mean <= 5.0 then GoodStable else AtRiskOfStrain;
      Report(true, WeekNumber(n), n, status)
  }

  /** The report is ready iff at least 7 days are saved, and then bands the
      last-7 mean: at most 3 is Excellent, at most 5 Good/Stable, above 5
      At Risk of Strain. */
  lemma ReportBands(history: seq<real>)
    ensures var r := WeeklyReport(history);
            && (r.ready <==> |history| >= 7)
            && (r.status == InProgress <==> !r.ready)
            && r.week == WeekNumber(|history|) && r.saved == |history|
            && (r.ready ==>
                  && (r.status == Excellent <==> Last7Mean(history) <= 3.0)
                  && (r.status == GoodStable <==> 3.0 < Last7Mean(history) <= 5.0)
                  && (r.status == AtRiskOfStrain <==> Last7Mean(history) > 5.0))
  {
  }

  /** With every saved average in [1, 8], the last-7 mean is in [1, 8]. */
  lemma Last7MeanInRange(history: seq<real>)
    requires |history| >= 7
    requires forall i :: 0 <= i < |history| ==> 1.0 <= history[i] <= 8.0
    ensures 1.0 <= Last7Mean(history) <= 8.0
  {
    var w := history[|history| - 7..];
    assert forall i :: 0 <= i < |w| ==> w[i] == history[|history| - 7 + i];
    SumRealsBounds(w, 1.0, 8.0);
  }

  // ---------------------------------------------------------------------
  // The state transitions

  /** Colour levels run from 1 to 8 (`URINE_COLORS[value - 1]`). */
  predicate IsLevel(v: int)
  {
    1 <= v <= 8
  }

  /** The log kept by the page: today's values, the saved daily averages,
      the day counter, the selected colour and the tip line. */
  class Tracker {
    var todayEntries: seq<int>
    var weeklyAverages: seq<real>
    var dayCount: int
    var selectedColor: Option<int>
    var tip: TipStatus

    /** Every value is a colour level, every saved average lies in [1, 8],
        and the day counter is one more than the number of saved days. */
    ghost predicate Valid()
      reads this
    {
      && (forall i :: 0 <= i < |todayEntries| ==> IsLevel(todayEntries[i]))
      && (forall i :: 0 <= i < |weeklyAverages| ==> 1.0 <= weeklyAverages[i] <= 8.0)
      && dayCount == |weeklyAverages| + 1
    }

    /** A first start: nothing stored, so day 1 and an empty log. */
    constructor ()
      ensures Valid()
      ensures todayEntries == [] && weeklyAverages == [] && dayCount == 1
      ensures selectedColor == None && tip == TipOnStart(0)
    {
      todayEntries := [];
      weeklyAverages := [];
      dayCount := 1;
      selectedColor := None;
      tip := TipOnStart(0);
    }

    /** `addEntry(value)`: logs one value for today. */
    method AddEntry(value: int)
      requires Valid() && IsLevel(value)
      modifies this
      ensures Valid()
      ensures todayEntries == old(todayEntries) + [value]
      ensures selectedColor == Some(value)
      ensures weeklyAverages == old(weeklyAverages) && dayCount == old(dayCount) && tip == old(tip)
    {
      todayEntries := todayEntries + [value];
      selectedColor := Some(value);
    }

    /** `endDay()`: with no entries nothing changes; otherwise saves today's
        average as one more day, clears today, advances the day counter and
        shows the tip line for the new history. */
    method EndDay()
      requires Valid()
      modifies this
      ensures Valid()
      ensures old(todayEntries) == [] ==>
        && todayEntries == old(todayEntries) && weeklyAverages == old(weeklyAverages)
        && dayCount == old(dayCount) && selectedColor == old(selectedColor) && tip == old(tip)
      ensures old(todayEntries) != [] ==>
        && weeklyAverages == old(weeklyAverages) + [TodayAvg(old(todayEntries)).value]
        && todayEntries == [] && selectedColor == None
        && dayCount == old(dayCount) + 1
        && tip == TipAfterEndDay(|weeklyAverages|)
    {
      if |todayEntries| == 0 {
        return;
      }
      var avg := match TodayAvg(todayEntries) case Some(a) => a case None => 0.0;
      TodayAvgInRange(todayEntries, 1, 8);
      var nextWeekly := weeklyAverages + [avg];
      weeklyAverages := nextWeekly;
      todayEntries := [];
      selectedColor := None;
      dayCount := dayCount + 1;
      tip := TipAfterEndDay(|nextWeekly|);
    }

    /** `resetAll()`: unless the user cancels, back to an empty log on
        day 1 with the full countdown. */
    method ResetAll(confirmed: bool)
      requires Valid()
      modifies this
      ensures Valid()
      ensures !confirmed ==>
        && todayEntries == old(todayEntries) && weeklyAverages == old(weeklyAverages)
        && dayCount == old(dayCount) && selectedColor == old(selectedColor) && tip == old(tip)
      ensures confirmed ==>
        && todayEntries == [] && weeklyAverages == [] && dayCount == 1
        && selectedColor == None && tip == Remaining(7)
    {
      if !confirmed {
        return;
      }
      todayEntries := [];
      weeklyAverages := [];
      selectedColor := None;
      dayCount := 1;
      tip := Remaining(7);
    }
  }
}
