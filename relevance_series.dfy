/** The series helpers of `relevance.cpp`: its own revision of
    `smoothify_series` (window 2, no significance cut, a clamp of the running
    sum at every step once a centre exists) and `average_match_count`. */
module RelevanceSeries {
  import opened Windows
  import opened Series

  /** `MAX_YEARS` of the reader. */
  const MAX_YEARS: nat := 509

  /** `smoothing_window`. */
  const SMOOTHING_WINDOW: nat := 2

  /** Step j of the loop applied to `smoothing_sum`: the entering value is
      added, the leaving one subtracted, and from j = w on a negative sum is
      reset to 0, whether or not the window is full. */
  function VariantStep(prev: real, s: seq<real>, w: nat, j: nat): real
    requires j < |s| + w
  {
    var added := prev + (if j < |s| then s[j] else 0.0);
    var sum := added - (if j >= 2 * w + 1 then s[j - (2 * w + 1)] else 0.0);
    if j >= w && sum < 0.0 then 0.0 else sum
  }

  /** `smoothing_sum` after the first i steps; once step w has run it is
      never negative, whatever the input, since the clamp acts at every
      later step. */
  function VariantSum(s: seq<real>, w: nat, i: nat): (r: real)
    requires i <= |s| + w
    ensures w < i ==> r >= 0.0
  {
    if i == 0 then 0.0 else VariantStep(VariantSum(s, w, i - 1), s, w, i - 1)
  }

  /** For a series without negative values the clamp never acts and the
      running sum is the sum of the window. */
  lemma {:induction false} VariantSumIsWindowSum(s: seq<real>, w: nat, i: nat)
    requires i <= |s| + w
    requires forall k :: 0 <= k < |s| ==> s[k] >= 0.0
    ensures VariantSum(s, w, i) == SumRange(s, Max(0, i - (2 * w + 1)), Min(i, |s|))
  {
    if i > 0 {
      var j := i - 1;
      VariantSumIsWindowSum(s, w, j);
      VariantStepIsWindowSum(s, w, j, Max(0, j - (2 * w + 1)), Min(j, |s|));
    }
  }

  lemma VariantStepIsWindowSum(s: seq<real>, w: nat, j: nat, lo: nat, hi: nat)
    requires j < |s| + w && lo == Max(0, j - (2 * w + 1)) && hi == Min(j, |s|)
    requires forall k :: 0 <= k < |s| ==> s[k] >= 0.0
    ensures VariantStep(SumRange(s, lo, hi), s, w, j) == SumRange(s, Max(0, j + 1 - (2 * w + 1)), Min(j + 1, |s|))
  {
    var hi' := Min(j + 1, |s|);
    var lo' := Max(0, j + 1 - (2 * w + 1));
    var added := SumRange(s, lo, hi) + (if j < |s| then s[j] else 0.0);
    assert added == SumRange(s, lo, hi');
    if j >= 2 * w + 1 {
      SumRangeDropFirst(s, lo, hi');
    }
    SumRangeNonNegative(s, lo', hi');
  }

  /** The output at a position whose window of 2w + 1 values lies inside
      the series. */
  function VariantOut(s: seq<real>, w: nat, p: nat): real
    requires w <= p && p + w < |s|
  {
    VariantSum(s, w, p + w + 1) / (2 * w + 1) as real
  }

  /** For a series without negative values each output is the mean of the
      2w + 1 values centred on it. */
  lemma VariantOutIsMean(s: seq<real>, w: nat, p: nat)
    requires w <= p && p + w < |s|
    requires forall k :: 0 <= k < |s| ==> s[k] >= 0.0
    ensures VariantOut(s, w, p) == SumRange(s, p - w, p + w + 1) / (2 * w + 1) as real
  {
    VariantSumIsWindowSum(s, w, p + w + 1);
  }

  /** `smooth_series` after the first i steps, from o. */
  function VariantAfter(s: seq<real>, w: nat, o: seq<real>, i: nat): (r: seq<real>)
    requires |s| <= |o| && i <= |s| + w
    ensures |r| == |o|
  {
    if i == 0 then o
    else
      var prev := VariantAfter(s, w, o, i - 1);
      if WindowCount(|s|, w, i) == 2 * w + 1 && i - 1 >= w
      then prev[i - 1 - w := VariantSum(s, w, i) / (2 * w + 1) as real]
      else prev
  }

  /** After i steps exactly the positions whose window lies inside the
      series and ends before step i have been written. */
  lemma {:induction false} VariantAfterWritten(s: seq<real>, w: nat, o: seq<real>, i: nat)
    requires |s| <= |o| && i <= |s| + w
    ensures forall p :: 0 <= p < |o| ==>
              VariantAfter(s, w, o, i)[p] == if w <= p && p + w < |s| && p + w < i then VariantOut(s, w, p) else o[p]
  {
    if i > 0 {
      VariantAfterWritten(s, w, o, i - 1);
    }
  }

  /** One step of the loop. */
  method VariantStepOf(series: array<real>, smooth: array<real>, j: nat, smoothingSum: real, windowSize: nat)
    returns (smoothingSum': real, windowSize': nat)
    requires series.Length == MAX_YEARS && smooth.Length == MAX_YEARS && j < MAX_YEARS + SMOOTHING_WINDOW
    requires windowSize == WindowCount(MAX_YEARS, SMOOTHING_WINDOW, j)
    modifies smooth
    ensures smoothingSum' == VariantStep(smoothingSum, series[..], SMOOTHING_WINDOW, j)
    ensures windowSize' == WindowCount(MAX_YEARS, SMOOTHING_WINDOW, j + 1)
    ensures smooth[..] == if windowSize' == 2 * SMOOTHING_WINDOW + 1 && j >= SMOOTHING_WINDOW
                          then old(smooth[..])[j - SMOOTHING_WINDOW := smoothingSum' / windowSize' as real]
                          else old(smooth[..])
  {
    smoothingSum', windowSize' := smoothingSum, windowSize;
    if j < MAX_YEARS {
      smoothingSum' := smoothingSum' + series[j];
      windowSize' := windowSize' + 1;
    }
    if j >= 2 * SMOOTHING_WINDOW + 1 {
      smoothingSum' := smoothingSum' - series[j - 2 * SMOOTHING_WINDOW - 1];
      windowSize' := windowSize' - 1;
    }
    if j >= SMOOTHING_WINDOW {
      var pos := j - SMOOTHING_WINDOW;
      if smoothingSum' < 0.0 {
        smoothingSum' := 0.0;
      }
      if windowSize' == 2 * SMOOTHING_WINDOW + 1 {
        smooth[pos] := smoothingSum' / windowSize' as real;
      }
    }
  }

  /** `smoothify_series(series, smooth_series)` of `relevance.cpp`: exactly
      the positions p in [2, MAX_YEARS - 3] are written, with the running
      sum of their window over 5; every other slot keeps its contents. */
  method SmoothifyVariant(series: array<real>, smooth: array<real>)
    requires series.Length == MAX_YEARS && smooth.Length == MAX_YEARS && series != smooth
    modifies smooth
    ensures forall p :: 0 <= p < MAX_YEARS ==>
              smooth[p] == if SMOOTHING_WINDOW <= p < MAX_YEARS - SMOOTHING_WINDOW
                           then VariantOut(series[..], SMOOTHING_WINDOW, p) else old(smooth[p])
  {
    ghost var s, o := series[..], smooth[..];
    var smoothingSum := 0.0;
    var windowSize: nat := 0;
    var j := 0;
    while j < MAX_YEARS + SMOOTHING_WINDOW
      invariant 0 <= j <= MAX_YEARS + SMOOTHING_WINDOW && series[..] == s
      invariant smoothingSum == VariantSum(s, SMOOTHING_WINDOW, j)
      invariant windowSize == WindowCount(MAX_YEARS, SMOOTHING_WINDOW, j)
      invariant smooth[..] == VariantAfter(s, SMOOTHING_WINDOW, o, j)
    {
      smoothingSum, windowSize := VariantStepOf(series, smooth, j, smoothingSum, windowSize);
      j := j + 1;
    }
    VariantAfterWritten(s, SMOOTHING_WINDOW, o, MAX_YEARS + SMOOTHING_WINDOW);
  }

  /** `average_match_count(series, start, end)`: the mean match count of
      [start, end); the source divides by `end - start`, so the range must
      not be empty. */
  method AverageMatchCount(matchCounts: seq<real>, start: nat, end: nat) returns (avg: real)
    requires start < end <= |matchCounts|
    ensures avg == SumRange(matchCounts, start, end) / (end - start) as real
  {
    var acc := 0.0;
    var i := start;
    while i < end
      invariant start <= i <= end
      invariant acc == SumRange(matchCounts, start, i)
    {
      acc := acc + matchCounts[i];
      i := i + 1;
    }
    avg := acc / (end - start) as real;
  }

  /** The mean lies between any bounds of the values it averages. */
  lemma {:induction false} AverageBounds(s: seq<real>, start: nat, end: nat, lo: real, hi: real)
    requires start < end <= |s|
    requires forall k :: start <= k < end ==> lo <= s[k] <= hi
    ensures lo <= SumRange(s, start, end) / (end - start) as real <= hi
  {
    var n := (end - start) as real;
    SumRangeBounds(s, start, end, lo, hi);
    assert lo * n <= SumRange(s, start, end) <= hi * n;
  }

  lemma {:induction false} SumRangeBounds(s: seq<real>, start: nat, end: nat, lo: real, hi: real)
    requires start <= end <= |s|
    requires forall k :: start <= k < end ==> lo <= s[k] <= hi
    ensures lo * (end - start) as real <= SumRange(s, start, end) <= hi * (end - start) as real
    decreases end - start
  {
    if start < end {
      SumRangeBounds(s, start, end - 1, lo, hi);
      var n := (end - start) as real;
      assert (end - 1 - start) as real == n - 1.0;
      assert lo * n == lo * (n - 1.0) + lo && hi * n == hi * (n - 1.0) + hi;
    }
  }
}
