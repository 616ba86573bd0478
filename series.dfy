/** `smoothify_series` of `series.c`: a centred moving average of width
    2w + 1 over the significant values of a series, a value being significant
    when it is at least a 150th of the series' maximum (or 0).  Only windows
    lying wholly inside the series produce output; a running sum that falls
    below 0 is reset to 0 once the window is full. */
module Series {
  import opened Windows

  const SIGNIFICANT_RATIO: real := 150.0

  /** `get_significant_value`: the value if it reaches a 150th of the
      maximum, 0 otherwise. */
  function Significant(value: real, maxValue: real): (r: real)
    ensures r == value || r == 0.0
    ensures r != value ==> value < maxValue / SIGNIFICANT_RATIO
    ensures r != 0.0 ==> value >= maxValue / SIGNIFICANT_RATIO
  {
    if value >= maxValue / SIGNIFICANT_RATIO then value else 0.0
  }

  function SignificantValues(s: seq<real>, maxValue: real): (r: seq<real>)
    ensures |r| == |s|
    ensures forall k :: 0 <= k < |s| ==> r[k] == Significant(s[k], maxValue)
  {
    seq(|s|, k requires 0 <= k < |s| => Significant(s[k], maxValue))
  }

  /** `window_size` after the first i steps of the loop over a series of n
      values: the values added minus those taken out. */
  function WindowCount(n: nat, w: nat, i: nat): (c: int)
    requires i <= n + w
    ensures 0 <= c <= 2 * w + 1
    ensures c == 2 * w + 1 <==> 2 * w < i <= n
  {
    Min(i, n) - Max(0, i - (2 * w + 1))
  }

  /** Step j of the loop applied to `smoothing_sum`: the entering
      significant value is added, the leaving one subtracted, and a negative
      sum is reset to 0 when the window is full. */
  function StepSum(prev: real, s: seq<real>, maxValue: real, w: nat, j: nat): real
    requires j < |s| + w
  {
    var added := prev + (if j < |s| then Significant(s[j], maxValue) else 0.0);
    var sum := added - (if j >= 2 * w + 1 then Significant(s[j - (2 * w + 1)], maxValue) else 0.0);
    if WindowCount(|s|, w, j + 1) == 2 * w + 1 && sum < 0.0 then 0.0 else sum
  }

  /** `smoothing_sum` after the first i steps. */
  function RunningSum(s: seq<real>, maxValue: real, w: nat, i: nat): real
    requires i <= |s| + w
  {
    if i == 0 then 0.0 else StepSum(RunningSum(s, maxValue, w, i - 1), s, maxValue, w, i - 1)
  }

  /** The output at a position whose window lies inside the series. */
  function Smoothed(s: seq<real>, w: nat, p: nat): real
    requires w <= p && p + w < |s|
  {
    RunningSum(s, MaxFromZero(s), w, p + w + 1) / (2 * w + 1) as real
  }

  /** For a series without negative values the running sum is the sum of the
      significant values in the window, whatever the maximum: the reset never
      happens. */
  lemma {:induction false} RunningSumIsWindowSum(s: seq<real>, m: real, w: nat, i: nat)
    requires i <= |s| + w
    requires forall k :: 0 <= k < |s| ==> s[k] >= 0.0
    ensures RunningSum(s, m, w, i) == SumRange(SignificantValues(s, m), Max(0, i - (2 * w + 1)), Min(i, |s|))
  {
    if i > 0 {
      var j := i - 1;
      RunningSumIsWindowSum(s, m, w, j);
      StepIsWindowSum(s, m, w, j, Max(0, j - (2 * w + 1)), Min(j, |s|));
    }
  }

  /** One step moves the window sum of the significant values along. */
  lemma StepIsWindowSum(s: seq<real>, m: real, w: nat, j: nat, lo: nat, hi: nat)
    requires j < |s| + w && lo == Max(0, j - (2 * w + 1)) && hi == Min(j, |s|)
    requires forall k :: 0 <= k < |s| ==> s[k] >= 0.0
    ensures var sig := SignificantValues(s, m);
            StepSum(SumRange(sig, lo, hi), s, m, w, j)
            == SumRange(sig, Max(0, j + 1 - (2 * w + 1)), Min(j + 1, |s|))
  {
    var sig := SignificantValues(s, m);
    var hi' := Min(j + 1, |s|);
    var lo' := Max(0, j + 1 - (2 * w + 1));
    var added := SumRange(sig, lo, hi) + (if j < |s| then Significant(s[j], m) else 0.0);
    assert added == SumRange(sig, lo, hi');
    var sum := added - (if j >= 2 * w + 1 then Significant(s[j - (2 * w + 1)], m) else 0.0);
    if j >= 2 * w + 1 {
      SumRangeDropFirst(sig, lo, hi');
    }
    assert sum == SumRange(sig, lo', hi');
    SumRangeNonNegative(sig, lo', hi');
  }

  /** For a series without negative values, each output is the mean of the
      significant values of the 2w + 1 values centred on it. */
  lemma SmoothedIsWindowMean(s: seq<real>, w: nat, p: nat)
    requires w <= p && p + w < |s|
    requires forall k :: 0 <= k < |s| ==> s[k] >= 0.0
    ensures Smoothed(s, w, p)
            == SumRange(SignificantValues(s, MaxFromZero(s)), p - w, p + w + 1) / (2 * w + 1) as real
  {
    RunningSumIsWindowSum(s, MaxFromZero(s), w, p + w + 1);
  }

  /** The first loop of `smoothify_series`: the largest of the first `size`
      values, or 0 if that is larger. */
  method MaxValue(input: array<real>, size: nat) returns (maxValue: real)
    requires size <= input.Length
    ensures maxValue == MaxFromZero(input[..size])
  {
    maxValue := 0.0;
    var i := 0;
    while i < size
      invariant 0 <= i <= size
      invariant maxValue == MaxFromZero(input[..i])
    {
      assert input[..i + 1][..i] == input[..i];
      if input[i] > maxValue {
        maxValue := input[i];
      }
      i := i + 1;
    }
  }

  /** `out` after the first i steps of the smoothing loop, starting from o. */
  function OutAfter(s: seq<real>, w: nat, o: seq<real>, i: nat): (r: seq<real>)
    requires |s| <= |o| && i <= |s| + w
    ensures |r| == |o|
  {
    if i == 0 then o
    else
      var prev := OutAfter(s, w, o, i - 1);
      if WindowCount(|s|, w, i) == 2 * w + 1 && i - 1 >= w
      then prev[i - 1 - w := RunningSum(s, MaxFromZero(s), w, i) / (2 * w + 1) as real]
      else prev
  }

  /** After i steps exactly the positions whose window lies inside the series
      and ends before step i have been written, each with its output. */
  lemma {:induction false} OutAfterWritten(s: seq<real>, w: nat, o: seq<real>, i: nat)
    requires |s| <= |o| && i <= |s| + w
    ensures forall p :: 0 <= p < |o| ==>
              OutAfter(s, w, o, i)[p] == if w <= p && p + w < |s| && p + w < i then Smoothed(s, w, p) else o[p]
  {
    if i > 0 {
      OutAfterWritten(s, w, o, i - 1);
    }
  }

  /** One step of the smoothing loop: the running sum and window count move
      along, and when the window is full the output at its centre is
      written. */
  method SmoothStep(input: array<real>, out: array<real>, size: nat, w: nat, maxValue: real,
                    i: nat, smoothingSum: real, windowSize: nat)
    returns (smoothingSum': real, windowSize': nat)
    requires size <= input.Length && size <= out.Length && input != out && i < size + w
    requires windowSize == WindowCount(size, w, i)
    modifies out
    ensures smoothingSum' == StepSum(smoothingSum, input[..size], maxValue, w, i)
    ensures windowSize' == WindowCount(size, w, i + 1)
    ensures out[..] == if windowSize' == 2 * w + 1 && i >= w
                       then old(out[..])[i - w := smoothingSum' / (2 * w + 1) as real]
                       else old(out[..])
  {
    smoothingSum', windowSize' := smoothingSum, windowSize;
    if i < size {
      smoothingSum' := smoothingSum' + Significant(input[i], maxValue);
      windowSize' := windowSize' + 1;
    }
    if i >= 2 * w + 1 {
      smoothingSum' := smoothingSum' - Significant(input[i - 2 * w - 1], maxValue);
      windowSize' := windowSize' - 1;
    }
    if windowSize' == 2 * w + 1 {
      if smoothingSum' < 0.0 {
        smoothingSum' := 0.0;
      }
      if i >= w {
        var pos := i - w;
        assert windowSize' as real == (2 * w + 1) as real;
        out[pos] := smoothingSum' / windowSize' as real;
      }
    }
  }

  /** `smoothify_series(in, out, size, w)`.  `out` must not be `in`.  Exactly
      the positions whose window lies inside the first `size` values are
      written; every other slot of `out` keeps its contents. */
  method SmoothifySeries(input: array<real>, out: array<real>, size: nat, w: nat)
    requires size <= input.Length && size <= out.Length && input != out
    modifies out
    ensures forall p :: 0 <= p < out.Length ==>
              out[p] == if w <= p && p + w < size then Smoothed(input[..size], w, p) else old(out[p])
  {
    ghost var s := input[..size];
    ghost var o := out[..];
    var maxValue := MaxValue(input, size);
    var smoothingSum := 0.0;
    var windowSize: nat := 0;
    var i := 0;
    while i < size + w
      invariant 0 <= i <= size + w
      invariant smoothingSum == RunningSum(s, maxValue, w, i)
      invariant windowSize == WindowCount(size, w, i)
      invariant out[..] == OutAfter(s, w, o, i)
    {
      smoothingSum, windowSize := SmoothStep(input, out, size, w, maxValue, i, smoothingSum, windowSize);
      i := i + 1;
    }
    OutAfterWritten(s, w, o, size + w);
  }
}
