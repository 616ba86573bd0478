/** Sums of windows of a series, shared by the three moving averages of the
    project (`series.c`, `relevance.cpp` and `dictionary.py`).  Doubles are
    modelled as reals, so a running sum that adds the entering value and
    subtracts the leaving one is exactly the sum of the window. */
module Windows {

  /** s[lo] + ... + s[hi - 1]. */
  function SumRange(s: seq<real>, lo: nat, hi: nat): real
    requires lo <= hi <= |s|
    decreases hi - lo
  {
    if lo == hi then 0.0 else SumRange(s, lo, hi - 1) + s[hi - 1]
  }

  lemma {:induction false} SumRangeNonNegative(s: seq<real>, lo: nat, hi: nat)
    requires lo <= hi <= |s|
    requires forall k :: lo <= k < hi ==> s[k] >= 0.0
    ensures SumRange(s, lo, hi) >= 0.0
    decreases hi - lo
  {
    if lo < hi {
      SumRangeNonNegative(s, lo, hi - 1);
    }
  }

  /** Dropping the first element of a window subtracts it. */
  lemma {:induction false} SumRangeDropFirst(s: seq<real>, lo: nat, hi: nat)
    requires lo < hi <= |s|
    ensures SumRange(s, lo + 1, hi) == SumRange(s, lo, hi) - s[lo]
    decreases hi - lo
  {
    if lo + 1 < hi {
      SumRangeDropFirst(s, lo, hi - 1);
    }
  }

  /** A window splits at any point inside it. */
  lemma {:induction false} SumRangeSplit(s: seq<real>, lo: nat, mid: nat, hi: nat)
    requires lo <= mid <= hi <= |s|
    ensures SumRange(s, lo, hi) == SumRange(s, lo, mid) + SumRange(s, mid, hi)
    decreases hi - mid
  {
    if mid < hi {
      SumRangeSplit(s, lo, mid, hi - 1);
    }
  }

  /** Window sums are additive: the sum of a+b is the sum of a plus the sum of b. */
  lemma {:induction false} SumRangeAdd(a: seq<real>, b: seq<real>, c: seq<real>, lo: nat, hi: nat)
    requires lo <= hi <= |a| && |a| == |b| == |c|
    requires forall k :: lo <= k < hi ==> c[k] == a[k] + b[k]
    ensures SumRange(c, lo, hi) == SumRange(a, lo, hi) + SumRange(b, lo, hi)
    decreases hi - lo
  {
    if lo < hi {
      SumRangeAdd(a, b, c, lo, hi - 1);
    }
  }

  /** Window sums are homogeneous: scaling every value scales the sum. */
  lemma {:induction false} SumRangeScale(a: seq<real>, x: real, c: seq<real>, lo: nat, hi: nat)
    requires lo <= hi <= |a| && |a| == |c|
    requires forall k :: lo <= k < hi ==> c[k] == x * a[k]
    ensures SumRange(c, lo, hi) == x * SumRange(a, lo, hi)
    decreases hi - lo
  {
    if lo < hi {
      SumRangeScale(a, x, c, lo, hi - 1);
    }
  }

  /** Window sums are linear: the sum of a + x*b is the sum of a plus x times
      the sum of b. */
  lemma {:induction false} SumRangeAxpy(a: seq<real>, x: real, b: seq<real>, c: seq<real>, lo: nat, hi: nat)
    requires lo <= hi <= |a| && |a| == |b| == |c|
    requires forall k :: lo <= k < hi ==> c[k] == a[k] + x * b[k]
    ensures SumRange(c, lo, hi) == SumRange(a, lo, hi) + x * SumRange(b, lo, hi)
    decreases hi - lo
  {
    if lo < hi {
      SumRangeAxpy(a, x, b, c, lo, hi - 1);
    }
  }

  /** Window sums are linear: the sum of a - x*b is the sum of a minus x
      times the sum of b. */
  lemma {:induction false} SumRangeDifference(a: seq<real>, x: real, b: seq<real>, c: seq<real>, lo: nat, hi: nat)
    requires lo <= hi <= |a| && |a| == |b| == |c|
    requires forall k :: lo <= k < hi ==> c[k] == a[k] - x * b[k]
    ensures SumRange(c, lo, hi) == SumRange(a, lo, hi) - x * SumRange(b, lo, hi)
    decreases hi - lo
  {
    if lo < hi {
      SumRangeDifference(a, x, b, c, lo, hi - 1);
    }
  }

  /** A window of ones sums to its length. */
  lemma {:induction false} SumRangeOfOnes(s: seq<real>, lo: nat, hi: nat)
    requires lo <= hi <= |s|
    requires forall k :: lo <= k < hi ==> s[k] == 1.0
    ensures SumRange(s, lo, hi) == (hi - lo) as real
    decreases hi - lo
  {
    if lo < hi {
      SumRangeOfOnes(s, lo, hi - 1);
    }
  }

  function Min(a: int, b: int): int
  {
    if a < b then a else b
  }

  function Max(a: int, b: int): int
  {
    if a < b then b else a
  }

  /** The largest value of s, or 0 if that is larger (the `max_value` scan
      that starts from 0). */
  function MaxFromZero(s: seq<real>): (m: real)
    ensures m >= 0.0
    ensures forall k :: 0 <= k < |s| ==> s[k] <= m
    ensures m == 0.0 || exists k :: 0 <= k < |s| && s[k] == m
  {
    if |s| == 0 then 0.0
    else
      var m := MaxFromZero(s[..|s| - 1]);
      assert forall k :: 0 <= k < |s| - 1 ==> s[..|s| - 1][k] == s[k];
      if s[|s| - 1] > m then s[|s| - 1] else m
  }
}
