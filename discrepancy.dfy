/** The numerical-discrepancy detector (numerical_discrepancy.cpp): the
    burstiness of a range of the series, its decomposition into
    positive-scoring intervals, the worklist of `fit_discrepancy` that
    re-analyses every interval of 32 years or more on its own, the
    logarithmic discrepancy score and the per-year counts of
    `compute_relevance`.  The logarithm is a parameter. */
module Discrepancy {
  import opened Windows
  import opened StoreTypes
  import opened MaxSequences

  /** Intervals this long or longer are split again. */
  const SPLIT_LENGTH: nat := 32

  /** The smoothing window `compute_relevance` passes to `fit_discrepancy`. */
  const RELEVANCE_WINDOW: nat := 2

  /** `pair< pair<size_t, size_t>, double >`: an interval of years and its
      burstiness total. */
  datatype ScoredInterval = ScoredInterval(first: nat, second: nat, score: real)

  /** Number of years in an interval. */
  function Len(iv: ScoredInterval): nat
  {
    if iv.first <= iv.second then iv.second - iv.first + 1 else 0
  }

  /** Total number of years over a sequence of intervals. */
  function TotalLength(ivs: seq<ScoredInterval>): nat
  {
    if |ivs| == 0 then 0 else TotalLength(ivs[..|ivs| - 1]) + Len(ivs[|ivs| - 1])
  }

  lemma {:induction false} TotalLengthAppend(a: seq<ScoredInterval>, b: seq<ScoredInterval>)
    ensures TotalLength(a + b) == TotalLength(a) + TotalLength(b)
    decreases |b|
  {
    if |b| > 0 {
      assert (a + b)[..|a + b| - 1] == a + b[..|b| - 1];
      TotalLengthAppend(a, b[..|b| - 1]);
    } else {
      assert a + b == a;
    }
  }

  /** `add_to_pair(p, offset)`. */
  function AddToPair(p: Interval, offset: nat): (r: Interval)
    ensures r.0 >= offset && r.1 >= offset
    ensures r.1 - r.0 == p.1 - p.0
  {
    (p.0 + offset, p.1 + offset)
  }

  /** `burstiness[i] = series[i] / sum - 1. / num_elems` over the range
      series[lo .. lo + count), `sum` being the total of the range. */
  function Burstiness(series: seq<real>, lo: nat, count: nat): (b: seq<real>)
    requires lo + count <= |series|
    requires count == 0 || SumRange(series, lo, lo + count) != 0.0
    ensures |b| == count
  {
    seq(count, k requires 0 <= k < count => series[lo + k] / SumRange(series, lo, lo + count) - 1.0 / count as real)
  }

  lemma DivAdd(x: real, y: real, s: real)
    requires s != 0.0
    ensures (x + y) / s == x / s + y / s
  {
  }

  /** The burstiness of a window of the range: its share of the range total
      less its share of the range length. */
  lemma {:induction false} BurstinessSum(series: seq<real>, lo: nat, count: nat, f: nat, g: nat)
    requires lo + count <= |series| && count > 0 && SumRange(series, lo, lo + count) != 0.0
    requires f <= g <= count
    ensures SumRange(Burstiness(series, lo, count), f, g)
            == SumRange(series, lo + f, lo + g) / SumRange(series, lo, lo + count) - (g - f) as real / count as real
    decreases g - f
  {
    var s := SumRange(series, lo, lo + count);
    if f < g {
      BurstinessSum(series, lo, count, f, g - 1);
      DivAdd(SumRange(series, lo + f, lo + g - 1), series[lo + g - 1], s);
      DivAdd((g - 1 - f) as real, 1.0, count as real);
    }
  }

  /** The burstiness values of a range sum to 0. */
  lemma BurstinessBalanced(series: seq<real>, lo: nat, count: nat)
    requires lo + count <= |series| && count > 0 && SumRange(series, lo, lo + count) != 0.0
    ensures SumRange(Burstiness(series, lo, count), 0, count) == 0.0
  {
    BurstinessSum(series, lo, count, 0, count);
  }

  /** `analyze_burstiness(series + lo, count, bursty_sums, indices)` with
      empty `indices`: the prefix sums of the burstiness of the range and its
      decomposition.  The range total may be 0 only for an empty range. */
  method AnalyzeBurstiness(series: seq<real>, lo: nat, count: nat) returns (sums: seq<real>, idx: seq<Interval>)
    requires lo + count <= |series| && count <= READER_MAX_YEARS
    requires count == 0 || SumRange(series, lo, lo + count) != 0.0
    ensures IsPrefixSums(Burstiness(series, lo, count), sums)
    ensures Decomposition(Burstiness(series, lo, count), sums, idx)
  {
    var burstiness := new real[READER_MAX_YEARS];
    var sum := 0.0;
    var i := 0;
    while i < count
      invariant i <= count && sum == SumRange(series, lo, lo + i)
    {
      sum := sum + series[lo + i];
      i := i + 1;
    }
    i := 0;
    while i < count
      invariant i <= count
      invariant forall k :: 0 <= k < i ==> burstiness[k] == series[lo + k] / sum - 1.0 / count as real
    {
      burstiness[i] := series[lo + i] / sum - 1.0 / count as real;
      i := i + 1;
    }
    assert burstiness[..count] == Burstiness(series, lo, count);
    sums, idx := ComputeMaxSequences(burstiness[..count]);
  }

  /** `iv` shifted by `offset` can be scored from `sums` taken from `sOff`. */
  predicate Fits(iv: Interval, offset: nat, sums: seq<real>, sOff: nat)
  {
    iv.0 <= iv.1 && sOff <= iv.0 + offset && iv.1 + offset + 1 - sOff < |sums|
  }

  /** The entry `append_indices` records for `iv`: the interval shifted by
      `offset`, scored by the difference of `sums` across it. */
  function Recorded(iv: Interval, offset: nat, sums: seq<real>, sOff: nat): ScoredInterval
    requires Fits(iv, offset, sums, sOff)
  {
    var p := AddToPair(iv, offset);
    ScoredInterval(p.0, p.1, sums[p.1 + 1 - sOff] - sums[p.0 - sOff])
  }

  /** `append_indices(indices, intervals, offset, sums, s_off)`: one entry
      per interval, in order, after the existing ones. */
  method AppendIndices(idx: seq<Interval>, intervals: seq<ScoredInterval>, offset: nat, sums: seq<real>, sOff: nat)
    returns (r: seq<ScoredInterval>)
    requires forall k :: 0 <= k < |idx| ==> Fits(idx[k], offset, sums, sOff)
    ensures |r| == |intervals| + |idx| && r[..|intervals|] == intervals
    ensures forall k :: 0 <= k < |idx| ==> r[|intervals| + k] == Recorded(idx[k], offset, sums, sOff)
  {
    r := intervals;
    var i := 0;
    while i < |idx|
      invariant i <= |idx| && |r| == |intervals| + i && r[..|intervals|] == intervals
      invariant forall k :: 0 <= k < i ==> r[|intervals| + k] == Recorded(idx[k], offset, sums, sOff)
    {
      var interval := AddToPair(idx[i], offset);
      var score := sums[interval.1 + 1 - sOff] - sums[interval.0 - sOff];
      r := r + [ScoredInterval(interval.0, interval.1, score)];
      i := i + 1;
    }
  }

  /** The burstiness total over `[first, second]` of the top-level range
      series[inf .. inf + count): the interval's share of the range total
      less its share of the range length (`TopScoreIsBurstiness`). */
  ghost function TopScore(series: seq<real>, inf: nat, count: nat, first: nat, second: nat): real
    requires inf + count <= |series| && count > 0 && SumRange(series, inf, inf + count) != 0.0
    requires inf <= first <= second < inf + count
  {
    SumRange(series, first, second + 1) / SumRange(series, inf, inf + count) - (second + 1 - first) as real / count as real
  }

  lemma TopScoreIsBurstiness(series: seq<real>, inf: nat, count: nat, first: nat, second: nat)
    requires inf + count <= |series| && count > 0 && SumRange(series, inf, inf + count) != 0.0
    requires inf <= first <= second < inf + count
    ensures TopScore(series, inf, count, first, second)
            == SumRange(Burstiness(series, inf, count), first - inf, second + 1 - inf)
  {
    BurstinessSum(series, inf, count, first - inf, second + 1 - inf);
    assert inf + (first - inf) == first && inf + (second + 1 - inf) == second + 1;
  }

  /** An interval of the top-level range scored by its burstiness total,
      which is positive. */
  ghost predicate Valid(series: seq<real>, inf: nat, count: nat, iv: ScoredInterval)
    requires inf + count <= |series| && count > 0 && SumRange(series, inf, inf + count) != 0.0
  {
    inf <= iv.first <= iv.second < inf + count
    && iv.score == TopScore(series, inf, count, iv.first, iv.second)
    && iv.score > 0.0
  }

  /** Two intervals share no year. */
  predicate Disjoint(a: ScoredInterval, b: ScoredInterval)
  {
    a.second < b.first || b.second < a.first
  }

  /** The intervals share no year pairwise. */
  ghost predicate Apart(ivs: seq<ScoredInterval>)
  {
    forall k, l :: 0 <= k < l < |ivs| ==> Disjoint(ivs[k], ivs[l])
  }

  /** The loop invariant of the worklist. */
  ghost predicate Worklist(series: seq<real>, inf: nat, count: nat, ivs: seq<ScoredInterval>)
    requires inf + count <= |series| && count > 0 && SumRange(series, inf, inf + count) != 0.0
  {
    (forall iv <- ivs :: Valid(series, inf, count, iv)) && Apart(ivs)
  }

  /** The top-level analysis yields a valid worklist. */
  lemma TopLevel(series: seq<real>, inf: nat, count: nat, sums: seq<real>, idx: seq<Interval>, r: seq<ScoredInterval>)
    requires inf + count <= |series| && count > 0 && SumRange(series, inf, inf + count) != 0.0
    requires IsPrefixSums(Burstiness(series, inf, count), sums)
    requires Decomposition(Burstiness(series, inf, count), sums, idx)
    requires forall k :: 0 <= k < |idx| ==> Fits(idx[k], inf, sums, inf)
    requires |r| == |idx| && forall k :: 0 <= k < |idx| ==> r[k] == Recorded(idx[k], inf, sums, inf)
    ensures Worklist(series, inf, count, r)
  {
    var b := Burstiness(series, inf, count);
    forall k | 0 <= k < |r|
      ensures Valid(series, inf, count, r[k])
    {
      assert Scoring(b, sums, idx[k]);
      ScoreOfWindow(series, inf, count, sums, inf + idx[k].0, inf + idx[k].1 + 1);
    }
    forall k, l | 0 <= k < l < |r|
      ensures Disjoint(r[k], r[l])
    {
      assert idx[k].1 < idx[l].0;
    }
  }

  /** The decomposition's intervals can be recorded from prefix sums. */
  lemma DecompositionFits(v: seq<real>, sums: seq<real>, idx: seq<Interval>, offset: nat, topSums: seq<real>, sOff: nat)
    requires |sums| == |v| + 1 && Decomposition(v, sums, idx)
    requires sOff <= offset && offset + |v| + 1 - sOff <= |topSums|
    ensures forall k :: 0 <= k < |idx| ==> Fits(idx[k], offset, topSums, sOff)
  {
    forall k | 0 <= k < |idx|
      ensures Fits(idx[k], offset, topSums, sOff)
    {
      assert Scoring(v, sums, idx[k]);
    }
  }

  lemma MulStrict(a: real, b: real, c: real, d: real)
    requires a > b > 0.0 && c > d > 0.0
    ensures a * c > b * d
  {
    assert a * c > b * c;
    assert b * c > b * d;
  }

  /** An interval above the top-level mean burstiness within a range that is
      itself above the top-level mean is above the top-level mean. */
  lemma NestedPositive(x: real, sp: real, s: real, m: real, diff: real, count: real)
    requires s != 0.0 && sp != 0.0 && diff > 0.0 && count > 0.0 && m > 0.0
    requires sp / s - diff / count > 0.0
    requires x / sp - m / diff > 0.0
    ensures x / s - m / count > 0.0
  {
    var ratio := sp / s;
    var mean := x / sp;
    assert x / s == mean * ratio;
    assert m / count == (m / diff) * (diff / count);
    MulStrict(mean, m / diff, ratio, diff / count);
  }

  /** A valid interval's own range has a non-zero total, so it can be
      analysed. */
  lemma ParentTotal(series: seq<real>, inf: nat, count: nat, p: ScoredInterval)
    requires inf + count <= |series| && count > 0 && SumRange(series, inf, inf + count) != 0.0
    requires Valid(series, inf, count, p)
    ensures SumRange(series, p.first, p.second + 1) != 0.0
    ensures SumRange(series, p.first, p.second + 1) / SumRange(series, inf, inf + count) - Len(p) as real / count as real > 0.0
  {
  }

  /** Each interval of the analysis of a valid interval `p`, recorded with
      the top-level prefix sums, lies inside `p` and is valid. */
  lemma SubValid(series: seq<real>, inf: nat, count: nat, topSums: seq<real>, p: ScoredInterval,
                 subSums: seq<real>, sub: Interval)
    requires inf + count <= |series| && count > 0 && SumRange(series, inf, inf + count) != 0.0
    requires IsPrefixSums(Burstiness(series, inf, count), topSums)
    requires Valid(series, inf, count, p)
    requires SumRange(series, p.first, p.first + Len(p)) != 0.0
    requires IsPrefixSums(Burstiness(series, p.first, Len(p)), subSums)
    requires Scoring(Burstiness(series, p.first, Len(p)), subSums, sub)
    ensures Fits(sub, p.first, topSums, inf)
    ensures p.first <= Recorded(sub, p.first, topSums, inf).first
    ensures Recorded(sub, p.first, topSums, inf).second <= p.second
    ensures Valid(series, inf, count, Recorded(sub, p.first, topSums, inf))
  {
    var diff := Len(p);
    var r := Recorded(sub, p.first, topSums, inf);
    var s := SumRange(series, inf, inf + count);
    var sp := SumRange(series, p.first, p.first + diff);
    var lo, hi := p.first + sub.0, p.first + sub.1 + 1;
    var x := SumRange(series, lo, hi);
    var m := (sub.1 + 1 - sub.0) as real;
    assert r.first == lo && r.second + 1 == hi;
    AboveMean(series, p.first, diff, subSums, sub);
    ParentTotal(series, inf, count, p);
    assert p.second + 1 == p.first + diff;
    NestedPositive(x, sp, s, m, diff as real, count as real);
    ScoreOfWindow(series, inf, count, topSums, lo, hi);
  }

  /** A scoring interval of the burstiness of series[lo .. lo + diff) is
      above the mean of that range. */
  lemma AboveMean(series: seq<real>, lo: nat, diff: nat, sums: seq<real>, sub: Interval)
    requires lo + diff <= |series| && diff > 0 && SumRange(series, lo, lo + diff) != 0.0
    requires IsPrefixSums(Burstiness(series, lo, diff), sums)
    requires Scoring(Burstiness(series, lo, diff), sums, sub)
    ensures SumRange(series, lo + sub.0, lo + sub.1 + 1) / SumRange(series, lo, lo + diff)
            - (sub.1 + 1 - sub.0) as real / diff as real > 0.0
  {
    PrefixDifference(Burstiness(series, lo, diff), sums, sub.0, sub.1 + 1);
    BurstinessSum(series, lo, diff, sub.0, sub.1 + 1);
  }

  /** The top-level score of the window series[lo .. hi), read from the
      prefix sums of the top-level burstiness. */
  lemma ScoreOfWindow(series: seq<real>, inf: nat, count: nat, topSums: seq<real>, lo: nat, hi: nat)
    requires inf + count <= |series| && count > 0 && SumRange(series, inf, inf + count) != 0.0
    requires IsPrefixSums(Burstiness(series, inf, count), topSums)
    requires inf <= lo < hi <= inf + count
    ensures topSums[hi - inf] - topSums[lo - inf] == TopScore(series, inf, count, lo, hi - 1)
  {
    PrefixDifference(Burstiness(series, inf, count), topSums, lo - inf, hi - inf);
    TopScoreIsBurstiness(series, inf, count, lo, hi - 1);
  }

  /** `intervals[i] = intervals.back(); intervals.pop_back();` */
  function SwapRemove(s: seq<ScoredInterval>, i: nat): (r: seq<ScoredInterval>)
    requires i < |s|
    ensures |r| == |s| - 1
  {
    s[i := s[|s| - 1]][..|s| - 1]
  }

  /** Where each element of `SwapRemove(s, i)` came from. */
  function Origin(s: seq<ScoredInterval>, i: nat, k: nat): nat
    requires i < |s|
  {
    if k == i then |s| - 1 else k
  }

  lemma SwapRemoveFacts(s: seq<ScoredInterval>, i: nat)
    requires i < |s|
    ensures forall k :: 0 <= k < |s| - 1 ==> Origin(s, i, k) < |s| && Origin(s, i, k) != i
    ensures forall k :: 0 <= k < |s| - 1 ==> SwapRemove(s, i)[k] == s[Origin(s, i, k)]
    ensures SwapRemove(s, i)[..i] == s[..i]
    ensures TotalLength(SwapRemove(s, i)[i..]) + Len(s[i]) == TotalLength(s[i..])
  {
    var r := SwapRemove(s, i);
    var last := |s| - 1;
    if i < last {
      assert s[i..] == [s[i]] + s[i + 1..last] + [s[last]];
      assert r[i..] == [s[last]] + s[i + 1..last];
      TotalLengthAppend([s[i]] + s[i + 1..last], [s[last]]);
      TotalLengthAppend([s[i]], s[i + 1..last]);
      TotalLengthAppend([s[last]], s[i + 1..last]);
      assert TotalLength([s[i]]) == Len(s[i]) by { assert [s[i]][..0] == []; }
      assert TotalLength([s[last]]) == Len(s[last]) by { assert [s[last]][..0] == []; }
    } else {
      assert s[i..] == [s[i]];
      assert r[i..] == [];
      assert [s[i]][..0] == [];
    }
  }

  /** Removing one interval keeps the rest apart. */
  lemma SwapRemoveApart(s: seq<ScoredInterval>, i: nat)
    requires i < |s| && Apart(s)
    ensures Apart(SwapRemove(s, i))
    ensures forall k :: 0 <= k < |s| - 1 ==> Disjoint(SwapRemove(s, i)[k], s[i])
  {
    SwapRemoveFacts(s, i);
    var r := SwapRemove(s, i);
    forall k, l | 0 <= k < l < |r|
      ensures Disjoint(r[k], r[l])
    {
      var ok, ol := Origin(s, i, k), Origin(s, i, l);
      if ok < ol {
        assert Disjoint(s[ok], s[ol]);
      } else {
        assert Disjoint(s[ol], s[ok]);
      }
    }
    forall k | 0 <= k < |r|
      ensures Disjoint(r[k], s[i])
    {
      var ok := Origin(s, i, k);
      if ok < i {
        assert Disjoint(s[ok], s[i]);
      } else {
        assert Disjoint(s[i], s[ok]);
      }
    }
  }

  /** The intervals of a decomposition of a range of `len` positions take up
      at most `len + 1` positions less one per interval. */
  lemma {:induction false} CoveredLength(v: seq<real>, sums: seq<real>, idx: seq<Interval>, offset: nat,
                                         topSums: seq<real>, sOff: nat, r: seq<ScoredInterval>)
    requires |sums| == |v| + 1 && Decomposition(v, sums, idx)
    requires forall k :: 0 <= k < |idx| ==> Fits(idx[k], offset, topSums, sOff)
    requires |r| == |idx| && forall k :: 0 <= k < |idx| ==> r[k] == Recorded(idx[k], offset, topSums, sOff)
    ensures |idx| > 0 ==> TotalLength(r) + |idx| <= idx[|idx| - 1].1 + 2
    decreases |idx|
  {
    if |idx| > 0 {
      var m := |idx| - 1;
      assert Scoring(v, sums, idx[m]);
      assert Decomposition(v, sums, idx[..m]) by {
        forall k | 0 <= k < m ensures Scoring(v, sums, idx[..m][k]) { assert Scoring(v, sums, idx[k]); }
      }
      CoveredLength(v, sums, idx[..m], offset, topSums, sOff, r[..m]);
      if m > 0 {
        Gapped(v, sums, idx, m - 1, m);
      }
    }
  }

  /** The re-analysis of an interval of `diff >= 2` years yields intervals
      that take up fewer years than the interval itself. */
  lemma SubShorter(series: seq<real>, lo: nat, diff: nat, sums: seq<real>, idx: seq<Interval>, offset: nat,
                   topSums: seq<real>, sOff: nat, r: seq<ScoredInterval>)
    requires lo + diff <= |series| && diff >= 2 && SumRange(series, lo, lo + diff) != 0.0
    requires IsPrefixSums(Burstiness(series, lo, diff), sums)
    requires Decomposition(Burstiness(series, lo, diff), sums, idx)
    requires forall k :: 0 <= k < |idx| ==> Fits(idx[k], offset, topSums, sOff)
    requires |r| == |idx| && forall k :: 0 <= k < |idx| ==> r[k] == Recorded(idx[k], offset, topSums, sOff)
    ensures TotalLength(r) < diff
  {
    var b := Burstiness(series, lo, diff);
    CoveredLength(b, sums, idx, offset, topSums, sOff, r);
    if |idx| == 1 {
      assert Scoring(b, sums, idx[0]);
      if idx[0] == (0, diff - 1) {
        BurstinessBalanced(series, lo, diff);
        assert false;
      }
    } else if |idx| > 1 {
      assert Scoring(b, sums, idx[|idx| - 1]);
    } else {
      assert r == [];
    }
  }

  /** The intervals `subs` lie inside `p`. */
  ghost predicate Inside(subs: seq<ScoredInterval>, p: ScoredInterval)
  {
    forall x <- subs :: p.first <= x.first && x.second <= p.second
  }

  /** The re-analysis of a valid interval `p` of two years or more, recorded
      with the top-level prefix sums: valid intervals inside `p`, apart from
      each other, taking up fewer years than `p`. */
  lemma SubIntervals(series: seq<real>, inf: nat, count: nat, topSums: seq<real>, p: ScoredInterval,
                     subSums: seq<real>, subIdx: seq<Interval>, subs: seq<ScoredInterval>)
    requires inf + count <= |series| && count > 0 && SumRange(series, inf, inf + count) != 0.0
    requires IsPrefixSums(Burstiness(series, inf, count), topSums)
    requires Valid(series, inf, count, p) && Len(p) >= 2
    requires SumRange(series, p.first, p.first + Len(p)) != 0.0
    requires IsPrefixSums(Burstiness(series, p.first, Len(p)), subSums)
    requires Decomposition(Burstiness(series, p.first, Len(p)), subSums, subIdx)
    requires forall k :: 0 <= k < |subIdx| ==> Fits(subIdx[k], p.first, topSums, inf)
    requires |subs| == |subIdx| && forall k :: 0 <= k < |subIdx| ==> subs[k] == Recorded(subIdx[k], p.first, topSums, inf)
    ensures Worklist(series, inf, count, subs) && Inside(subs, p)
    ensures TotalLength(subs) < Len(p)
  {
    var b := Burstiness(series, p.first, Len(p));
    forall k | 0 <= k < |subIdx|
      ensures p.first <= subs[k].first && subs[k].second <= p.second && Valid(series, inf, count, subs[k])
    {
      assert Scoring(b, subSums, subIdx[k]);
      SubValid(series, inf, count, topSums, p, subSums, subIdx[k]);
    }
    forall k, l | 0 <= k < l < |subs|
      ensures Disjoint(subs[k], subs[l])
    {
      assert subIdx[k].1 < subIdx[l].0;
    }
    SubShorter(series, p.first, Len(p), subSums, subIdx, p.first, topSums, inf, subs);
  }

  /** Two lists apart from each other and within themselves are apart
      together. */
  lemma ApartConcat(a: seq<ScoredInterval>, b: seq<ScoredInterval>)
    requires Apart(a) && Apart(b)
    requires forall x, y :: x in a && y in b ==> Disjoint(x, y)
    ensures Apart(a + b)
  {
    var r := a + b;
    forall k, l | 0 <= k < l < |r|
      ensures Disjoint(r[k], r[l])
    {
      if l < |a| {
        assert r[k] == a[k] && r[l] == a[l];
      } else if k < |a| {
        assert r[k] == a[k] && r[l] == b[l - |a|];
      } else {
        assert r[k] == b[k - |a|] && r[l] == b[l - |a|];
      }
    }
  }

  /** Replacing interval `i` of a list by other intervals: every interval
      of the result comes from one of the two. */
  lemma SplitMembers(s: seq<ScoredInterval>, i: nat, subs: seq<ScoredInterval>, r: seq<ScoredInterval>)
    requires i < |s| && r == SwapRemove(s, i) + subs
    ensures forall x <- r :: x in s || x in subs
  {
    var rest := SwapRemove(s, i);
    SwapRemoveFacts(s, i);
    forall x | x in r
      ensures x in s || x in subs
    {
      if x !in subs {
        assert x in rest;
        var k :| 0 <= k < |rest| && rest[k] == x;
        assert rest[k] == s[Origin(s, i, k)];
      }
    }
  }

  /** Replacing interval `i` of an apart list by intervals inside it that
      are apart keeps the list apart. */
  lemma SplitApart(s: seq<ScoredInterval>, i: nat, subs: seq<ScoredInterval>)
    requires Apart(s) && i < |s|
    requires Apart(subs) && Inside(subs, s[i])
    ensures Apart(SwapRemove(s, i) + subs)
  {
    var p := s[i];
    var rest := SwapRemove(s, i);
    SwapRemoveApart(s, i);
    forall x, y | x in rest && y in subs
      ensures Disjoint(x, y)
    {
      var k :| 0 <= k < |rest| && rest[k] == x;
      assert Disjoint(rest[k], p);
    }
    ApartConcat(rest, subs);
  }

  /** Replacing interval `i` of a list by intervals shorter in total keeps
      the intervals before `i` and shrinks the years from `i` on. */
  lemma SplitLength(s: seq<ScoredInterval>, i: nat, subs: seq<ScoredInterval>, r: seq<ScoredInterval>)
    requires i < |s| && TotalLength(subs) < Len(s[i])
    requires r == SwapRemove(s, i) + subs
    ensures r[..i] == s[..i]
    ensures TotalLength(r[i..]) < TotalLength(s[i..])
  {
    var rest := SwapRemove(s, i);
    SwapRemoveFacts(s, i);
    assert r[..i] == rest[..i];
    assert r[i..] == rest[i..] + subs;
    TotalLengthAppend(rest[i..], subs);
  }

  /** The years of a list from `i` on are those of interval `i` and of the
      rest. */
  lemma TotalLengthFront(s: seq<ScoredInterval>, i: nat)
    requires i < |s|
    ensures TotalLength(s[i..]) == Len(s[i]) + TotalLength(s[i + 1..])
  {
    assert s[i..] == [s[i]] + s[i + 1..];
    TotalLengthAppend([s[i]], s[i + 1..]);
    assert [s[i]][..0] == [];
  }

  /** `fit_discrepancy(series, smoothing_window, intervals)` with empty
      `intervals` (as its caller passes it): the positive-scoring intervals
      of the burstiness of series[w .. MAX_YEARS - w), every one of 32 years
      or more replaced by the intervals of its own burstiness until none is
      left.  Each interval is scored by its top-level burstiness total, which
      is positive, and the intervals share no year.  The range total must be
      non-zero (a zero total divides by zero). */
  method FitDiscrepancy(series: seq<real>, smoothingWindow: nat) returns (intervals: seq<ScoredInterval>)
    requires |series| == READER_MAX_YEARS && 2 * smoothingWindow < READER_MAX_YEARS
    requires SumRange(series, smoothingWindow, READER_MAX_YEARS - smoothingWindow) != 0.0
    ensures Worklist(series, smoothingWindow, READER_MAX_YEARS - 2 * smoothingWindow, intervals)
    ensures forall iv <- intervals :: Len(iv) < SPLIT_LENGTH
  {
    var inf := smoothingWindow;
    var sup := READER_MAX_YEARS - smoothingWindow;
    var count := sup - inf;
    var sums, indices := AnalyzeBurstiness(series, inf, count);
    DecompositionFits(Burstiness(series, inf, count), sums, indices, inf, sums, inf);
    intervals := AppendIndices(indices, [], inf, sums, inf);
    TopLevel(series, inf, count, sums, indices, intervals);
    var i := 0;
    while i < |intervals|
      invariant i <= |intervals| && Worklist(series, inf, count, intervals)
      invariant Short(intervals[..i])
      decreases TotalLength(intervals[i..])
    {
      assert Valid(series, inf, count, intervals[i]);
      var diff := intervals[i].second - intervals[i].first + 1;
      if diff >= SPLIT_LENGTH {
        intervals := Resplit(series, inf, count, sums, intervals, i);
      } else {
        TotalLengthFront(intervals, i);
        assert intervals[..i + 1] == intervals[..i] + [intervals[i]];
        i := i + 1;
      }
    }
    assert intervals[..i] == intervals;
  }

  /** Every interval is shorter than the split length. */
  ghost predicate Short(ivs: seq<ScoredInterval>)
  {
    forall iv <- ivs :: Len(iv) < SPLIT_LENGTH
  }

  /** The body of the worklist loop for a long interval `i`: it is replaced
      by the last interval, and the intervals of its own burstiness are
      appended, scored with the top-level prefix sums `sums`. */
  method Resplit(series: seq<real>, inf: nat, count: nat, sums: seq<real>, s: seq<ScoredInterval>, i: nat)
    returns (r: seq<ScoredInterval>)
    requires inf + count <= |series| && count > 0 && SumRange(series, inf, inf + count) != 0.0
    requires IsPrefixSums(Burstiness(series, inf, count), sums)
    requires |series| == READER_MAX_YEARS
    requires Worklist(series, inf, count, s) && i < |s| && Len(s[i]) >= 2
    ensures Worklist(series, inf, count, r)
    ensures i <= |r| && r[..i] == s[..i]
    ensures TotalLength(r[i..]) < TotalLength(s[i..])
  {
    ghost var rest := SwapRemove(s, i);
    r := AppendSplit(series, inf, count, sums, s[i], SwapRemove(s, i));
    ghost var subs := r[|rest|..];
    assert r == rest + subs;
    SplitWorklist(series, inf, count, s, i, subs, r);
  }

  /** Appends to `rest` the intervals of the burstiness of the valid
      interval `p` of two years or more, scored with the top-level prefix sums
      `sums`: they are valid, apart, inside `p` and take up fewer years. */
  method AppendSplit(series: seq<real>, inf: nat, count: nat, sums: seq<real>, p: ScoredInterval,
                     rest: seq<ScoredInterval>) returns (r: seq<ScoredInterval>)
    requires inf + count <= |series| && count > 0 && SumRange(series, inf, inf + count) != 0.0
    requires IsPrefixSums(Burstiness(series, inf, count), sums)
    requires |series| == READER_MAX_YEARS
    requires Valid(series, inf, count, p) && Len(p) >= 2
    ensures |rest| <= |r| && r[..|rest|] == rest
    ensures Worklist(series, inf, count, r[|rest|..]) && Inside(r[|rest|..], p)
    ensures TotalLength(r[|rest|..]) < Len(p)
  {
    var diff := p.second - p.first + 1;
    var subInf := p.first;
    ParentTotal(series, inf, count, p);
    assert subInf + diff == p.second + 1 <= |series|;
    var lesserSums, indices := AnalyzeBurstiness(series, subInf, diff);
    DecompositionFits(Burstiness(series, subInf, diff), lesserSums, indices, subInf, sums, inf);
    r := AppendIndices(indices, rest, subInf, sums, inf);
    SubIntervals(series, inf, count, sums, p, lesserSums, indices, r[|rest|..]);
  }

  /** Replacing a long interval of a worklist by valid intervals inside it,
      apart and shorter in total, gives a worklist again, with the same
      intervals before `i` and fewer years from `i` on. */
  lemma SplitWorklist(series: seq<real>, inf: nat, count: nat, s: seq<ScoredInterval>, i: nat,
                      subs: seq<ScoredInterval>, r: seq<ScoredInterval>)
    requires inf + count <= |series| && count > 0 && SumRange(series, inf, inf + count) != 0.0
    requires Worklist(series, inf, count, s) && i < |s|
    requires Worklist(series, inf, count, subs) && Inside(subs, s[i]) && TotalLength(subs) < Len(s[i])
    requires r == SwapRemove(s, i) + subs
    ensures Worklist(series, inf, count, r)
    ensures i <= |r| && r[..i] == s[..i]
    ensures TotalLength(r[i..]) < TotalLength(s[i..])
  {
    SplitMembers(s, i, subs, r);
    SplitApart(s, i, subs);
    SplitLength(s, i, subs, r);
  }

  /** The mean burstiness of an interval of `dist` years. */
  function Mean(burstiness: real, dist: nat): real
    requires dist > 0
  {
    burstiness / dist as real
  }

  /** `(log(mean) + 6) * 10 / 6` for the interval's mean burstiness. */
  function Base(iv: ScoredInterval, ln: real -> real): real
    requires iv.first <= iv.second
  {
    (ln(Mean(iv.score, Len(iv))) + 6.0) * 10.0 / 6.0
  }

  /** `compute_discrepancy_score(interval, burstiness)`: 1 + the integer part
      of the base when the base is not negative, 0 otherwise; so the score is
      positive exactly when the base is not negative, and then the base lies
      in [score - 1, score). */
  function DiscrepancyScore(iv: ScoredInterval, ln: real -> real): (score: int)
    requires iv.first <= iv.second
    ensures score >= 0
    ensures score > 0 <==> Base(iv, ln) >= 0.0
    ensures score > 0 ==> (score - 1) as real <= Base(iv, ln) < score as real
  {
    var base := Base(iv, ln);
    if base >= 0.0 then 1 + base.Floor else 0
  }

  /** Every interval runs forwards. */
  predicate Proper(ivs: seq<ScoredInterval>)
  {
    forall iv <- ivs :: iv.first <= iv.second
  }

  /** `y` is one of the years of `iv`. */
  predicate Covers(iv: ScoredInterval, y: nat)
  {
    iv.first <= y <= iv.second
  }

  /** The counts after the first `n` intervals of the fill loop of
      `compute_relevance`: every year of an interval with a positive score
      gets that score, later intervals overwriting earlier ones. */
  function Painted(ivs: seq<ScoredInterval>, n: nat, ln: real -> real, size: nat): (c: seq<int>)
    requires n <= |ivs| && Proper(ivs)
    ensures |c| == size
  {
    if n == 0 then seq(size, _ => 0)
    else
      var prev := Painted(ivs, n - 1, ln, size);
      var iv := ivs[n - 1];
      var score := DiscrepancyScore(iv, ln);
      if score > 0 then seq(size, y requires 0 <= y < size => if Covers(iv, y) then score else prev[y])
      else prev
  }

  /** A non-zero count is the positive score of an interval covering its
      year. */
  ghost predicate Explained(ivs: seq<ScoredInterval>, n: nat, ln: real -> real, c: seq<int>, y: nat)
    requires n <= |ivs| && Proper(ivs) && y < |c|
  {
    c[y] != 0 ==> exists k :: 0 <= k < n && Covers(ivs[k], y) && DiscrepancyScore(ivs[k], ln) > 0 && c[y] == DiscrepancyScore(ivs[k], ln)
  }

  /** Every year of an interval with a positive score carries that score. */
  ghost predicate Filled(ivs: seq<ScoredInterval>, n: nat, ln: real -> real, c: seq<int>, y: nat)
    requires n <= |ivs| && Proper(ivs) && y < |c|
  {
    forall k :: 0 <= k < n && Covers(ivs[k], y) && DiscrepancyScore(ivs[k], ln) > 0 ==> c[y] == DiscrepancyScore(ivs[k], ln)
  }

  /** With disjoint intervals the counts are exactly the positive scores of
      the intervals covering each year, and 0 on every other year. */
  lemma {:induction false} PaintedMeaning(ivs: seq<ScoredInterval>, n: nat, ln: real -> real, size: nat, y: nat)
    requires n <= |ivs| && Proper(ivs) && Apart(ivs) && y < size
    ensures Explained(ivs, n, ln, Painted(ivs, n, ln, size), y)
    ensures Filled(ivs, n, ln, Painted(ivs, n, ln, size), y)
    ensures Painted(ivs, n, ln, size)[y] >= 0
  {
    if n > 0 {
      PaintedMeaning(ivs, n - 1, ln, size, y);
      var prev := Painted(ivs, n - 1, ln, size);
      var c := Painted(ivs, n, ln, size);
      var iv := ivs[n - 1];
      if DiscrepancyScore(iv, ln) > 0 && Covers(iv, y) {
        forall k | 0 <= k < n - 1
          ensures !Covers(ivs[k], y)
        {
          assert Disjoint(ivs[k], iv);
        }
      }
    }
  }

  /** `for (j = interval.first; j <= interval.second; j++) counts[j] = score;` */
  method PaintInterval(counts: array<int>, iv: ScoredInterval, score: int)
    requires iv.second < counts.Length
    modifies counts
    ensures counts[..] == seq(counts.Length, y requires 0 <= y < counts.Length => if Covers(iv, y) then score else old(counts[y]))
  {
    var j := iv.first;
    while j <= iv.second
      invariant iv.first <= j <= iv.second + 1 || j == iv.first
      invariant forall y :: 0 <= y < counts.Length ==> counts[y] == (if iv.first <= y < j then score else old(counts[y]))
    {
      counts[j] := score;
      j := j + 1;
    }
  }

  /** The count-filling of `compute_relevance`: `counts` zeroed, then every
      year of every interval with a positive discrepancy score set to it. */
  method FillCounts(intervals: seq<ScoredInterval>, ln: real -> real) returns (counts: seq<int>)
    requires Proper(intervals) && forall iv <- intervals :: iv.second < READER_MAX_YEARS
    ensures counts == Painted(intervals, |intervals|, ln, READER_MAX_YEARS)
  {
    var a := new int[READER_MAX_YEARS](_ => 0);
    assert a[..] == Painted(intervals, 0, ln, READER_MAX_YEARS);
    var i := 0;
    while i < |intervals|
      invariant i <= |intervals| && a[..] == Painted(intervals, i, ln, READER_MAX_YEARS)
    {
      var interval := intervals[i];
      var score := DiscrepancyScore(interval, ln);
      assert interval in intervals;
      if score > 0 {
        PaintInterval(a, interval, score);
      }
      i := i + 1;
    }
    counts := a[..];
  }

  /** `numerical_discrepancy_processor::compute_relevance(word)` up to the
      printing of the counts: the intervals of `fit_discrepancy(series, 2)`
      and the counts filled from them.  Each year's count is the positive
      score of the one interval covering it, or 0. */
  method ComputeRelevance(series: seq<real>, ln: real -> real) returns (intervals: seq<ScoredInterval>, counts: seq<int>)
    requires |series| == READER_MAX_YEARS
    requires SumRange(series, RELEVANCE_WINDOW, READER_MAX_YEARS - RELEVANCE_WINDOW) != 0.0
    ensures Worklist(series, RELEVANCE_WINDOW, READER_MAX_YEARS - 2 * RELEVANCE_WINDOW, intervals)
    ensures forall iv <- intervals :: Len(iv) < SPLIT_LENGTH
    ensures counts == Painted(intervals, |intervals|, ln, READER_MAX_YEARS)
  {
    intervals := FitDiscrepancy(series, RELEVANCE_WINDOW);
    forall iv | iv in intervals
      ensures iv.first <= iv.second < READER_MAX_YEARS
    {
      assert Valid(series, RELEVANCE_WINDOW, READER_MAX_YEARS - 2 * RELEVANCE_WINDOW, iv);
    }
    counts := FillCounts(intervals, ln);
  }
}
