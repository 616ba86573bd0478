/** The moment algebra of the Gaussian detector (`gaussian_model.c`): tables
    of prefix sums of k^e and of series[k] * k^e for e = 1..4, window moments
    read off them by subtraction, the shifted and normalised moments of a
    window, the kurtosis built from them and the earth mover's distance of a
    window to a Gaussian density.  Doubles are reals; `sqrt` and the Gaussian
    density are left to the caller (the density is a parameter). */
module GaussianModel {
  import opened Wrappers
  import opened Windows
  import opened MomentAlgebra

  const MAX_YEARS: nat := 509
  const NUM_MOMENTS: nat := 4

  /** The year positions 0, 1, ..., n - 1 as reals. */
  function Positions(n: nat): (xs: seq<real>)
    ensures |xs| == n
    ensures forall k :: 0 <= k < n ==> xs[k] == k as real
  {
    seq(n, k => k as real)
  }

  /** k^e for every year position k. */
  function Powers(e: nat): (r: seq<real>)
    ensures |r| == MAX_YEARS
    ensures forall k :: 0 <= k < MAX_YEARS ==> r[k] == Pow(k as real, e)
  {
    seq(MAX_YEARS, k => Pow(k as real, e))
  }

  /** series[k] * k^e for every year position k. */
  function Moments(s: seq<real>, e: nat): (r: seq<real>)
    ensures |r| == |s|
    ensures forall k :: 0 <= k < |s| ==> r[k] == s[k] * Pow(k as real, e)
  {
    seq(|s|, k requires 0 <= k < |s| => s[k] * Pow(k as real, e))
  }

  /** The columns of `partial_sums`: k^1 .. k^4. */
  function PowerColumns(): (c: seq<seq<real>>)
    ensures |c| == NUM_MOMENTS
    ensures forall j :: 0 <= j < NUM_MOMENTS ==> c[j] == Powers(j + 1)
  {
    seq(NUM_MOMENTS, j requires 0 <= j < NUM_MOMENTS => Powers(j + 1))
  }

  /** The columns of a moments table: series[k] * k^1 .. series[k] * k^4. */
  function MomentColumns(s: seq<real>): (c: seq<seq<real>>)
    ensures |c| == NUM_MOMENTS
    ensures forall j :: 0 <= j < NUM_MOMENTS ==> c[j] == Moments(s, j + 1)
  {
    seq(NUM_MOMENTS, j requires 0 <= j < NUM_MOMENTS => Moments(s, j + 1))
  }

  /** Row m of the table holds the sums of the first m values of each column. */
  ghost predicate PrefixTable(v: array2<real>, cols: seq<seq<real>>)
    reads v
  {
    && v.Length0 == MAX_YEARS + 1 && v.Length1 == NUM_MOMENTS && |cols| == NUM_MOMENTS
    && (forall j :: 0 <= j < NUM_MOMENTS ==> |cols[j]| == MAX_YEARS)
    && forall m, j {:trigger SumRange(cols[j], 0, m)} :: 0 <= m <= MAX_YEARS && 0 <= j < NUM_MOMENTS ==>
         v[m, j] == SumRange(cols[j], 0, m)
  }

  /** Step i of the outer loop of both initialisers: row i + 1 becomes row i
      plus weight * i^(j+1) in column j; no other row changes.
      `init_partial_sums` adds i^(j+1) itself, the weight 1. */
  method FillRow(v: array2<real>, i: nat, weight: real)
    requires v.Length0 == MAX_YEARS + 1 && v.Length1 == NUM_MOMENTS && i < MAX_YEARS
    modifies v
    ensures forall m, j :: 0 <= m <= MAX_YEARS && 0 <= j < NUM_MOMENTS ==>
              v[m, j] == if m == i + 1 then old(v[i, j]) + weight * Pow(i as real, j + 1) else old(v[m, j])
  {
    var value := 1.0;
    var j := 0;
    while j < NUM_MOMENTS
      invariant 0 <= j <= NUM_MOMENTS
      invariant value == Pow(i as real, j)
      invariant forall m, j' :: 0 <= m <= MAX_YEARS && 0 <= j' < NUM_MOMENTS ==>
                  v[m, j'] == if m == i + 1 && j' < j then old(v[i, j']) + weight * Pow(i as real, j' + 1)
                              else old(v[m, j'])
    {
      value := value * i as real;
      v[i + 1, j] := v[i, j] + weight * value;
      j := j + 1;
    }
  }

  /** Row 0 of a table: all zeros. */
  method ClearFirstRow(v: array2<real>)
    requires v.Length0 == MAX_YEARS + 1 && v.Length1 == NUM_MOMENTS
    modifies v
    ensures forall j :: 0 <= j < NUM_MOMENTS ==> v[0, j] == 0.0
  {
    var j := 0;
    while j < NUM_MOMENTS
      invariant 0 <= j <= NUM_MOMENTS
      invariant forall j' :: 0 <= j' < j ==> v[0, j'] == 0.0
    {
      v[0, j] := 0.0;
      j := j + 1;
    }
  }

  /** The outer loop of both initialisers, over column values
      weights[k] * k^(j+1). */
  method FillTable(v: array2<real>, weights: seq<real>, ghost cols: seq<seq<real>>)
    requires v.Length0 == MAX_YEARS + 1 && v.Length1 == NUM_MOMENTS && |weights| == MAX_YEARS
    requires |cols| == NUM_MOMENTS
    requires forall j :: 0 <= j < NUM_MOMENTS ==> |cols[j]| == MAX_YEARS
    requires forall j, k :: 0 <= j < NUM_MOMENTS && 0 <= k < MAX_YEARS ==>
               cols[j][k] == weights[k] * Pow(k as real, j + 1)
    modifies v
    ensures PrefixTable(v, cols)
  {
    ClearFirstRow(v);
    var i := 0;
    while i < MAX_YEARS
      invariant 0 <= i <= MAX_YEARS
      invariant forall m, j :: 0 <= m <= i && 0 <= j < NUM_MOMENTS ==> v[m, j] == SumRange(cols[j], 0, m)
    {
      FillRow(v, i, weights[i]);
      i := i + 1;
    }
  }

  /** `init_partial_sums`: row m, column j is the sum of k^(j+1) over k < m. */
  method InitPartialSums(ps: array2<real>)
    requires ps.Length0 == MAX_YEARS + 1 && ps.Length1 == NUM_MOMENTS
    modifies ps
    ensures PrefixTable(ps, PowerColumns())
  {
    FillTable(ps, seq(MAX_YEARS, _ => 1.0), PowerColumns());
  }

  /** `init_partial_moments`: row m, column j is the sum of
      series[k] * k^(j+1) over k < m. */
  method InitPartialMoments(moments: array2<real>, series: array<real>)
    requires moments.Length0 == MAX_YEARS + 1 && moments.Length1 == NUM_MOMENTS
    requires series.Length == MAX_YEARS
    modifies moments
    ensures PrefixTable(moments, MomentColumns(series[..]))
  {
    FillTable(moments, series[..], MomentColumns(series[..]));
  }

  /** `query_moment(v, left, right, order)`. */
  function QueryMoment(v: array2<real>, left: nat, right: nat, order: nat): real
    requires left <= right < MAX_YEARS && order < NUM_MOMENTS
    requires v.Length0 == MAX_YEARS + 1 && v.Length1 == NUM_MOMENTS
    reads v
  {
    v[right + 1, order] - v[left, order]
  }

  /** A query of a prefix table is the sum of its column over [left, right]. */
  lemma {:induction false} QueryMomentIsWindowSum(v: array2<real>, cols: seq<seq<real>>, left: nat, right: nat, order: nat)
    requires left <= right < MAX_YEARS && order < NUM_MOMENTS
    requires PrefixTable(v, cols)
    ensures QueryMoment(v, left, right, order) == SumRange(cols[order], left, right + 1)
  {
    SumRangeSplit(cols[order], 0, left, right + 1);
  }

  /** The values of a series above `min_value`: the weights, before they are
      divided by `min_sum`, that a window gives its year positions. */
  function Shifted(s: seq<real>, minValue: real): (w: seq<real>)
    ensures |w| == |s|
    ensures forall k :: 0 <= k < |s| ==> w[k] == s[k] - minValue
  {
    seq(|s|, k requires 0 <= k < |s| => s[k] - minValue)
  }

  /** n ones, one per position. */
  function Ones(n: nat): (r: seq<real>)
    ensures |r| == n && forall k :: 0 <= k < n ==> r[k] == 1.0
  {
    seq(n, _ => 1.0)
  }

  /** `query_full_moment(moments, left, right, order, min_value, min_sum)`. */
  function QueryFullMoment(moments: array2<real>, ps: array2<real>, left: nat, right: nat, order: nat,
                           minValue: real, minSum: real): real
    requires left <= right < MAX_YEARS && order < NUM_MOMENTS && minSum != 0.0
    requires moments.Length0 == MAX_YEARS + 1 && moments.Length1 == NUM_MOMENTS
    requires ps.Length0 == MAX_YEARS + 1 && ps.Length1 == NUM_MOMENTS
    reads moments, ps
  {
    (QueryMoment(moments, left, right, order) - minValue * QueryMoment(ps, left, right, order)) / minSum
  }

  /** A query of a moments table. */
  lemma {:induction false} QueryMoments(moments: array2<real>, s: seq<real>, left: nat, right: nat, order: nat)
    requires left <= right < MAX_YEARS && order < NUM_MOMENTS
    requires |s| == MAX_YEARS && PrefixTable(moments, MomentColumns(s))
    ensures QueryMoment(moments, left, right, order) == SumRange(Moments(s, order + 1), left, right + 1)
  {
    QueryMomentIsWindowSum(moments, MomentColumns(s), left, right, order);
  }

  /** A query of `partial_sums`. */
  lemma {:induction false} QueryPowers(ps: array2<real>, left: nat, right: nat, order: nat)
    requires left <= right < MAX_YEARS && order < NUM_MOMENTS
    requires PrefixTable(ps, PowerColumns())
    ensures QueryMoment(ps, left, right, order) == SumRange(Powers(order + 1), left, right + 1)
  {
    QueryMomentIsWindowSum(ps, PowerColumns(), left, right, order);
  }

  /** One term of a shifted moment, in terms of the two table columns. */
  lemma ShiftedTerm(wk: real, v: real, minValue: real, p: real, t: real, a: real, b: real)
    requires wk == v - minValue && t == wk * p && a == v * p && b == p
    ensures t == a - minValue * b
  {
  }

  lemma {:induction false} ShiftedMomentAt(s: seq<real>, minValue: real, e: nat, k: nat)
    requires |s| == MAX_YEARS && k < MAX_YEARS
    ensures Raw(Shifted(s, minValue), Positions(MAX_YEARS), e)[k] == Moments(s, e)[k] - minValue * Powers(e)[k]
  {
    var w, xs := Shifted(s, minValue), Positions(MAX_YEARS);
    ShiftedTerm(w[k], s[k], minValue, Pow(xs[k], e), Raw(w, xs, e)[k], Moments(s, e)[k], Powers(e)[k]);
  }

  /** A window sum of the moments of the shifted values is the window sum of
      the moments column minus `min_value` times that of the `partial_sums`
      column. */
  lemma {:induction false} ShiftedMomentSum(s: seq<real>, minValue: real, e: nat, lo: nat, hi: nat)
    requires |s| == MAX_YEARS && lo <= hi <= MAX_YEARS
    ensures SumRange(Raw(Shifted(s, minValue), Positions(MAX_YEARS), e), lo, hi)
            == SumRange(Moments(s, e), lo, hi) - minValue * SumRange(Powers(e), lo, hi)
  {
    var c, a, b := Raw(Shifted(s, minValue), Positions(MAX_YEARS), e), Moments(s, e), Powers(e);
    forall k | lo <= k < hi
      ensures c[k] == a[k] - minValue * b[k]
    {
      ShiftedMomentAt(s, minValue, e, k);
    }
    SumRangeDifference(a, minValue, b, c, lo, hi);
  }

  /** The full moment of order o over [left, right] in terms of the series
      alone: the window sum of its (o+1)-th moments, less `min_value` times
      that of the (o+1)-th powers of the year positions, over `min_sum`. */
  function WindowMoment(s: seq<real>, left: nat, right: nat, order: nat, minValue: real, minSum: real): real
    requires |s| == MAX_YEARS && left <= right < MAX_YEARS && minSum != 0.0
  {
    (SumRange(Moments(s, order + 1), left, right + 1) - minValue * SumRange(Powers(order + 1), left, right + 1))
    / minSum
  }

  /** Over tables filled by `init_partial_moments` and `init_partial_sums`,
      `query_full_moment` yields the window moment of the series. */
  lemma {:induction false} FullMomentSums(moments: array2<real>, ps: array2<real>, s: seq<real>, left: nat,
                                          right: nat, order: nat, minValue: real, minSum: real)
    requires left <= right < MAX_YEARS && order < NUM_MOMENTS && minSum != 0.0
    requires |s| == MAX_YEARS && PrefixTable(moments, MomentColumns(s)) && PrefixTable(ps, PowerColumns())
    ensures QueryFullMoment(moments, ps, left, right, order, minValue, minSum)
            == WindowMoment(s, left, right, order, minValue, minSum)
  {
    QueryMoments(moments, s, left, right, order);
    QueryPowers(ps, left, right, order);
  }

  /** The window moment of order o is the (o+1)-th moment about 0 of the
      year positions weighted by the values above `min_value`, divided by
      `min_sum`. */
  lemma {:induction false} FullMomentIsShifted(s: seq<real>, left: nat, right: nat, order: nat, minValue: real,
                                               minSum: real)
    requires |s| == MAX_YEARS && left <= right < MAX_YEARS && minSum != 0.0
    ensures WindowMoment(s, left, right, order, minValue, minSum)
            == SumRange(Raw(Shifted(s, minValue), Positions(MAX_YEARS), order + 1), left, right + 1) / minSum
  {
    ShiftedMomentSum(s, minValue, order + 1, left, right + 1);
  }

  lemma ZeroOrderTerm(wk: real, v: real, minValue: real, p: real, t: real, o: real)
    requires wk == v - minValue && p == 1.0 && t == wk * p && o == 1.0
    ensures t == v - minValue * o
  {
  }

  lemma {:induction false} ZeroOrderAt(s: seq<real>, minValue: real, k: nat)
    requires k < |s|
    ensures Raw(Shifted(s, minValue), Positions(|s|), 0)[k] == s[k] - minValue * Ones(|s|)[k]
  {
    var w, xs := Shifted(s, minValue), Positions(|s|);
    ZeroOrderTerm(w[k], s[k], minValue, Pow(xs[k], 0), Raw(w, xs, 0)[k], Ones(|s|)[k]);
  }

  /** Every weight is the value minus `min_value` once. */
  lemma {:induction false} ZeroOrderTerms(s: seq<real>, minValue: real)
    ensures forall k :: 0 <= k < |s| ==>
              Raw(Shifted(s, minValue), Positions(|s|), 0)[k] == s[k] - minValue * Ones(|s|)[k]
  {
    forall k | 0 <= k < |s|
      ensures Raw(Shifted(s, minValue), Positions(|s|), 0)[k] == s[k] - minValue * Ones(|s|)[k]
    {
      ZeroOrderAt(s, minValue, k);
    }
  }

  lemma TotalIsMass(t: real, x: real, y: real, o: real, n: real, m: real)
    requires m == x - n * y && t == x - y * o && o == n
    ensures t == m
  {
  }

  /** The values of s above x sum to the window's total minus its length
      times x. */
  lemma {:induction false} ShiftedTotal(s: seq<real>, o: seq<real>, c: seq<real>, lo: nat, hi: nat, x: real, y: real)
    requires lo <= hi <= |s| && |o| == |s| && |c| == |s|
    requires forall k :: 0 <= k < |s| ==> c[k] == s[k] - x * o[k]
    requires forall k :: 0 <= k < |o| ==> o[k] == 1.0
    requires y == SumRange(s, lo, hi) - (hi - lo) as real * x
    ensures SumRange(c, lo, hi) == y
  {
    SumRangeDifference(s, x, o, c, lo, hi);
    SumRangeOfOnes(o, lo, hi);
    TotalIsMass(SumRange(c, lo, hi), SumRange(s, lo, hi), x, SumRange(o, lo, hi), (hi - lo) as real, y);
  }

  /** `min_sum`, as `select_gaussians` computes it, is the total weight of
      the window, so dividing by it makes the weights sum to 1. */
  lemma {:induction false} TotalWeight(s: seq<real>, left: nat, right: nat, minValue: real, minSum: real)
    requires left <= right < |s|
    requires minSum == MinSum(SumRange(s, left, right + 1), right + 1 - left, minValue)
    ensures SumRange(Raw(Shifted(s, minValue), Positions(|s|), 0), left, right + 1) == minSum
  {
    ZeroOrderTerms(s, minValue);
    ShiftedTotal(s, Ones(|s|), Raw(Shifted(s, minValue), Positions(|s|), 0), left, right + 1, minValue, minSum);
  }

  /** `min_sum`: the sum of `count` values less `count` times their
      minimum, i.e. the total of the values above the minimum. */
  function MinSum(sum: real, count: nat, minValue: real): real
  {
    sum - count as real * minValue
  }

  datatype Shape = Shape(mean: real, sigma2: real, m4: real, kurtosis: Option<real>)

  /** What `compute_kurtosis` computes from the four full moments E1..E4 of a
      window: the mean, the variance and the fourth central moment, and the
      excess kurtosis, which has no finite value when the variance is 0. */
  function ShapeOf(e1: real, e2: real, e3: real, e4: real): (r: Shape)
    ensures r.kurtosis.Some? <==> r.sigma2 != 0.0
  {
    var mean := e1;
    var sigma2 := e2 - mean * mean;
    var m4 := e4 - 4.0 * mean * e3 + 6.0 * mean * mean * e2 - 4.0 * mean * mean * mean * e1
              + mean * mean * mean * mean;
    Shape(mean, sigma2, m4, if sigma2 == 0.0 then None else Some(m4 / (sigma2 * sigma2) - 3.0))
  }

  /** `compute_kurtosis` over the two tables. */
  function ComputeKurtosis(moments: array2<real>, ps: array2<real>, left: nat, right: nat,
                           minValue: real, minSum: real): Shape
    requires left <= right < MAX_YEARS && minSum != 0.0
    requires moments.Length0 == MAX_YEARS + 1 && moments.Length1 == NUM_MOMENTS
    requires ps.Length0 == MAX_YEARS + 1 && ps.Length1 == NUM_MOMENTS
    reads moments, ps
  {
    ShapeOf(QueryFullMoment(moments, ps, left, right, 0, minValue, minSum),
            QueryFullMoment(moments, ps, left, right, 1, minValue, minSum),
            QueryFullMoment(moments, ps, left, right, 2, minValue, minSum),
            QueryFullMoment(moments, ps, left, right, 3, minValue, minSum))
  }

  /** `compute_kurtosis` in terms of the series alone. */
  function WindowShape(s: seq<real>, left: nat, right: nat, minValue: real, minSum: real): Shape
    requires |s| == MAX_YEARS && left <= right < MAX_YEARS && minSum != 0.0
  {
    ShapeOf(WindowMoment(s, left, right, 0, minValue, minSum), WindowMoment(s, left, right, 1, minValue, minSum),
            WindowMoment(s, left, right, 2, minValue, minSum), WindowMoment(s, left, right, 3, minValue, minSum))
  }

  /** Over filled tables, `compute_kurtosis` is the shape of the window of
      the series. */
  lemma {:induction false} KurtosisIsWindowShape(moments: array2<real>, ps: array2<real>, s: seq<real>, left: nat,
                                                 right: nat, minValue: real, minSum: real)
    requires left <= right < MAX_YEARS && minSum != 0.0
    requires |s| == MAX_YEARS && PrefixTable(moments, MomentColumns(s)) && PrefixTable(ps, PowerColumns())
    ensures ComputeKurtosis(moments, ps, left, right, minValue, minSum) == WindowShape(s, left, right, minValue, minSum)
  {
    FullMomentSums(moments, ps, s, left, right, 0, minValue, minSum);
    FullMomentSums(moments, ps, s, left, right, 1, minValue, minSum);
    FullMomentSums(moments, ps, s, left, right, 2, minValue, minSum);
    FullMomentSums(moments, ps, s, left, right, 3, minValue, minSum);
  }

  /** The expansion of the second moment about the mean, divided by the
      total weight, is the variance formula of `compute_kurtosis`. */
  lemma VarianceFormula(m2: real, r0: real, e1: real, e2: real, e3: real, e4: real)
    requires r0 != 0.0 && SecondSum(m2, r0, e1 * r0, e2 * r0, e1)
    ensures m2 / r0 == ShapeOf(e1, e2, e3, e4).sigma2
  {
    assert m2 == r0 * (e2 - e1 * e1);
  }

  /** The expansion of the fourth moment about the mean, divided by the total
      weight, is the m_4 formula of `compute_kurtosis`. */
  lemma FourthMomentFormula(m4: real, r0: real, e1: real, e2: real, e3: real, e4: real)
    requires r0 != 0.0 && FourthSum(m4, r0, e1 * r0, e2 * r0, e3 * r0, e4 * r0, e1)
    ensures m4 / r0 == ShapeOf(e1, e2, e3, e4).m4
  {
    assert m4 == r0 * (e4 - 4.0 * e1 * e3 + 6.0 * e1 * e1 * e2 - 3.0 * e1 * e1 * e1 * e1);
  }

  /** A raw moment is its normalised value times the total weight. */
  lemma Denormalise(r: real, r0: real)
    requires r0 != 0.0
    ensures r == (r / r0) * r0
  {
  }

  /** The variance formula over raw moments r1, r2 that are not yet divided
      by the total weight r0. */
  lemma NormalisedVariance(m2: real, r0: real, r1: real, r2: real, r3: real, r4: real)
    requires r0 != 0.0 && SecondSum(m2, r0, r1, r2, r1 / r0)
    ensures m2 / r0 == ShapeOf(r1 / r0, r2 / r0, r3 / r0, r4 / r0).sigma2
  {
    Denormalise(r1, r0);
    Denormalise(r2, r0);
    VarianceFormula(m2, r0, r1 / r0, r2 / r0, r3 / r0, r4 / r0);
  }

  /** The m_4 formula over raw moments r1 .. r4 that are not yet divided by
      the total weight r0. */
  lemma NormalisedFourthMoment(m4: real, r0: real, r1: real, r2: real, r3: real, r4: real)
    requires r0 != 0.0 && FourthSum(m4, r0, r1, r2, r3, r4, r1 / r0)
    ensures m4 / r0 == ShapeOf(r1 / r0, r2 / r0, r3 / r0, r4 / r0).m4
  {
    Denormalise(r1, r0);
    Denormalise(r2, r0);
    Denormalise(r3, r0);
    Denormalise(r4, r0);
    FourthMomentFormula(m4, r0, r1 / r0, r2 / r0, r3 / r0, r4 / r0);
  }

  /** The variance `ShapeOf` gives for the normalised raw moments of
      weights w is their second moment about the mean over the total
      weight. */
  lemma {:induction false} ShapeVariance(w: seq<real>, xs: seq<real>, lo: nat, hi: nat)
    requires lo <= hi <= |w| == |xs| && SumRange(Raw(w, xs, 0), lo, hi) != 0.0
    ensures var t := SumRange(Raw(w, xs, 0), lo, hi);
            var r := ShapeOf(SumRange(Raw(w, xs, 1), lo, hi) / t, SumRange(Raw(w, xs, 2), lo, hi) / t,
                             SumRange(Raw(w, xs, 3), lo, hi) / t, SumRange(Raw(w, xs, 4), lo, hi) / t);
            r.sigma2 == SumRange(Weighted(w, xs, r.mean, 2), lo, hi) / t
  {
    var t := SumRange(Raw(w, xs, 0), lo, hi);
    var r1, r2 := SumRange(Raw(w, xs, 1), lo, hi), SumRange(Raw(w, xs, 2), lo, hi);
    var r3, r4 := SumRange(Raw(w, xs, 3), lo, hi), SumRange(Raw(w, xs, 4), lo, hi);
    CentralSecond(w, xs, r1 / t, lo, hi);
    NormalisedVariance(SumRange(Weighted(w, xs, r1 / t, 2), lo, hi), t, r1, r2, r3, r4);
  }

  /** The fourth central moment `ShapeOf` gives for the normalised raw
      moments of weights w is their fourth moment about the mean over the
      total weight. */
  lemma {:induction false} ShapeFourthMoment(w: seq<real>, xs: seq<real>, lo: nat, hi: nat)
    requires lo <= hi <= |w| == |xs| && SumRange(Raw(w, xs, 0), lo, hi) != 0.0
    ensures var t := SumRange(Raw(w, xs, 0), lo, hi);
            var r := ShapeOf(SumRange(Raw(w, xs, 1), lo, hi) / t, SumRange(Raw(w, xs, 2), lo, hi) / t,
                             SumRange(Raw(w, xs, 3), lo, hi) / t, SumRange(Raw(w, xs, 4), lo, hi) / t);
            r.m4 == SumRange(Weighted(w, xs, r.mean, 4), lo, hi) / t
  {
    var t := SumRange(Raw(w, xs, 0), lo, hi);
    var r1, r2 := SumRange(Raw(w, xs, 1), lo, hi), SumRange(Raw(w, xs, 2), lo, hi);
    var r3, r4 := SumRange(Raw(w, xs, 3), lo, hi), SumRange(Raw(w, xs, 4), lo, hi);
    CentralFourth(w, xs, r1 / t, lo, hi);
    NormalisedFourthMoment(SumRange(Weighted(w, xs, r1 / t, 4), lo, hi), t, r1, r2, r3, r4);
  }

  /** The shape of a window is computed from normalised raw moments: each
      window moment is the raw moment of the shifted values over their total,
      which is `min_sum`. */
  lemma {:induction false} WindowShapeIsNormalised(s: seq<real>, left: nat, right: nat, minValue: real, minSum: real)
    requires |s| == MAX_YEARS && left <= right < MAX_YEARS && minSum != 0.0
    requires minSum == MinSum(SumRange(s, left, right + 1), right + 1 - left, minValue)
    ensures var w, xs := Shifted(s, minValue), Positions(MAX_YEARS);
            var t := SumRange(Raw(w, xs, 0), left, right + 1);
            && t == minSum
            && WindowShape(s, left, right, minValue, minSum)
               == ShapeOf(SumRange(Raw(w, xs, 1), left, right + 1) / t, SumRange(Raw(w, xs, 2), left, right + 1) / t,
                          SumRange(Raw(w, xs, 3), left, right + 1) / t, SumRange(Raw(w, xs, 4), left, right + 1) / t)
  {
    FullMomentIsShifted(s, left, right, 0, minValue, minSum);
    FullMomentIsShifted(s, left, right, 1, minValue, minSum);
    FullMomentIsShifted(s, left, right, 2, minValue, minSum);
    FullMomentIsShifted(s, left, right, 3, minValue, minSum);
    TotalWeight(s, left, right, minValue, minSum);
  }

  /** When `min_sum` is the window's total above its minimum, the shape of
      a window is the weighted mean of its years, their weighted variance and
      their weighted fourth central moment, the weight of year k being
      series[k] - min_value out of `min_sum`. */
  lemma {:induction false} WindowShapeMoments(s: seq<real>, left: nat, right: nat, minValue: real, minSum: real)
    requires |s| == MAX_YEARS && left <= right < MAX_YEARS && minSum != 0.0
    requires minSum == MinSum(SumRange(s, left, right + 1), right + 1 - left, minValue)
    ensures var r := WindowShape(s, left, right, minValue, minSum);
            var w, xs := Shifted(s, minValue), Positions(MAX_YEARS);
            && r.mean == SumRange(Raw(w, xs, 1), left, right + 1) / minSum
            && r.sigma2 == SumRange(Weighted(w, xs, r.mean, 2), left, right + 1) / minSum
            && r.m4 == SumRange(Weighted(w, xs, r.mean, 4), left, right + 1) / minSum
  {
    var w, xs := Shifted(s, minValue), Positions(MAX_YEARS);
    WindowShapeIsNormalised(s, left, right, minValue, minSum);
    ShapeVariance(w, xs, left, right + 1);
    ShapeFourthMoment(w, xs, left, right + 1);
  }

  /** What `compute_kurtosis` yields over filled tables: the weighted mean,
      variance and fourth central moment of the window, from which `ShapeOf`
      forms the excess kurtosis. */
  lemma {:induction false} KurtosisMoments(moments: array2<real>, ps: array2<real>, s: seq<real>, left: nat,
                                           right: nat, minValue: real, minSum: real)
    requires left <= right < MAX_YEARS && minSum != 0.0
    requires |s| == MAX_YEARS && PrefixTable(moments, MomentColumns(s)) && PrefixTable(ps, PowerColumns())
    requires minSum == MinSum(SumRange(s, left, right + 1), right + 1 - left, minValue)
    ensures var r := ComputeKurtosis(moments, ps, left, right, minValue, minSum);
            var w, xs := Shifted(s, minValue), Positions(MAX_YEARS);
            && r.mean == SumRange(Raw(w, xs, 1), left, right + 1) / minSum
            && r.sigma2 == SumRange(Weighted(w, xs, r.mean, 2), left, right + 1) / minSum
            && r.m4 == SumRange(Weighted(w, xs, r.mean, 4), left, right + 1) / minSum
  {
    KurtosisIsWindowShape(moments, ps, s, left, right, minValue, minSum);
    WindowShapeMoments(s, left, right, minValue, minSum);
  }

  lemma NonNegativeQuotient(a: real, b: real)
    requires a >= 0.0 && b > 0.0
    ensures a / b >= 0.0
  {
  }

  /** When `min_value` is at most every value of the window the weights are
      not negative, so the variance of the window is not negative either. */
  lemma {:induction false} WindowVarianceNonNegative(s: seq<real>, left: nat, right: nat, minValue: real, minSum: real)
    requires |s| == MAX_YEARS && left <= right < MAX_YEARS && minSum != 0.0
    requires minSum == MinSum(SumRange(s, left, right + 1), right + 1 - left, minValue)
    requires forall k :: left <= k <= right ==> minValue <= s[k]
    ensures WindowShape(s, left, right, minValue, minSum).sigma2 >= 0.0
  {
    var w, xs := Shifted(s, minValue), Positions(MAX_YEARS);
    var r := WindowShape(s, left, right, minValue, minSum);
    WindowShapeMoments(s, left, right, minValue, minSum);
    MassNonNegative(s, left, right, minValue, minSum);
    WeightedSquaresNonNegative(w, xs, r.mean, left, right + 1);
    NonNegativeQuotient(SumRange(Weighted(w, xs, r.mean, 2), left, right + 1), minSum);
  }

  /** The variance `compute_kurtosis` takes the square root of is not
      negative when `min_value` is the window's minimum. */
  lemma {:induction false} VarianceNonNegative(moments: array2<real>, ps: array2<real>, s: seq<real>, left: nat,
                                               right: nat, minValue: real, minSum: real)
    requires left <= right < MAX_YEARS && minSum != 0.0
    requires |s| == MAX_YEARS && PrefixTable(moments, MomentColumns(s)) && PrefixTable(ps, PowerColumns())
    requires minSum == MinSum(SumRange(s, left, right + 1), right + 1 - left, minValue)
    requires forall k :: left <= k <= right ==> minValue <= s[k]
    ensures ComputeKurtosis(moments, ps, left, right, minValue, minSum).sigma2 >= 0.0
  {
    KurtosisIsWindowShape(moments, ps, s, left, right, minValue, minSum);
    WindowVarianceNonNegative(s, left, right, minValue, minSum);
  }

  /** `min_sum` is not negative when `min_value` is at most every value of
      the window: it is the sum of the values above `min_value`. */
  lemma {:induction false} MassNonNegative(s: seq<real>, left: nat, right: nat, minValue: real, minSum: real)
    requires left <= right < |s|
    requires minSum == MinSum(SumRange(s, left, right + 1), right + 1 - left, minValue)
    requires forall k :: left <= k <= right ==> minValue <= s[k]
    ensures minSum >= 0.0
  {
    ShiftedTotal(s, Ones(|s|), Shifted(s, minValue), left, right + 1, minValue, minSum);
    SumRangeNonNegative(Shifted(s, minValue), left, right + 1);
  }

  /** The differences between the window's normalised values and the density
      at each year position. */
  function Gaps(s: seq<real>, minValue: real, minSum: real, mean: real, sigma: real,
                pdf: (real, real) -> real): (d: seq<real>)
    requires minSum != 0.0
    ensures |d| == |s|
    ensures forall k :: 0 <= k < |s| ==> d[k] == (s[k] - minValue) / minSum - pdf(k as real - mean, sigma)
  {
    seq(|s|, k requires 0 <= k < |s| => (s[k] - minValue) / minSum - pdf(k as real - mean, sigma))
  }

  /** The sum over i in [left, hi) of |d[left] + ... + d[i]|. */
  function AbsPrefixSums(d: seq<real>, left: nat, hi: nat): real
    requires left <= hi <= |d|
    decreases hi - left
  {
    if hi == left then 0.0
    else
      var p := SumRange(d, left, hi);
      AbsPrefixSums(d, left, hi - 1) + (if p < 0.0 then -p else p)
  }

  lemma {:induction false} AbsPrefixSumsNonNegative(d: seq<real>, left: nat, hi: nat)
    requires left <= hi <= |d|
    ensures AbsPrefixSums(d, left, hi) >= 0.0
    decreases hi - left
  {
    if hi > left {
      AbsPrefixSumsNonNegative(d, left, hi - 1);
    }
  }

  /** `compute_emd`: the area between the two cumulative distributions, the
      window's and the density's, over [left, right]; never negative. */
  method ComputeEmd(series: array<real>, left: nat, right: nat, minValue: real, minSum: real,
                    mean: real, sigma: real, pdf: (real, real) -> real) returns (distance: real)
    requires left <= right < series.Length && minSum != 0.0
    ensures distance == AbsPrefixSums(Gaps(series[..], minValue, minSum, mean, sigma, pdf), left, right + 1)
    ensures distance >= 0.0
  {
    ghost var d := Gaps(series[..], minValue, minSum, mean, sigma, pdf);
    distance := 0.0;
    var emd := 0.0;
    var i := left;
    while i <= right
      invariant left <= i <= right + 1
      invariant emd == SumRange(d, left, i)
      invariant distance == AbsPrefixSums(d, left, i)
    {
      var rValue := (series[i] - minValue) / minSum;
      var gValue := pdf(i as real - mean, sigma);
      emd := emd + (rValue - gValue);
      distance := distance + (if emd < 0.0 then -emd else emd);
      i := i + 1;
    }
    AbsPrefixSumsNonNegative(d, left, right + 1);
  }
}
