/** The Gaussian event detector (`gaussian_finder.h`, `gaussian_finder.cpp`):
    the order on candidate windows, the enumeration of the candidate windows
    of a series, and the greedy choice of candidates whose year ranges do not
    overlap.  The square root and the Gaussian density are parameters. */
module GaussianFinder {
  import opened Wrappers
  import opened Windows
  import opened MomentAlgebra
  import opened GaussianModel
  import opened Sorting

  /** `EPSILON`, the tolerance of the comparisons of the order. */
  const EPSILON: real := 0.000001

  /** The largest finite double, 2^1024 - 2^971, with which the running
      minimum of a window starts and which means "no widening". */
  const DBL_MAX: real := 179769313486231570814527423731704356798070567525844996598917476803157260780028538760589558632766878171540458953514382464234321326889464182768467546703537516986049910576551282076245490090389328944075868508455133942304583236903222948165808559332123348274797826204144723168738177180919299881250404026184124858368.0

  /** A quotient of doubles that is either finite or +inf: the `increase` of
      a candidate is `min_sum * max_probability / min_value`, which is +inf
      when the window's minimum is 0. */
  datatype Ratio = Finite(value: real) | Infinite

  function Quotient(numerator: real, denominator: real): Ratio
  {
    if denominator == 0.0 then Infinite else Finite(numerator / denominator)
  }

  /** `increase`: `min_sum * max_probability / min_value`. */
  function Increase(minSum: real, maxProbability: real, minValue: real): Ratio
  {
    Quotient(minSum * maxProbability, minValue)
  }

  /** `gaussian_entry`. */
  datatype GaussianEntry = GaussianEntry(left: nat, right: nat, mean: real, sigma: real, distance: real,
                                         increase: Ratio)

  function Abs(x: real): real
  {
    if x < 0.0 then -x else x
  }

  /** `fabs(a - b) >= EPSILON`: inf - inf is NaN, which is never apart. */
  predicate Apart(a: Ratio, b: Ratio)
  {
    match (a, b)
    case (Finite(x), Finite(y)) => Abs(x - y) >= EPSILON
    case (Infinite, Infinite) => false
    case _ => true
  }

  /** `a > b`. */
  predicate Greater(a: Ratio, b: Ratio)
  {
    match (a, b)
    case (Finite(x), Finite(y)) => x > y
    case (Infinite, Finite(_)) => true
    case _ => false
  }

  /** `gaussian_entry::operator<`: by distance, then by decreasing increase,
      then by left and right end, then by mean and sigma, the real-valued
      keys compared with tolerance EPSILON. */
  predicate Less(a: GaussianEntry, b: GaussianEntry)
  {
    if Abs(a.distance - b.distance) >= EPSILON then a.distance < b.distance
    else if Apart(a.increase, b.increase) then Greater(a.increase, b.increase)
    else if a.left != b.left then a.left < b.left
    else if a.right != b.right then a.right < b.right
    else if Abs(a.mean - b.mean) >= EPSILON then a.mean < b.mean
    else if Abs(a.sigma - b.sigma) >= EPSILON then a.sigma < b.sigma
    else false
  }

  /** The first test of the order: distances at least EPSILON apart decide. */
  lemma DistanceDecides(a: GaussianEntry, b: GaussianEntry)
    requires Abs(a.distance - b.distance) >= EPSILON
    ensures Less(a, b) <==> a.distance < b.distance
  {
  }

  /** Then the larger increase comes first. */
  lemma IncreaseDecides(a: GaussianEntry, b: GaussianEntry)
    requires Abs(a.distance - b.distance) < EPSILON && Apart(a.increase, b.increase)
    ensures Less(a, b) <==> Greater(a.increase, b.increase)
  {
  }

  /** Then the window: left end, then right end, exactly. */
  lemma WindowDecides(a: GaussianEntry, b: GaussianEntry)
    requires Abs(a.distance - b.distance) < EPSILON && !Apart(a.increase, b.increase)
    requires a.left != b.left || a.right != b.right
    ensures Less(a, b) <==> (a.left < b.left || (a.left == b.left && a.right < b.right))
  {
  }

  /** An entry is never less than itself. */
  lemma LessIrreflexive(a: GaussianEntry)
    ensures !Less(a, a)
  {
  }

  /** Each test of the order is symmetric, so the order is asymmetric. */
  lemma LessAsymmetric(a: GaussianEntry, b: GaussianEntry)
    requires Less(a, b)
    ensures !Less(b, a)
  {
  }

  /** Two entries neither of which is less than the other have the same
      window and keys that agree within EPSILON. */
  lemma LessIncomparable(a: GaussianEntry, b: GaussianEntry)
    requires !Less(a, b) && !Less(b, a)
    ensures a.left == b.left && a.right == b.right
    ensures Abs(a.distance - b.distance) < EPSILON && !Apart(a.increase, b.increase)
    ensures Abs(a.mean - b.mean) < EPSILON && Abs(a.sigma - b.sigma) < EPSILON
  {
  }

  lemma LessIsAsymmetric()
    ensures Asymmetric(Less)
  {
    forall a, b | Less(a, b)
      ensures !Less(b, a)
    {
      LessAsymmetric(a, b);
    }
  }

  // ---------------------------------------------------------------------
  // select_gaussians

  /** `min_value` once the inner loop has seen s[lo..hi): the smallest of
      DBL_MAX and those values. */
  function RunningMin(s: seq<real>, lo: nat, hi: nat): real
    requires lo <= hi <= |s|
    decreases hi - lo
  {
    if lo == hi then DBL_MAX
    else
      var m := RunningMin(s, lo, hi - 1);
      if s[hi - 1] < m then s[hi - 1] else m
  }

  /** The running minimum is a lower bound of the window, and it is one of
      the window's values unless it is still the initial DBL_MAX. */
  lemma {:induction false} RunningMinBounds(s: seq<real>, lo: nat, hi: nat)
    requires lo <= hi <= |s|
    ensures forall k :: lo <= k < hi ==> RunningMin(s, lo, hi) <= s[k]
    ensures RunningMin(s, lo, hi) == DBL_MAX || exists k :: lo <= k < hi && s[k] == RunningMin(s, lo, hi)
    decreases hi - lo
  {
    if lo < hi {
      RunningMinBounds(s, lo, hi - 1);
    }
  }

  /** `min_sum` of the window [left, right]. */
  function WindowMass(s: seq<real>, left: nat, right: nat): real
    requires left <= right < |s|
  {
    MinSum(SumRange(s, left, right + 1), right + 1 - left, RunningMin(s, left, right + 1))
  }

  /** The entry the body of the inner loop pushes for the window
      [left, right], if any; windows outside the series give none.  A window
      whose `min_sum` is 0 has NaN moments, which fail the kurtosis test;
      so does one of zero variance. */
  function Candidate(s: seq<real>, left: nat, right: nat, sqrt: real -> real,
                     pdf: (real, real) -> real): Option<GaussianEntry>
  {
    if |s| != MAX_YEARS || right < left || MAX_YEARS <= right then None
    else
      var minValue := RunningMin(s, left, right + 1);
      var minSum := WindowMass(s, left, right);
      if minSum == 0.0 then None
      else
        var shape := WindowShape(s, left, right, minValue, minSum);
        if shape.kurtosis.None? || Abs(shape.kurtosis.value) >= 0.05 then None
        else
          var sigma := sqrt(shape.sigma2);
          var emd := AbsPrefixSums(Gaps(s, minValue, minSum, shape.mean, sigma, pdf), left, right + 1);
          if emd >= 0.3 then None
          else Some(GaussianEntry(left, right, shape.mean, sigma, emd,
                                  Increase(minSum, pdf(0.0, sigma), minValue)))
  }

  /** The candidates of the windows of a series. */
  function WindowCandidates(s: seq<real>, sqrt: real -> real, pdf: (real, real) -> real)
    : (nat, nat) -> Option<GaussianEntry>
  {
    (left: nat, right: nat) => Candidate(s, left, right, sqrt, pdf)
  }

  /** Every entry a window gives is labelled with that window. */
  ghost predicate Labelled(cand: (nat, nat) -> Option<GaussianEntry>)
  {
    forall left: nat, right: nat :: cand(left, right).Some? ==>
      cand(left, right).value.left == left && cand(left, right).value.right == right
  }

  lemma WindowCandidatesLabelled(s: seq<real>, sqrt: real -> real, pdf: (real, real) -> real)
    ensures Labelled(WindowCandidates(s, sqrt, pdf))
  {
  }

  /** cand gives, for every window, what `select_gaussians` finds in that
      window of the series. */
  ghost predicate Agrees(cand: (nat, nat) -> Option<GaussianEntry>, s: seq<real>, sqrt: real -> real,
                         pdf: (real, real) -> real)
  {
    forall left: nat, right: nat {:trigger Candidate(s, left, right, sqrt, pdf)} ::
      cand(left, right) == Candidate(s, left, right, sqrt, pdf)
  }

  lemma WindowCandidatesAgree(s: seq<real>, sqrt: real -> real, pdf: (real, real) -> real)
    ensures Agrees(WindowCandidates(s, sqrt, pdf), s, sqrt, pdf)
  {
  }

  function AsSeq<T>(o: Option<T>): seq<T>
  {
    if o.Some? then [o.value] else []
  }

  /** The entries pushed for the windows [left, r], r in [left, hi), the
      window [l, r] giving cand(l, r). */
  function RowCandidates(cand: (nat, nat) -> Option<GaussianEntry>, left: nat, hi: nat): seq<GaussianEntry>
    decreases hi - left
  {
    if hi <= left then []
    else RowCandidates(cand, left, hi - 1) + (if hi - 1 >= left + 4 then AsSeq(cand(left, hi - 1)) else [])
  }

  /** Each entry of a row comes from a window of at least five years
      starting at that row's left end. */
  lemma {:induction false} RowCandidatesWindows(cand: (nat, nat) -> Option<GaussianEntry>, left: nat, hi: nat)
    requires Labelled(cand)
    ensures forall e <- RowCandidates(cand, left, hi) ::
              e.left == left && left + 4 <= e.right < hi && cand(left, e.right) == Some(e)
    decreases hi - left
  {
    if hi > left {
      RowCandidatesWindows(cand, left, hi - 1);
      var b: seq<GaussianEntry> := if hi - 1 >= left + 4 then AsSeq(cand(left, hi - 1)) else [];
      assert RowCandidates(cand, left, hi) == RowCandidates(cand, left, hi - 1) + b;
    }
  }

  /** How many right ends a left end allows (right < left + span):
      `select_gaussians` lets right reach left + 50, the older
      `fit_gaussians` of `relevance.cpp` stops one short of it. */
  const FINDER_SPAN: nat := 51
  const RELEVANCE_SPAN: nat := 50

  /** The exclusive bound of `right` for a given `left`: right < sup and
      right < left + span. */
  function RightBound(left: nat, sup: nat, span: nat): nat
  {
    if sup < left + span then sup else left + span
  }

  /** The entries pushed for the windows whose left end is in [inf, hi). */
  function Candidates(cand: (nat, nat) -> Option<GaussianEntry>, inf: nat, hi: nat, sup: nat, span: nat)
    : seq<GaussianEntry>
    decreases hi - inf
  {
    if hi <= inf then []
    else Candidates(cand, inf, hi - 1, sup, span) + RowCandidates(cand, hi - 1, RightBound(hi - 1, sup, span))
  }

  /** Every candidate window satisfies inf <= left, right < sup and
      4 <= right - left < span, and the entry is what that window gives. */
  lemma {:induction false} CandidatesWindows(cand: (nat, nat) -> Option<GaussianEntry>, inf: nat, hi: nat, sup: nat,
                                             span: nat)
    requires Labelled(cand)
    ensures forall e <- Candidates(cand, inf, hi, sup, span) ::
              inf <= e.left < hi && e.right < sup && 4 <= e.right - e.left < span
              && cand(e.left, e.right) == Some(e)
    decreases hi - inf
  {
    if hi > inf {
      CandidatesWindows(cand, inf, hi - 1, sup, span);
      RowCandidatesWindows(cand, hi - 1, RightBound(hi - 1, sup, span));
    }
  }

  /** All entries `select_gaussians(series, inf, sup)` finds, before sorting. */
  function AllCandidates(s: seq<real>, inf: nat, sup: nat, span: nat, sqrt: real -> real,
                         pdf: (real, real) -> real): seq<GaussianEntry>
  {
    Candidates(WindowCandidates(s, sqrt, pdf), inf, if inf < sup then sup else inf, sup, span)
  }

  /** The entry of a window that passes both tests. */
  lemma CandidateEntry(s: seq<real>, left: nat, right: nat, sqrt: real -> real, pdf: (real, real) -> real)
    requires |s| == MAX_YEARS && left <= right < MAX_YEARS
    requires Candidate(s, left, right, sqrt, pdf).Some?
    ensures var minValue, minSum := RunningMin(s, left, right + 1), WindowMass(s, left, right);
            minSum != 0.0
            && var shape := WindowShape(s, left, right, minValue, minSum);
               var sigma := sqrt(shape.sigma2);
               var emd := AbsPrefixSums(Gaps(s, minValue, minSum, shape.mean, sigma, pdf), left, right + 1);
               && shape.kurtosis.Some? && Abs(shape.kurtosis.value) < 0.05 && emd < 0.3
               && Candidate(s, left, right, sqrt, pdf).value
                  == GaussianEntry(left, right, shape.mean, sigma, emd, Increase(minSum, pdf(0.0, sigma), minValue))
  {
  }

  /** What a candidate is: `min_sum` is positive, the two tests pass, the
      distance is `compute_emd` of the window and lies in [0, .3), and mean
      and sigma are the weighted mean and the square root of the weighted
      variance of the year positions, the weights being the values above the
      window's minimum. */
  lemma {:induction false} CandidateProperties(s: seq<real>, left: nat, right: nat, sqrt: real -> real,
                                               pdf: (real, real) -> real)
    requires |s| == MAX_YEARS && left <= right < MAX_YEARS
    requires Candidate(s, left, right, sqrt, pdf).Some?
    ensures var e := Candidate(s, left, right, sqrt, pdf).value;
            var minValue := RunningMin(s, left, right + 1);
            var minSum := WindowMass(s, left, right);
            var w, xs := Shifted(s, minValue), Positions(MAX_YEARS);
            && e.left == left && e.right == right
            && minSum > 0.0
            && WindowShape(s, left, right, minValue, minSum).kurtosis.Some?
            && Abs(WindowShape(s, left, right, minValue, minSum).kurtosis.value) < 0.05
            && 0.0 <= e.distance < 0.3
            && e.distance == AbsPrefixSums(Gaps(s, minValue, minSum, e.mean, e.sigma, pdf), left, right + 1)
            && e.mean == SumRange(Raw(w, xs, 1), left, right + 1) / minSum
            && e.sigma == sqrt(SumRange(Weighted(w, xs, e.mean, 2), left, right + 1) / minSum)
  {
    RunningMinBounds(s, left, right + 1);
    MassNonNegative(s, left, right, RunningMin(s, left, right + 1), WindowMass(s, left, right));
    CandidateEntry(s, left, right, sqrt, pdf);
    WindowShapeMoments(s, left, right, RunningMin(s, left, right + 1), WindowMass(s, left, right));
    var shape := WindowShape(s, left, right, RunningMin(s, left, right + 1), WindowMass(s, left, right));
    AbsPrefixSumsNonNegative(Gaps(s, RunningMin(s, left, right + 1), WindowMass(s, left, right), shape.mean, sqrt(shape.sigma2), pdf), left, right + 1);
  }

  /** The increase of a candidate of a non-negative series is positive, or
      +inf when the window's minimum is 0, provided the square root and the
      density at the peak are positive for positive arguments. */
  lemma {:induction false} CandidateIncreasePositive(s: seq<real>, left: nat, right: nat, sqrt: real -> real,
                                                     pdf: (real, real) -> real)
    requires |s| == MAX_YEARS && left <= right < MAX_YEARS
    requires Candidate(s, left, right, sqrt, pdf).Some?
    requires forall k :: left <= k <= right ==> s[k] >= 0.0
    requires forall x :: x > 0.0 ==> sqrt(x) > 0.0
    requires forall x :: x > 0.0 ==> pdf(0.0, x) > 0.0
    ensures match Candidate(s, left, right, sqrt, pdf).value.increase
            case Infinite => RunningMin(s, left, right + 1) == 0.0
            case Finite(v) => v > 0.0
  {
    RunningMinBounds(s, left, right + 1);
    MassNonNegative(s, left, right, RunningMin(s, left, right + 1), WindowMass(s, left, right));
    CandidateEntry(s, left, right, sqrt, pdf);
    WindowVarianceNonNegative(s, left, right, RunningMin(s, left, right + 1), WindowMass(s, left, right));
    var shape := WindowShape(s, left, right, RunningMin(s, left, right + 1), WindowMass(s, left, right));
    var sigma := sqrt(shape.sigma2);
    IncreasePositive(WindowMass(s, left, right), pdf(0.0, sigma), RunningMin(s, left, right + 1));
  }

  /** min_sum * max_probability / min_value is positive, or +inf when
      min_value is 0, for positive min_sum and max_probability and
      non-negative min_value. */
  lemma IncreasePositive(minSum: real, maxProbability: real, minValue: real)
    requires minSum > 0.0 && maxProbability > 0.0 && minValue >= 0.0
    ensures match Increase(minSum, maxProbability, minValue)
            case Infinite => minValue == 0.0
            case Finite(v) => v > 0.0
  {
    PositiveProduct(minSum, maxProbability);
    if minValue != 0.0 {
      PositiveQuotient(minSum * maxProbability, minValue);
    }
  }

  lemma PositiveProduct(a: real, b: real)
    requires a > 0.0 && b > 0.0
    ensures a * b > 0.0
  {
  }

  lemma PositiveQuotient(a: real, b: real)
    requires a > 0.0 && b > 0.0
    ensures a / b > 0.0
  {
  }

  /** The body of the inner loop of `select_gaussians` for a window of at
      least five years, given the running minimum and sum of the window. */
  method TryWindow(series: array<real>, moments: array2<real>, ps: array2<real>, left: nat, right: nat,
                   minValue: real, sum: real, sqrt: real -> real, pdf: (real, real) -> real,
                   ghost cand: (nat, nat) -> Option<GaussianEntry>)
    returns (entry: Option<GaussianEntry>)
    requires series.Length == MAX_YEARS && left <= right < MAX_YEARS
    requires moments.Length0 == MAX_YEARS + 1 && moments.Length1 == NUM_MOMENTS
    requires ps.Length0 == MAX_YEARS + 1 && ps.Length1 == NUM_MOMENTS
    requires PrefixTable(moments, MomentColumns(series[..])) && PrefixTable(ps, PowerColumns())
    requires minValue == RunningMin(series[..], left, right + 1) && sum == SumRange(series[..], left, right + 1)
    requires Agrees(cand, series[..], sqrt, pdf)
    ensures entry == cand(left, right)
  {
    entry := None;
    var minSum := MinSum(sum, right + 1 - left, minValue);
    if minSum != 0.0 {
      KurtosisIsWindowShape(moments, ps, series[..], left, right, minValue, minSum);
      var shape := ComputeKurtosis(moments, ps, left, right, minValue, minSum);
      if shape.kurtosis.Some? && Abs(shape.kurtosis.value) < 0.05 {
        var sigma := sqrt(shape.sigma2);
        var emd := ComputeEmd(series, left, right, minValue, minSum, shape.mean, sigma, pdf);
        if emd < 0.3 {
          var maxProbability := pdf(0.0, sigma);
          entry := Some(GaussianEntry(left, right, shape.mean, sigma, emd,
                                      Increase(minSum, maxProbability, minValue)));
        }
      }
    }
    assert entry == Candidate(series[..], left, right, sqrt, pdf);
  }

  /** The inner loop of `select_gaussians` for one left end: the entries
      found for the windows starting there, in the order they are pushed. */
  method ScanRow(series: array<real>, moments: array2<real>, ps: array2<real>, left: nat, sup: nat, span: nat,
                 sqrt: real -> real, pdf: (real, real) -> real, ghost cand: (nat, nat) -> Option<GaussianEntry>)
    returns (row: seq<GaussianEntry>)
    requires series.Length == MAX_YEARS && left < sup <= MAX_YEARS
    requires moments.Length0 == MAX_YEARS + 1 && moments.Length1 == NUM_MOMENTS
    requires ps.Length0 == MAX_YEARS + 1 && ps.Length1 == NUM_MOMENTS
    requires PrefixTable(moments, MomentColumns(series[..])) && PrefixTable(ps, PowerColumns())
    requires Agrees(cand, series[..], sqrt, pdf)
    ensures row == RowCandidates(cand, left, RightBound(left, sup, span))
  {
    ghost var s := series[..];
    row := [];
    var minValue := DBL_MAX;
    var sum := 0.0;
    var right := left;
    while right < sup && right < left + span
      invariant left <= right <= RightBound(left, sup, span)
      invariant minValue == RunningMin(s, left, right)
      invariant sum == SumRange(s, left, right)
      invariant row == RowCandidates(cand, left, right)
    {
      var value := series[right];
      if value < minValue {
        minValue := value;
      }
      sum := sum + value;
      if right >= left + 4 {
        var entry := TryWindow(series, moments, ps, left, right, minValue, sum, sqrt, pdf, cand);
        row := row + AsSeq(entry);
      }
      right := right + 1;
    }
  }

  /** The two loops of `select_gaussians` over the filled moments table:
      the entries found, in the order they are pushed. */
  method ScanWindows(series: array<real>, moments: array2<real>, ps: array2<real>, inf: nat, sup: nat, span: nat,
                     sqrt: real -> real, pdf: (real, real) -> real, ghost cand: (nat, nat) -> Option<GaussianEntry>)
    returns (found: seq<GaussianEntry>)
    requires series.Length == MAX_YEARS && sup <= MAX_YEARS
    requires moments.Length0 == MAX_YEARS + 1 && moments.Length1 == NUM_MOMENTS
    requires ps.Length0 == MAX_YEARS + 1 && ps.Length1 == NUM_MOMENTS
    requires PrefixTable(moments, MomentColumns(series[..])) && PrefixTable(ps, PowerColumns())
    requires Agrees(cand, series[..], sqrt, pdf)
    ensures found == Candidates(cand, inf, if inf < sup then sup else inf, sup, span)
  {
    found := [];
    var left := inf;
    while left < sup
      invariant inf <= left && (left == inf || left <= sup)
      invariant found == Candidates(cand, inf, left, sup, span)
    {
      var row := ScanRow(series, moments, ps, left, sup, span, sqrt, pdf, cand);
      found := found + row;
      left := left + 1;
    }
  }

  /** The window scan and sort shared by `select_gaussians` and the older
      `fit_gaussians` of `relevance.cpp`, over windows with
      right < left + span; the table of powers is filled beforehand.  The
      result is the candidates sorted by the order of `gaussian_entry`. */
  method SortedCandidates(series: array<real>, ps: array2<real>, inf: nat, sup: nat, span: nat,
                          sqrt: real -> real, pdf: (real, real) -> real) returns (gaussians: seq<GaussianEntry>)
    requires series.Length == MAX_YEARS && sup <= MAX_YEARS
    requires ps.Length0 == MAX_YEARS + 1 && ps.Length1 == NUM_MOMENTS && PrefixTable(ps, PowerColumns())
    ensures gaussians == Sort(AllCandidates(series[..], inf, sup, span, sqrt, pdf), Less)
    ensures multiset(gaussians) == multiset(AllCandidates(series[..], inf, sup, span, sqrt, pdf))
    ensures LocallySorted(gaussians, Less)
  {
    var moments := new real[MAX_YEARS + 1, NUM_MOMENTS];
    InitPartialMoments(moments, series);
    WindowCandidatesAgree(series[..], sqrt, pdf);
    var found := ScanWindows(series, moments, ps, inf, sup, span, sqrt, pdf, WindowCandidates(series[..], sqrt, pdf));
    gaussians := Sort(found, Less);
    LessIsAsymmetric();
    SortLocallySorted(found, Less);
  }

  /** `select_gaussians(series, inf, sup, gaussians)`: windows with
      right <= left + 50. */
  method SelectGaussians(series: array<real>, ps: array2<real>, inf: nat, sup: nat, sqrt: real -> real,
                         pdf: (real, real) -> real) returns (gaussians: seq<GaussianEntry>)
    requires series.Length == MAX_YEARS && sup <= MAX_YEARS
    requires ps.Length0 == MAX_YEARS + 1 && ps.Length1 == NUM_MOMENTS && PrefixTable(ps, PowerColumns())
    ensures gaussians == Sort(AllCandidates(series[..], inf, sup, FINDER_SPAN, sqrt, pdf), Less)
    ensures multiset(gaussians) == multiset(AllCandidates(series[..], inf, sup, FINDER_SPAN, sqrt, pdf))
    ensures LocallySorted(gaussians, Less)
  {
    gaussians := SortedCandidates(series, ps, inf, sup, FINDER_SPAN, sqrt, pdf);
  }
}
