/** The older Gaussian detector of `relevance.cpp` (`fit_gaussians` and
    `gaussian_model_series_to_csv`): the same window scan as
    `select_gaussians` but with right < left + 50, and a greedy selection
    that writes a count for every year of each accepted window into the
    caller's `counts` array instead of pushing (year, count) pairs.  The
    Gaussian density is a parameter. */
module RelevanceGaussians {
  import opened GaussianModel
  import opened GaussianFinder
  import opened GaussianRelevance
  import opened Sorting

  /** `count = (int) (10 * min(increase, 1))` followed by the cap
      `if (count > 10) count = 10`. */
  function CappedCount(e: GaussianEntry): int
  {
    var c := BaseCount(e);
    if c > 10 then 10 else c
  }

  /** The cap never changes the count, which is at most 10, and lies in
      [0, 10] for a non-negative increase. */
  lemma CappedCountBounds(e: GaussianEntry)
    ensures CappedCount(e) == BaseCount(e)
    ensures CappedCount(e) <= 10
    ensures e.increase.Infinite? || e.increase.value >= 0.0 ==> 0 <= CappedCount(e)
  {
    BaseCountBounds(e);
  }

  /** The density never vanishes at the peak, so `ratio` is defined. */
  ghost predicate PeakNonZero(pdf: (real, real) -> real)
  {
    forall sigma: real :: pdf(0.0, sigma) != 0.0
  }

  /** `counts[i] = (int) (ratio * pdf(i - mean, sigma))` with
      `ratio = (count + .5) / pdf(0, sigma)`. */
  function YearValue(e: GaussianEntry, year: nat, pdf: (real, real) -> real): int
    requires pdf(0.0, e.sigma) != 0.0
  {
    Scaled(PeakRatio(CappedCount(e), pdf(0.0, e.sigma)), pdf(year as real - e.mean, e.sigma))
  }

  /** At the mean of a window the value is the capped count (for a count of
      at least 0), since the density there is the peak density. */
  lemma YearValueAtPeak(e: GaussianEntry, year: nat, pdf: (real, real) -> real)
    requires pdf(0.0, e.sigma) != 0.0 && year as real == e.mean && CappedCount(e) >= 0
    ensures YearValue(e, year, pdf) == CappedCount(e)
  {
    var p := pdf(0.0, e.sigma);
    var c := CappedCount(e) as real;
    assert (c + 0.5) / p * p == c + 0.5;
    TruncTowardZero(c + 0.5);
  }

  /** The writes of one accepted window: counts[i] for i in [lo, hi). */
  function Paint(counts: seq<int>, e: GaussianEntry, lo: nat, hi: nat, pdf: (real, real) -> real): (r: seq<int>)
    requires pdf(0.0, e.sigma) != 0.0
    ensures |r| == |counts|
    ensures forall i :: 0 <= i < |counts| ==> r[i] == if lo <= i < hi then YearValue(e, i, pdf) else counts[i]
  {
    seq(|counts|, i requires 0 <= i < |counts| => if lo <= i < hi then YearValue(e, i, pdf) else counts[i])
  }

  lemma PaintNext(counts: seq<int>, e: GaussianEntry, lo: nat, hi: nat, pdf: (real, real) -> real)
    requires pdf(0.0, e.sigma) != 0.0 && lo <= hi < |counts|
    ensures Paint(counts, e, lo, hi + 1, pdf) == Paint(counts, e, lo, hi, pdf)[hi := YearValue(e, hi, pdf)]
  {
  }

  /** The state of the selection loop: the `used` bitset, the `counts`
      array and (for the proofs) the accepted windows. */
  datatype Fit = Fit(used: seq<bool>, counts: seq<int>, accepted: seq<GaussianEntry>)

  /** The candidates lie inside the bitset of MAX_YEARS years. */
  predicate InRange(gs: seq<GaussianEntry>)
  {
    forall e <- gs :: e.right < MAX_YEARS
  }

  /** One sorted candidate: accepted if its years are all free. */
  function FitStep(f: Fit, e: GaussianEntry, pdf: (real, real) -> real): Fit
    requires |f.used| == MAX_YEARS && e.right < MAX_YEARS && pdf(0.0, e.sigma) != 0.0
  {
    if Free(f.used, e.left, e.right) then
      Fit(Mark(f.used, e.left, e.right + 1), Paint(f.counts, e, e.left, e.right + 1, pdf), f.accepted + [e])
    else f
  }

  /** The state after the first n candidates, from no used year and the
      caller's counts. */
  function Fitted(gs: seq<GaussianEntry>, n: nat, counts: seq<int>, pdf: (real, real) -> real): (f: Fit)
    requires n <= |gs| && InRange(gs) && PeakNonZero(pdf)
    ensures |f.used| == MAX_YEARS && |f.counts| == |counts|
  {
    if n == 0 then Fit(seq(MAX_YEARS, _ => false), counts, [])
    else FitStep(Fitted(gs, n - 1, counts, pdf), gs[n - 1], pdf)
  }

  /** The used years are those the accepted windows cover. */
  ghost predicate UsedIsAccepted(f: Fit)
  {
    |f.used| == MAX_YEARS && forall y: nat :: y < MAX_YEARS ==> (f.used[y] <==> CoveredBy(f.accepted, y))
  }

  /** Every year holds the value the accepted window covering it gives it,
      or the caller's count when no accepted window covers it. */
  ghost predicate CountsPainted(f: Fit, counts: seq<int>, pdf: (real, real) -> real)
  {
    && |f.counts| == |counts|
    && forall y :: 0 <= y < |counts| ==>
         if CoveredBy(f.accepted, y) then
           exists a <- f.accepted :: Covers(a, y) && pdf(0.0, a.sigma) != 0.0 && f.counts[y] == YearValue(a, y, pdf)
         else f.counts[y] == counts[y]
  }

  lemma FitStepKeepsUsedIsAccepted(f: Fit, e: GaussianEntry, pdf: (real, real) -> real)
    requires UsedIsAccepted(f) && e.right < MAX_YEARS && pdf(0.0, e.sigma) != 0.0
    ensures UsedIsAccepted(FitStep(f, e, pdf))
  {
    if Free(f.used, e.left, e.right) {
      var next := FitStep(f, e, pdf);
      assert next.used == Mark(f.used, e.left, e.right + 1) && next.accepted == f.accepted + [e];
      forall y: nat | y < MAX_YEARS
        ensures next.used[y] <==> CoveredBy(next.accepted, y)
      {
        CoveredByAppend(f.accepted, e, y);
      }
    }
  }

  lemma FitStepKeepsDisjoint(f: Fit, e: GaussianEntry, pdf: (real, real) -> real)
    requires UsedIsAccepted(f) && Disjoint(f.accepted) && e.right < MAX_YEARS && pdf(0.0, e.sigma) != 0.0
    ensures Disjoint(FitStep(f, e, pdf).accepted)
  {
    if Free(f.used, e.left, e.right) {
      var acc := f.accepted + [e];
      assert FitStep(f, e, pdf).accepted == acc;
      forall i, j, y: nat | 0 <= i < j < |acc| && Covers(acc[i], y)
        ensures !Covers(acc[j], y)
      {
        if j == |acc| - 1 {
          assert acc[i] in f.accepted && CoveredBy(f.accepted, y);
          assert y <= e.right ==> f.used[y];
        } else {
          assert acc[i] == f.accepted[i] && acc[j] == f.accepted[j];
        }
      }
    }
  }

  lemma FitStepKeepsCountsPainted(f: Fit, e: GaussianEntry, counts: seq<int>, pdf: (real, real) -> real)
    requires UsedIsAccepted(f) && CountsPainted(f, counts, pdf) && |counts| == MAX_YEARS
    requires e.right < MAX_YEARS && pdf(0.0, e.sigma) != 0.0
    ensures CountsPainted(FitStep(f, e, pdf), counts, pdf)
  {
    if Free(f.used, e.left, e.right) {
      var next := FitStep(f, e, pdf);
      assert next.counts == Paint(f.counts, e, e.left, e.right + 1, pdf) && next.accepted == f.accepted + [e];
      forall y | 0 <= y < |counts|
        ensures if CoveredBy(next.accepted, y) then
                  exists a <- next.accepted :: Covers(a, y) && pdf(0.0, a.sigma) != 0.0
                                               && next.counts[y] == YearValue(a, y, pdf)
                else next.counts[y] == counts[y]
      {
        CoveredByAppend(f.accepted, e, y);
        if Covers(e, y) {
          assert e in next.accepted;
        } else if CoveredBy(f.accepted, y) {
          var a :| a in f.accepted && Covers(a, y) && pdf(0.0, a.sigma) != 0.0 && f.counts[y] == YearValue(a, y, pdf);
          assert a in next.accepted;
        }
      }
    }
  }

  /** The selection's invariants after every prefix of the candidates: used
      years are covered years, accepted windows are pairwise disjoint, and
      the counts are painted by the accepted windows over the caller's. */
  lemma {:induction false} FittedInvariants(gs: seq<GaussianEntry>, n: nat, counts: seq<int>, pdf: (real, real) -> real)
    requires n <= |gs| && InRange(gs) && PeakNonZero(pdf) && |counts| == MAX_YEARS
    ensures UsedIsAccepted(Fitted(gs, n, counts, pdf))
    ensures Disjoint(Fitted(gs, n, counts, pdf).accepted)
    ensures CountsPainted(Fitted(gs, n, counts, pdf), counts, pdf)
  {
    if n > 0 {
      FittedInvariants(gs, n - 1, counts, pdf);
      var f, e := Fitted(gs, n - 1, counts, pdf), gs[n - 1];
      assert e in gs;
      FitStepKeepsUsedIsAccepted(f, e, pdf);
      FitStepKeepsDisjoint(f, e, pdf);
      FitStepKeepsCountsPainted(f, e, counts, pdf);
    }
  }

  /** The greedy choice: the n-th candidate is accepted exactly when none of
      its years is covered by a window accepted before it. */
  lemma FittedAcceptsFree(gs: seq<GaussianEntry>, n: nat, counts: seq<int>, pdf: (real, real) -> real)
    requires n < |gs| && InRange(gs) && PeakNonZero(pdf) && |counts| == MAX_YEARS
    ensures Fitted(gs, n + 1, counts, pdf).accepted
              == if forall y: nat :: Covers(gs[n], y) ==> !CoveredBy(Fitted(gs, n, counts, pdf).accepted, y)
                 then Fitted(gs, n, counts, pdf).accepted + [gs[n]]
                 else Fitted(gs, n, counts, pdf).accepted
  {
    FittedInvariants(gs, n, counts, pdf);
    var prev, e := Fitted(gs, n, counts, pdf), gs[n];
    assert e in gs;
    if !Free(prev.used, e.left, e.right) {
      var y: nat :| e.left <= y <= e.right && prev.used[y];
      assert Covers(e, y);
    }
  }

  // ---------------------------------------------------------------------
  // The imperative code

  /** The marking loop of one accepted window: marks its years as used and
      writes their counts. */
  method PaintYears(used: array<bool>, counts: array<int>, e: GaussianEntry, pdf: (real, real) -> real)
    requires used.Length == counts.Length && e.right < used.Length && pdf(0.0, e.sigma) != 0.0
    modifies used, counts
    ensures used[..] == Mark(old(used[..]), e.left, e.right + 1)
    ensures counts[..] == Paint(old(counts[..]), e, e.left, e.right + 1, pdf)
  {
    ghost var usedBefore, countsBefore := used[..], counts[..];
    var maxProbability := pdf(0.0, e.sigma);
    var increase := CappedIncrease(e.increase);
    var count := Trunc(10.0 * increase);
    if count > 10 {
      count := 10;
    }
    var ratio := PeakRatio(count, maxProbability);
    assert ratio == PeakRatio(CappedCount(e), pdf(0.0, e.sigma));
    var i: nat := e.left;
    while i <= e.right
      invariant e.left <= i && (i <= e.right + 1 || i == e.left)
      invariant used[..] == Mark(usedBefore, e.left, i)
      invariant counts[..] == Paint(countsBefore, e, e.left, i, pdf)
    {
      MarkNext(usedBefore, e.left, i);
      PaintNext(countsBefore, e, e.left, i, pdf);
      var value := Scaled(ratio, pdf(i as real - e.mean, e.sigma));
      assert value == YearValue(e, i, pdf);
      used[i] := true;
      counts[i] := value;
      i := i + 1;
    }
  }

  /** The selection loop of `fit_gaussians` over the sorted candidates. */
  method SelectWindows(gaussians: seq<GaussianEntry>, counts: array<int>, pdf: (real, real) -> real)
    requires InRange(gaussians) && PeakNonZero(pdf) && counts.Length == MAX_YEARS
    modifies counts
    ensures counts[..] == Fitted(gaussians, |gaussians|, old(counts[..]), pdf).counts
  {
    ghost var before := counts[..];
    var used := new bool[MAX_YEARS](_ => false);
    assert used[..] == seq(MAX_YEARS, _ => false);
    ghost var accepted: seq<GaussianEntry> := [];
    var n := 0;
    while n < |gaussians|
      invariant n <= |gaussians|
      invariant Fitted(gaussians, n, before, pdf) == Fit(used[..], counts[..], accepted)
    {
      var e := gaussians[n];
      assert e in gaussians;
      ghost var f := Fit(used[..], counts[..], accepted);
      var valid := ScanFree(used, e.left, e.right);
      if valid {
        PaintYears(used, counts, e, pdf);
        accepted := accepted + [e];
      }
      assert Fit(used[..], counts[..], accepted) == FitStep(f, e, pdf);
      n := n + 1;
    }
  }

  /** Every window the scan finds ends below `sup`, for either span. */
  lemma CandidatesInRange(s: seq<real>, inf: nat, sup: nat, span: nat, sqrt: real -> real, pdf: (real, real) -> real)
    requires sup <= MAX_YEARS
    ensures InRange(AllCandidates(s, inf, sup, span, sqrt, pdf))
    ensures InRange(Sort(AllCandidates(s, inf, sup, span, sqrt, pdf), Less))
  {
    WindowCandidatesLabelled(s, sqrt, pdf);
    CandidatesWindows(WindowCandidates(s, sqrt, pdf), inf, if inf < sup then sup else inf, sup, span);
    var found := AllCandidates(s, inf, sup, span, sqrt, pdf);
    forall e <- Sort(found, Less)
      ensures e.right < MAX_YEARS
    {
      assert e in multiset(Sort(found, Less));
    }
  }

  /** The sorted candidates `fit_gaussians` walks. */
  function FitCandidates(s: seq<real>, inf: nat, sup: nat, sqrt: real -> real, pdf: (real, real) -> real)
    : seq<GaussianEntry>
  {
    Sort(AllCandidates(s, inf, sup, RELEVANCE_SPAN, sqrt, pdf), Less)
  }

  /** `fit_gaussians(series, inf, sup, counts)`: scan, sort, select. */
  method FitGaussians(series: array<real>, ps: array2<real>, inf: nat, sup: nat, counts: array<int>,
                      sqrt: real -> real, pdf: (real, real) -> real)
    requires series.Length == MAX_YEARS && sup <= MAX_YEARS && counts.Length == MAX_YEARS
    requires ps.Length0 == MAX_YEARS + 1 && ps.Length1 == NUM_MOMENTS && PrefixTable(ps, PowerColumns())
    requires PeakNonZero(pdf)
    modifies counts
    ensures InRange(FitCandidates(old(series[..]), inf, sup, sqrt, pdf))
    ensures counts[..] == Fitted(FitCandidates(old(series[..]), inf, sup, sqrt, pdf),
                                 |FitCandidates(old(series[..]), inf, sup, sqrt, pdf)|, old(counts[..]), pdf).counts
  {
    var gaussians := SortedCandidates(series, ps, inf, sup, RELEVANCE_SPAN, sqrt, pdf);
    CandidatesInRange(series[..], inf, sup, RELEVANCE_SPAN, sqrt, pdf);
    SelectWindows(gaussians, counts, pdf);
  }

  /** The row of counts `gaussian_model_series_to_csv` emits: zeros painted
      by `fit_gaussians(series, 2, MAX_YEARS - 2, counts)`. */
  method GaussianModelRow(series: array<real>, ps: array2<real>, sqrt: real -> real, pdf: (real, real) -> real)
    returns (row: seq<int>)
    requires series.Length == MAX_YEARS && ps.Length0 == MAX_YEARS + 1 && ps.Length1 == NUM_MOMENTS
    requires PrefixTable(ps, PowerColumns()) && PeakNonZero(pdf)
    ensures InRange(FitCandidates(series[..], 2, MAX_YEARS - 2, sqrt, pdf))
    ensures row == Fitted(FitCandidates(series[..], 2, MAX_YEARS - 2, sqrt, pdf),
                          |FitCandidates(series[..], 2, MAX_YEARS - 2, sqrt, pdf)|, seq(MAX_YEARS, _ => 0), pdf).counts
  {
    var counts := new int[MAX_YEARS](_ => 0);
    assert counts[..] == seq(MAX_YEARS, _ => 0);
    FitGaussians(series, ps, 2, MAX_YEARS - 2, counts, sqrt, pdf);
    row := counts[..];
  }

  /** What the emitted row means: the accepted windows are pairwise
      disjoint, and each year holds the value of the accepted window that
      covers it, or 0. */
  lemma GaussianModelRowMeaning(s: seq<real>, sqrt: real -> real, pdf: (real, real) -> real)
    requires PeakNonZero(pdf)
    ensures InRange(FitCandidates(s, 2, MAX_YEARS - 2, sqrt, pdf))
    ensures var gs := FitCandidates(s, 2, MAX_YEARS - 2, sqrt, pdf);
            var f := Fitted(gs, |gs|, seq(MAX_YEARS, _ => 0), pdf);
            Disjoint(f.accepted) && CountsPainted(f, seq(MAX_YEARS, _ => 0), pdf)
  {
    CandidatesInRange(s, 2, MAX_YEARS - 2, RELEVANCE_SPAN, sqrt, pdf);
    var gs := FitCandidates(s, 2, MAX_YEARS - 2, sqrt, pdf);
    FittedInvariants(gs, |gs|, seq(MAX_YEARS, _ => 0), pdf);
  }
}
