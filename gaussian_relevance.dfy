/** The second half of the Gaussian event detector (`relevant_gaussians` in
    `gaussian_finder.cpp`): walking the sorted candidates, each candidate
    whose year range does not overlap an already accepted one is accepted,
    its years are marked as used, and a count is given to each of its years.
    The Gaussian density is a parameter. */
module GaussianRelevance {
  import opened GaussianModel
  import opened GaussianFinder

  /** A `(year, count)` pair of `relevant_counts`. */
  type YearCount = (nat, int)

  /** `(int) x`: truncation toward zero.  The model has no `int` range, so
      values outside it are not undefined here. */
  function Trunc(x: real): int
  {
    if x >= 0.0 then x.Floor else -((-x).Floor)
  }

  /** Truncation drops the fractional part, moving toward zero. */
  lemma TruncTowardZero(x: real)
    ensures x >= 0.0 ==> Trunc(x) as real <= x < Trunc(x) as real + 1.0
    ensures x < 0.0 ==> Trunc(x) as real - 1.0 < x <= Trunc(x) as real
  {
  }

  /** `min(increase, 1.0)`: +inf is capped to 1. */
  function CappedIncrease(increase: Ratio): (c: real)
    ensures c <= 1.0
    ensures increase.Finite? && increase.value <= 1.0 ==> c == increase.value
    ensures (increase.Finite? && increase.value > 1.0) || increase.Infinite? ==> c == 1.0
  {
    match increase
    case Infinite => 1.0
    case Finite(v) => if 1.0 < v then 1.0 else v
  }

  /** `count = (int) (10 * min(increase, 1.0))`. */
  function BaseCount(e: GaussianEntry): int
  {
    Trunc(10.0 * CappedIncrease(e.increase))
  }

  /** The base count is at most 10; it is 10 for an increase of 1 or more,
      and non-negative for a non-negative increase. */
  lemma BaseCountBounds(e: GaussianEntry)
    ensures BaseCount(e) <= 10
    ensures e.increase.Infinite? || e.increase.value >= 1.0 ==> BaseCount(e) == 10
    ensures e.increase.Infinite? || e.increase.value >= 0.0 ==> BaseCount(e) >= 0
  {
    var c := CappedIncrease(e.increase);
    assert 10.0 * c <= 10.0;
    TruncTowardZero(10.0 * c);
  }

  /** With widening, the density must not vanish at the peak (the ratio
      divides by it). */
  predicate PeakDefined(e: GaussianEntry, widening: real, pdf: (real, real) -> real)
  {
    widening != DBL_MAX ==> pdf(0.0, e.sigma) != 0.0
  }

  /** The count given to `year` by an accepted entry: without widening
      (`widening == DBL_MAX`) the base count; otherwise the density of the
      widened Gaussian at the year, scaled so that the peak gets
      `count + .5`, and truncated. */
  function YearCountOf(e: GaussianEntry, year: nat, widening: real, pdf: (real, real) -> real): int
    requires PeakDefined(e, widening, pdf)
  {
    if widening != DBL_MAX then
      Scaled(PeakRatio(BaseCount(e), pdf(0.0, e.sigma)), pdf(year as real - e.mean, WidenedSigma(widening, e.sigma)))
    else BaseCount(e)
  }

  /** `widening * sigma`, the deviation of the widened Gaussian. */
  function WidenedSigma(widening: real, sigma: real): real
  {
    widening * sigma
  }

  /** `ratio = (count + .5) / max_probability`. */
  function PeakRatio(count: int, maxProbability: real): real
    requires maxProbability != 0.0
  {
    (count as real + 0.5) / maxProbability
  }

  /** `(int) (ratio * sample)`. */
  function Scaled(ratio: real, sample: real): int
  {
    Trunc(ratio * sample)
  }

  lemma CountsOfYear(e: GaussianEntry, year: nat, widening: real, pdf: (real, real) -> real)
    requires PeakDefined(e, widening, pdf)
    ensures CountsOf(e, widening, pdf)(year) == YearCountOf(e, year, widening, pdf)
  {
  }

  /** The pairs pushed for the years [lo, hi) when year y gets count(y):
      the years whose count is positive, in increasing order. */
  function Pushed(count: nat -> int, lo: nat, hi: nat): seq<YearCount>
    decreases hi - lo
  {
    if hi <= lo then []
    else Pushed(count, lo, hi - 1) + (if count(hi - 1) > 0 then [(hi - 1, count(hi - 1))] else [])
  }

  /** The counts an accepted entry gives its years. */
  function CountsOf(e: GaussianEntry, widening: real, pdf: (real, real) -> real): nat -> int
    requires PeakDefined(e, widening, pdf)
  {
    (y: nat) => YearCountOf(e, y, widening, pdf)
  }

  lemma PushedNext(count: nat -> int, lo: nat, hi: nat)
    requires lo <= hi
    ensures Pushed(count, lo, hi + 1)
            == Pushed(count, lo, hi) + (if count(hi) > 0 then [(hi, count(hi))] else [])
  {
  }

  /** Every pair pushed has a year in [lo, hi) and that year's positive
      count. */
  lemma {:induction false} PushedCounts(count: nat -> int, lo: nat, hi: nat)
    ensures forall p <- Pushed(count, lo, hi) :: lo <= p.0 < hi && p.1 > 0 && p.1 == count(p.0)
    decreases hi - lo
  {
    if lo < hi {
      PushedCounts(count, lo, hi - 1);
    }
  }

  /** The years of `counts` are strictly increasing. */
  ghost predicate IncreasingYears(counts: seq<YearCount>)
  {
    forall i, j :: 0 <= i < j < |counts| ==> counts[i].0 < counts[j].0
  }

  /** The years pushed are strictly increasing. */
  lemma {:induction false} PushedIncreasing(count: nat -> int, lo: nat, hi: nat)
    ensures IncreasingYears(Pushed(count, lo, hi))
    decreases hi - lo
  {
    if lo < hi {
      PushedIncreasing(count, lo, hi - 1);
      PushedCounts(count, lo, hi - 1);
      var a := Pushed(count, lo, hi - 1);
      var b: seq<YearCount> := if count(hi - 1) > 0 then [(hi - 1, count(hi - 1))] else [];
      var r := a + b;
      forall i, j | 0 <= i < j < |r|
        ensures r[i].0 < r[j].0
      {
        if j >= |a| {
          assert r[j] == b[0] && r[i] == a[i] && a[i] in a;
        } else {
          assert r[i] == a[i] && r[j] == a[j];
        }
      }
    }
  }

  /** Every year of [lo, hi) with a positive count is pushed. */
  lemma {:induction false} PushedComplete(count: nat -> int, lo: nat, hi: nat)
    ensures forall y: nat :: lo <= y < hi && count(y) > 0 ==> (y, count(y)) in Pushed(count, lo, hi)
    decreases hi - lo
  {
    if lo < hi {
      PushedComplete(count, lo, hi - 1);
    }
  }

  /** The year range [left, right] holds no used year. */
  predicate Free(used: seq<bool>, left: nat, right: nat)
    requires right < |used|
  {
    forall i :: left <= i <= right ==> !used[i]
  }

  /** `used[i] = true` for i in [lo, hi). */
  function Mark(used: seq<bool>, lo: nat, hi: nat): (r: seq<bool>)
    ensures |r| == |used|
    ensures forall i :: 0 <= i < |used| ==> r[i] == (used[i] || lo <= i < hi)
  {
    seq(|used|, i requires 0 <= i < |used| => used[i] || lo <= i < hi)
  }

  /** Marking one more year extends the marked range by that year. */
  lemma MarkNext(used: seq<bool>, lo: nat, hi: nat)
    requires lo <= hi < |used|
    ensures Mark(used, lo, hi + 1) == Mark(used, lo, hi)[hi := true]
  {
  }

  /** The year `y` lies in the range of `e`. */
  predicate Covers(e: GaussianEntry, y: nat)
  {
    e.left <= y <= e.right
  }

  /** The state of `relevant_gaussians` after a prefix of the candidates: the
      used years, the pairs pushed, and (for the proofs) the accepted
      candidates. */
  datatype Selection = Selection(used: seq<bool>, counts: seq<YearCount>, accepted: seq<GaussianEntry>)

  /** What `relevant_gaussians` requires of its candidates: their ranges lie
      inside the bitset of MAX_YEARS years, and the peak density is defined
      when it is used. */
  predicate Admissible(gs: seq<GaussianEntry>, widening: real, pdf: (real, real) -> real)
  {
    forall e <- gs :: e.right < MAX_YEARS && PeakDefined(e, widening, pdf)
  }

  /** One candidate: accepted if its years are all free. */
  function Step(sel: Selection, e: GaussianEntry, widening: real, pdf: (real, real) -> real): Selection
    requires |sel.used| == MAX_YEARS && e.right < MAX_YEARS && PeakDefined(e, widening, pdf)
  {
    if Free(sel.used, e.left, e.right) then
      Selection(Mark(sel.used, e.left, e.right + 1),
                sel.counts + Pushed(CountsOf(e, widening, pdf), e.left, e.right + 1),
                sel.accepted + [e])
    else sel
  }

  /** The state after the first n candidates, starting with no used year. */
  function Relevant(gs: seq<GaussianEntry>, n: nat, widening: real, pdf: (real, real) -> real): (sel: Selection)
    requires n <= |gs| && Admissible(gs, widening, pdf)
    ensures |sel.used| == MAX_YEARS
  {
    if n == 0 then Selection(seq(MAX_YEARS, _ => false), [], [])
    else Step(Relevant(gs, n - 1, widening, pdf), gs[n - 1], widening, pdf)
  }

  /** Some candidate of `acc` covers the year `y`. */
  ghost predicate CoveredBy(acc: seq<GaussianEntry>, y: nat)
  {
    exists a <- acc :: Covers(a, y)
  }

  lemma CoveredByAppend(acc: seq<GaussianEntry>, e: GaussianEntry, y: nat)
    ensures CoveredBy(acc + [e], y) <==> CoveredBy(acc, y) || Covers(e, y)
  {
    if CoveredBy(acc + [e], y) {
      var a :| a in acc + [e] && Covers(a, y);
      if a != e {
        assert a in acc;
      }
    }
    if CoveredBy(acc, y) {
      var a :| a in acc && Covers(a, y);
      assert a in acc + [e];
    }
    if Covers(e, y) {
      assert e in acc + [e];
    }
  }

  /** The used years are those the accepted candidates cover. */
  ghost predicate UsedMeansCovered(sel: Selection)
  {
    |sel.used| == MAX_YEARS && forall y: nat :: y < MAX_YEARS ==> (sel.used[y] <==> CoveredBy(sel.accepted, y))
  }

  lemma StepKeepsUsedMeansCovered(sel: Selection, e: GaussianEntry, widening: real, pdf: (real, real) -> real)
    requires UsedMeansCovered(sel) && e.right < MAX_YEARS && PeakDefined(e, widening, pdf)
    ensures UsedMeansCovered(Step(sel, e, widening, pdf))
  {
    if Free(sel.used, e.left, e.right) {
      var next := Step(sel, e, widening, pdf);
      assert next.used == Mark(sel.used, e.left, e.right + 1) && next.accepted == sel.accepted + [e];
      forall y: nat | y < MAX_YEARS
        ensures next.used[y] <==> CoveredBy(next.accepted, y)
      {
        CoveredByAppend(sel.accepted, e, y);
      }
    }
  }

  /** A year is used exactly when an accepted candidate covers it. */
  lemma {:induction false} UsedIsCovered(gs: seq<GaussianEntry>, n: nat, widening: real, pdf: (real, real) -> real)
    requires n <= |gs| && Admissible(gs, widening, pdf)
    ensures UsedMeansCovered(Relevant(gs, n, widening, pdf))
  {
    if n > 0 {
      UsedIsCovered(gs, n - 1, widening, pdf);
      assert gs[n - 1] in gs;
      StepKeepsUsedMeansCovered(Relevant(gs, n - 1, widening, pdf), gs[n - 1], widening, pdf);
    }
  }

  /** The greedy choice: the n-th candidate is accepted exactly when no year
      of its range is covered by a candidate accepted before it. */
  lemma AcceptedIffDisjoint(gs: seq<GaussianEntry>, n: nat, widening: real, pdf: (real, real) -> real)
    requires n < |gs| && Admissible(gs, widening, pdf)
    ensures Relevant(gs, n + 1, widening, pdf).accepted
              == if forall y: nat :: Covers(gs[n], y) ==> !CoveredBy(Relevant(gs, n, widening, pdf).accepted, y)
                 then Relevant(gs, n, widening, pdf).accepted + [gs[n]]
                 else Relevant(gs, n, widening, pdf).accepted
  {
    UsedIsCovered(gs, n, widening, pdf);
    var prev, e := Relevant(gs, n, widening, pdf), gs[n];
    assert e in gs;
    if !Free(prev.used, e.left, e.right) {
      var y: nat :| e.left <= y <= e.right && prev.used[y];
      assert Covers(e, y);
    }
  }

  /** No year is covered by two accepted candidates. */
  ghost predicate Disjoint(acc: seq<GaussianEntry>)
  {
    forall i, j, y: nat :: 0 <= i < j < |acc| && Covers(acc[i], y) ==> !Covers(acc[j], y)
  }

  lemma StepKeepsDisjoint(sel: Selection, e: GaussianEntry, widening: real, pdf: (real, real) -> real)
    requires UsedMeansCovered(sel) && Disjoint(sel.accepted) && e.right < MAX_YEARS && PeakDefined(e, widening, pdf)
    ensures Disjoint(Step(sel, e, widening, pdf).accepted)
  {
    if Free(sel.used, e.left, e.right) {
      var acc := sel.accepted + [e];
      assert Step(sel, e, widening, pdf).accepted == acc;
      forall i, j, y: nat | 0 <= i < j < |acc| && Covers(acc[i], y)
        ensures !Covers(acc[j], y)
      {
        if j == |acc| - 1 {
          assert acc[i] in sel.accepted && CoveredBy(sel.accepted, y);
          assert y <= e.right ==> sel.used[y];
        } else {
          assert acc[i] == sel.accepted[i] && acc[j] == sel.accepted[j];
        }
      }
    }
  }

  /** The ranges of the accepted candidates never overlap. */
  lemma {:induction false} AcceptedDisjoint(gs: seq<GaussianEntry>, n: nat, widening: real, pdf: (real, real) -> real)
    requires n <= |gs| && Admissible(gs, widening, pdf)
    ensures Disjoint(Relevant(gs, n, widening, pdf).accepted)
  {
    if n > 0 {
      AcceptedDisjoint(gs, n - 1, widening, pdf);
      UsedIsCovered(gs, n - 1, widening, pdf);
      assert gs[n - 1] in gs;
      StepKeepsDisjoint(Relevant(gs, n - 1, widening, pdf), gs[n - 1], widening, pdf);
    }
  }

  /** Every pair pushed is for a used year. */
  ghost predicate CountsUsed(sel: Selection)
  {
    forall p <- sel.counts :: p.0 < |sel.used| && sel.used[p.0]
  }

  /** Every pair pushed has a positive count, and that count is what an
      accepted candidate covering the year gives it. */
  ghost predicate CountsExplained(sel: Selection, widening: real, pdf: (real, real) -> real)
  {
    forall p <- sel.counts ::
      && p.1 > 0
      && exists a <- sel.accepted :: Covers(a, p.0) && PeakDefined(a, widening, pdf)
                                     && p.1 == YearCountOf(a, p.0, widening, pdf)
  }

  /** No year is pushed twice. */
  ghost predicate DistinctYears(counts: seq<YearCount>)
  {
    forall i, j :: 0 <= i < j < |counts| ==> counts[i].0 != counts[j].0
  }

  lemma StepKeepsCountsUsed(sel: Selection, e: GaussianEntry, widening: real, pdf: (real, real) -> real)
    requires |sel.used| == MAX_YEARS && CountsUsed(sel)
    requires e.right < MAX_YEARS && PeakDefined(e, widening, pdf)
    ensures CountsUsed(Step(sel, e, widening, pdf))
  {
    if Free(sel.used, e.left, e.right) {
      var next := Step(sel, e, widening, pdf);
      var added := Pushed(CountsOf(e, widening, pdf), e.left, e.right + 1);
      PushedCounts(CountsOf(e, widening, pdf), e.left, e.right + 1);
      assert next.counts == sel.counts + added;
      assert next.used == Mark(sel.used, e.left, e.right + 1);
      forall p <- next.counts
        ensures p.0 < |next.used| && next.used[p.0]
      {
        if p !in sel.counts {
          assert p in added;
        }
      }
    }
  }

  lemma StepKeepsCountsExplained(sel: Selection, e: GaussianEntry, widening: real, pdf: (real, real) -> real)
    requires |sel.used| == MAX_YEARS && CountsExplained(sel, widening, pdf)
    requires e.right < MAX_YEARS && PeakDefined(e, widening, pdf)
    ensures CountsExplained(Step(sel, e, widening, pdf), widening, pdf)
  {
    if Free(sel.used, e.left, e.right) {
      var next := Step(sel, e, widening, pdf);
      var added := Pushed(CountsOf(e, widening, pdf), e.left, e.right + 1);
      PushedCounts(CountsOf(e, widening, pdf), e.left, e.right + 1);
      assert next.counts == sel.counts + added && next.accepted == sel.accepted + [e];
      forall p <- next.counts
        ensures p.1 > 0
        ensures exists a <- next.accepted :: Covers(a, p.0) && PeakDefined(a, widening, pdf)
                                             && p.1 == YearCountOf(a, p.0, widening, pdf)
      {
        if p in sel.counts {
          var a :| a in sel.accepted && Covers(a, p.0) && PeakDefined(a, widening, pdf)
                   && p.1 == YearCountOf(a, p.0, widening, pdf);
          assert a in next.accepted;
        } else {
          assert p in added;
          assert Covers(e, p.0) && e in next.accepted;
        }
      }
    }
  }

  /** Appending pairs for unused years, in increasing order, to pairs for
      used years keeps the years distinct. */
  lemma DistinctAppend(a: seq<YearCount>, b: seq<YearCount>, used: seq<bool>)
    requires DistinctYears(a) && IncreasingYears(b)
    requires forall p <- a :: p.0 < |used| && used[p.0]
    requires forall p <- b :: p.0 < |used| && !used[p.0]
    ensures DistinctYears(a + b)
  {
    var r := a + b;
    forall i, j | 0 <= i < j < |r|
      ensures r[i].0 != r[j].0
    {
      if j < |a| {
        assert r[i] == a[i] && r[j] == a[j];
      } else if i < |a| {
        assert r[i] == a[i] && a[i] in a;
        assert r[j] == b[j - |a|] && b[j - |a|] in b;
      } else {
        assert r[i] == b[i - |a|] && r[j] == b[j - |a|];
      }
    }
  }

  lemma StepKeepsDistinctYears(sel: Selection, e: GaussianEntry, widening: real, pdf: (real, real) -> real)
    requires |sel.used| == MAX_YEARS && CountsUsed(sel) && DistinctYears(sel.counts)
    requires e.right < MAX_YEARS && PeakDefined(e, widening, pdf)
    ensures DistinctYears(Step(sel, e, widening, pdf).counts)
  {
    if Free(sel.used, e.left, e.right) {
      var added := Pushed(CountsOf(e, widening, pdf), e.left, e.right + 1);
      PushedCounts(CountsOf(e, widening, pdf), e.left, e.right + 1);
      PushedIncreasing(CountsOf(e, widening, pdf), e.left, e.right + 1);
      DistinctAppend(sel.counts, added, sel.used);
      assert Step(sel, e, widening, pdf).counts == sel.counts + added;
    }
  }

  /** The pairs pushed: every count is positive and belongs to a used year,
      each year is pushed at most once, and each count is what the accepted
      candidate covering that year gives it. */
  lemma {:induction false} CountsMeaning(gs: seq<GaussianEntry>, n: nat, widening: real, pdf: (real, real) -> real)
    requires n <= |gs| && Admissible(gs, widening, pdf)
    ensures CountsUsed(Relevant(gs, n, widening, pdf))
    ensures CountsExplained(Relevant(gs, n, widening, pdf), widening, pdf)
    ensures DistinctYears(Relevant(gs, n, widening, pdf).counts)
  {
    if n > 0 {
      CountsMeaning(gs, n - 1, widening, pdf);
      assert gs[n - 1] in gs;
      StepKeepsCountsUsed(Relevant(gs, n - 1, widening, pdf), gs[n - 1], widening, pdf);
      StepKeepsDistinctYears(Relevant(gs, n - 1, widening, pdf), gs[n - 1], widening, pdf);
      StepKeepsCountsExplained(Relevant(gs, n - 1, widening, pdf), gs[n - 1], widening, pdf);
    }
  }

  /** Without widening, every count is the candidate's base count, between
      1 and 10. */
  lemma {:induction false} UnwidenedCounts(gs: seq<GaussianEntry>, n: nat, pdf: (real, real) -> real)
    requires n <= |gs| && Admissible(gs, DBL_MAX, pdf)
    ensures forall p <- Relevant(gs, n, DBL_MAX, pdf).counts :: 0 < p.1 <= 10
  {
    CountsMeaning(gs, n, DBL_MAX, pdf);
    var sel := Relevant(gs, n, DBL_MAX, pdf);
    forall p <- sel.counts
      ensures 0 < p.1 <= 10
    {
      var a :| a in sel.accepted && Covers(a, p.0) && PeakDefined(a, DBL_MAX, pdf)
               && p.1 == YearCountOf(a, p.0, DBL_MAX, pdf);
      BaseCountBounds(a);
    }
  }

  // ---------------------------------------------------------------------
  // The imperative code

  /** The validity scan: whether the years [left, right] are all free; it
      stops at the first used year. */
  method ScanFree(used: array<bool>, left: nat, right: nat) returns (valid: bool)
    requires right < used.Length
    ensures valid == Free(used[..], left, right)
  {
    valid := true;
    var i := left;
    while i <= right
      invariant left <= i && (i <= right + 1 || i == left)
      invariant forall k :: left <= k < i ==> !used[k]
    {
      if used[i] {
        valid := false;
        break;
      }
      i := i + 1;
    }
  }

  /** The count of one year inside the marking loop, from the candidate's
      base count and peak density. */
  method CountYear(e: GaussianEntry, year: nat, count: int, maxProbability: real, widening: real,
                   pdf: (real, real) -> real) returns (entryCount: int)
    requires PeakDefined(e, widening, pdf)
    requires count == BaseCount(e) && maxProbability == pdf(0.0, e.sigma)
    ensures entryCount == YearCountOf(e, year, widening, pdf)
  {
    if widening != DBL_MAX {
      var ratio := PeakRatio(count, maxProbability);
      var sample := pdf(year as real - e.mean, WidenedSigma(widening, e.sigma));
      entryCount := Scaled(ratio, sample);
    } else {
      entryCount := count;
    }
  }

  /** The marking loop of one accepted candidate: marks its years as used
      and returns the pairs it pushes. */
  method MarkYears(used: array<bool>, e: GaussianEntry, widening: real, pdf: (real, real) -> real)
    returns (pushed: seq<YearCount>)
    requires e.right < used.Length && PeakDefined(e, widening, pdf)
    modifies used
    ensures used[..] == Mark(old(used[..]), e.left, e.right + 1)
    ensures pushed == Pushed(CountsOf(e, widening, pdf), e.left, e.right + 1)
  {
    ghost var before := used[..];
    var maxProbability := pdf(0.0, e.sigma);
    var increase := CappedIncrease(e.increase);
    var count := Trunc(10.0 * increase);
    pushed := [];
    var i: nat := e.left;
    while i <= e.right
      invariant e.left <= i && (i <= e.right + 1 || i == e.left)
      invariant used[..] == Mark(before, e.left, i)
      invariant pushed == Pushed(CountsOf(e, widening, pdf), e.left, i)
    {
      MarkNext(before, e.left, i);
      used[i] := true;
      var entryCount := CountYear(e, i, count, maxProbability, widening, pdf);
      CountsOfYear(e, i, widening, pdf);
      PushedNext(CountsOf(e, widening, pdf), e.left, i);
      if entryCount > 0 {
        pushed := pushed + [(i, entryCount)];
      }
      i := i + 1;
    }
  }

  /** `relevant_gaussians(gaussians, relevant_counts, widening)`. */
  method RelevantGaussians(gaussians: seq<GaussianEntry>, widening: real, pdf: (real, real) -> real)
    returns (counts: seq<YearCount>)
    requires Admissible(gaussians, widening, pdf)
    ensures counts == Relevant(gaussians, |gaussians|, widening, pdf).counts
  {
    var used := new bool[MAX_YEARS](_ => false);
    assert used[..] == seq(MAX_YEARS, _ => false);
    counts := [];
    ghost var accepted: seq<GaussianEntry> := [];
    var n := 0;
    while n < |gaussians|
      invariant n <= |gaussians|
      invariant Relevant(gaussians, n, widening, pdf) == Selection(used[..], counts, accepted)
    {
      var e := gaussians[n];
      assert e in gaussians;
      ghost var sel := Selection(used[..], counts, accepted);
      var valid := ScanFree(used, e.left, e.right);
      if valid {
        var pushed := MarkYears(used, e, widening, pdf);
        counts := counts + pushed;
        accepted := accepted + [e];
      }
      assert Selection(used[..], counts, accepted) == Step(sel, e, widening, pdf);
      n := n + 1;
    }
  }
}
