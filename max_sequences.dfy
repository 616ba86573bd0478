/** `compute_max_sequences` (numerical_discrepancy.cpp): the linear-time
    decomposition of a series into positive-scoring intervals.  Intervals are
    kept on a stack; each one carries a back pointer to an earlier interval
    whose left prefix sum is smaller (or the sentinel `n` when none is
    known), and a new interval is merged into that earlier one while doing so
    raises its right prefix sum. */
module MaxSequences {
  import opened Windows

  /** A closed interval [first, second] of positions (`pair<size_t, size_t>`). */
  type Interval = (nat, nat)

  /** `sums` is 0 followed by the prefix sums of `v`. */
  ghost predicate IsPrefixSums(v: seq<real>, sums: seq<real>)
  {
    |sums| == |v| + 1 && forall k :: 0 <= k <= |v| ==> sums[k] == SumRange(v, 0, k)
  }

  /** The difference of two prefix sums is the sum of the window between. */
  lemma PrefixDifference(v: seq<real>, sums: seq<real>, a: nat, b: nat)
    requires IsPrefixSums(v, sums) && a <= b <= |v|
    ensures sums[b] - sums[a] == SumRange(v, a, b)
  {
    SumRangeSplit(v, 0, a, b);
  }

  /** A window of strictly positive values has a positive sum. */
  lemma {:induction false} SumRangePositive(v: seq<real>, lo: nat, hi: nat)
    requires lo < hi <= |v|
    requires forall k :: lo <= k < hi ==> v[k] > 0.0
    ensures SumRange(v, lo, hi) > 0.0
    decreases hi - lo
  {
    if lo + 1 < hi {
      SumRangePositive(v, lo, hi - 1);
    }
  }

  /** `a` starts a run of positive values. */
  predicate RunStart(v: seq<real>, a: nat)
  {
    a < |v| && v[a] > 0.0 && (a == 0 || v[a - 1] <= 0.0)
  }

  /** `b` ends a run of positive values. */
  predicate RunEnd(v: seq<real>, b: nat)
  {
    b < |v| && v[b] > 0.0 && (b + 1 == |v| || v[b + 1] <= 0.0)
  }

  /** An interval of the decomposition: it begins where a positive run
      begins, ends where one ends, and its total is positive. */
  predicate Scoring(v: seq<real>, sums: seq<real>, iv: Interval)
    requires |sums| == |v| + 1
  {
    iv.0 <= iv.1 && RunStart(v, iv.0) && RunEnd(v, iv.1) && sums[iv.0] < sums[iv.1 + 1]
  }

  /** Each interval ends before the next one begins. */
  ghost predicate Ordered(idx: seq<Interval>)
  {
    forall k, l :: 0 <= k < l < |idx| ==> idx[k].1 < idx[l].0
  }

  /** The stack of intervals: every one scoring, in increasing order. */
  ghost predicate Decomposition(v: seq<real>, sums: seq<real>, idx: seq<Interval>)
    requires |sums| == |v| + 1
  {
    (forall k :: 0 <= k < |idx| ==> Scoring(v, sums, idx[k])) && Ordered(idx)
  }

  /** Position p lies inside one of the intervals (checked from the top of
      the stack down; `CoveredAt` and `CoveredWitness` give the reading
      "some interval contains p"). */
  ghost predicate Covered(idx: seq<Interval>, p: nat)
    decreases |idx|
  {
    |idx| > 0 && ((idx[|idx| - 1].0 <= p <= idx[|idx| - 1].1) || Covered(idx[..|idx| - 1], p))
  }

  /** A position inside interval k is covered. */
  lemma {:induction false} CoveredAt(idx: seq<Interval>, k: nat, p: nat)
    requires k < |idx| && idx[k].0 <= p <= idx[k].1
    ensures Covered(idx, p)
    decreases |idx|
  {
    if k < |idx| - 1 {
      CoveredAt(idx[..|idx| - 1], k, p);
    }
  }

  /** A covered position lies inside some interval. */
  lemma {:induction false} CoveredWitness(idx: seq<Interval>, p: nat) returns (k: nat)
    requires Covered(idx, p)
    ensures k < |idx| && idx[k].0 <= p <= idx[k].1
    decreases |idx|
  {
    if idx[|idx| - 1].0 <= p <= idx[|idx| - 1].1 {
      k := |idx| - 1;
    } else {
      k := CoveredWitness(idx[..|idx| - 1], p);
    }
  }

  /** One back pointer per interval, each the sentinel `n` or an earlier
      position. */
  ghost predicate BackPointers(back: seq<nat>, size: nat, n: nat)
  {
    |back| == size && forall k :: 0 <= k < size ==> back[k] == n || back[k] < k
  }

  /** The positions visited from `j` by following back pointers. */
  ghost function Chain(back: seq<nat>, j: nat, n: nat): seq<nat>
    requires BackPointers(back, |back|, n)
    requires j == n || j < |back|
    decreases if j == n then 0 else j + 1
  {
    if j == n then [] else [j] + Chain(back, back[j], n)
  }

  /** Sums of the left ends of the intervals on a chain that are below `left`. */
  ghost predicate SomeLower(sums: seq<real>, idx: seq<Interval>, chain: seq<nat>, left: real)
    requires forall k :: 0 <= k < |idx| ==> idx[k].0 < |sums|
  {
    exists k <- chain :: k < |idx| && sums[idx[k].0] < left
  }

  /** A chain holds only real positions. */
  lemma {:induction false} ChainInRange(back: seq<nat>, j: nat, n: nat)
    requires BackPointers(back, |back|, n) && |back| <= n
    requires j == n || j < |back|
    ensures forall k <- Chain(back, j, n) :: k <= j && k < |back|
    decreases if j == n then 0 else j + 1
  {
    if j != n {
      ChainInRange(back, back[j], n);
    }
  }

  /** The scan `for (j = indices.size() - 2; j != n; j = back_ptr[j])`: the
      first interval down the chain from the second-to-last one whose left
      prefix sum is below `left`, if there is one. */
  method FindLower(sums: seq<real>, idx: seq<Interval>, back: seq<nat>, n: nat, left: real)
    returns (found: bool, j: nat)
    requires 2 <= |idx| <= n && BackPointers(back, |idx|, n)
    requires forall k :: 0 <= k < |idx| ==> idx[k].0 < |sums|
    ensures found ==> j < |idx| - 1 && j in Chain(back, |idx| - 2, n) && sums[idx[j].0] < left
    ensures found <==> SomeLower(sums, idx, Chain(back, |idx| - 2, n), left)
    ensures !found ==> j == n
  {
    j := |idx| - 2;
    found := false;
    ghost var start := Chain(back, j, n);
    ChainInRange(back, j, n);
    while j != n
      invariant j == n || j < |idx| - 1
      invariant j == n || j in start
      invariant SomeLower(sums, idx, start, left) <==> SomeLower(sums, idx, Chain(back, j, n), left)
      decreases if j == n then 0 else j + 1
    {
      if sums[idx[j].0] < left {
        found := true;
        return;
      }
      SomeLowerStep(sums, idx, back, j, n, left);
      if back[j] != n {
        ChainStep(back, |idx| - 2, j, n);
      }
      j := back[j];
    }
  }

  /** Down the chain from `j`, a lower interval is `j` itself or one further
      down. */
  lemma SomeLowerStep(sums: seq<real>, idx: seq<Interval>, back: seq<nat>, j: nat, n: nat, left: real)
    requires |idx| <= n && BackPointers(back, |idx|, n) && j < |idx|
    requires forall k :: 0 <= k < |idx| ==> idx[k].0 < |sums|
    requires sums[idx[j].0] >= left
    ensures SomeLower(sums, idx, Chain(back, j, n), left) <==> SomeLower(sums, idx, Chain(back, back[j], n), left)
  {
    assert Chain(back, j, n) == [j] + Chain(back, back[j], n);
  }

  /** A chain that reaches `j` also reaches `j`'s back pointer. */
  lemma {:induction false} ChainStep(back: seq<nat>, s: nat, j: nat, n: nat)
    requires BackPointers(back, |back|, n) && |back| <= n
    requires s == n || s < |back|
    requires j < |back| && back[j] != n && j in Chain(back, s, n)
    ensures back[j] in Chain(back, s, n)
    decreases if s == n then 0 else s + 1
  {
    assert s != n;
    if s != j {
      ChainStep(back, back[s], j, n);
    }
  }

  /** `while (si + 1 < n && v[si + 1] > 0) ++si;`: the run of positive values
      starting at `i` extends to `si`, and `si` ends it. */
  method SeedRun(v: seq<real>, i: nat) returns (si: nat)
    requires i < |v| && v[i] > 0.0
    ensures i <= si && RunEnd(v, si)
    ensures forall k :: i <= k <= si ==> v[k] > 0.0
  {
    si := i;
    while si + 1 < |v| && v[si + 1] > 0.0
      invariant i <= si < |v|
      invariant forall k :: i <= k <= si ==> v[k] > 0.0
    {
      si := si + 1;
    }
  }

  /** The body of `while (true)`: the new interval on top of the stack is
      merged down into the interval its back pointer (or a scan of the chain)
      finds, as long as that interval's right prefix sum is below the top's.
      The result keeps the intervals below the last merge target and replaces
      everything from it up by one interval ending where the top ended. */
  method Settle(ghost v: seq<real>, sums: seq<real>, idx0: seq<Interval>, back0: seq<nat>, infIndex0: nat, n: nat)
    returns (idx: seq<Interval>, back: seq<nat>, infIndex: nat)
    requires n == |v| && IsPrefixSums(v, sums)
    requires 1 <= |idx0| <= n && Decomposition(v, sums, idx0) && BackPointers(back0, |idx0|, n)
    ensures 1 <= |idx| <= |idx0| && Decomposition(v, sums, idx) && BackPointers(back, |idx|, n)
    ensures forall k :: 0 <= k < |idx| - 1 ==> idx[k] == idx0[k]
    ensures idx[|idx| - 1] == (idx0[|idx| - 1].0, idx0[|idx0| - 1].1)
    ensures |idx| < |idx0| ==> sums[idx0[|idx| - 1].1 + 1] < sums[idx0[|idx0| - 1].1 + 1]
  {
    var i := idx0[|idx0| - 1].1;
    idx, back, infIndex := idx0, back0, infIndex0;
    while true
      invariant 1 <= |idx| <= |idx0| && Decomposition(v, sums, idx) && BackPointers(back, |idx|, n)
      invariant forall k :: 0 <= k < |idx| - 1 ==> idx[k] == idx0[k]
      invariant idx[|idx| - 1] == (idx0[|idx| - 1].0, i)
      invariant |idx| < |idx0| ==> sums[idx0[|idx| - 1].1 + 1] < sums[i + 1]
      decreases |idx|
    {
      var top := |idx| - 1;
      var found, j;
      found, j, back, infIndex := MergeTarget(sums, idx, back, infIndex, n);
      if found && sums[idx[j].1 + 1] < sums[idx[top].1 + 1] {
        var merged := idx[..j] + [(idx[j].0, i)];
        MergeStep(v, sums, idx0, idx, back, j, n, merged);
        idx := merged;
        back := back[..j + 1];
      } else {
        break;
      }
    }
  }

  /** The lookup at the head of `while (true)`: the cached back pointer of
      the top interval if it has one, otherwise (when the stack reaches two
      past `inf_index`) the result of the chain scan, which is cached in turn.
      `inf_index` moves to the top when nothing is found. */
  method MergeTarget(sums: seq<real>, idx: seq<Interval>, back0: seq<nat>, infIndex0: nat, n: nat)
    returns (found: bool, j: nat, back: seq<nat>, infIndex: nat)
    requires 1 <= |idx| <= n && BackPointers(back0, |idx|, n)
    requires forall k :: 0 <= k < |idx| ==> idx[k].0 < |sums|
    ensures BackPointers(back, |idx|, n) && back[..|idx| - 1] == back0[..|idx| - 1]
    ensures found ==> j < |idx| - 1 && back[|idx| - 1] == j
    ensures !found ==> back == back0 && infIndex == |idx| - 1
    ensures found ==> infIndex == infIndex0
    ensures found && back0[|idx| - 1] == n ==> sums[idx[j].0] < sums[idx[|idx| - 1].0]
  {
    var top := |idx| - 1;
    var left := sums[idx[top].0];
    back, infIndex := back0, infIndex0;
    j := back[top];
    found := j < n;
    if !found {
      if |idx| >= infIndex + 2 {
        found, j := FindLower(sums, idx, back, n, left);
        if found {
          back := back[top := j];
        }
      }
      if !found {
        infIndex := top;
      }
    }
  }

  /** The state after a merge into `j` keeps the invariant of `Settle`. */
  lemma MergeStep(v: seq<real>, sums: seq<real>, idx0: seq<Interval>, idx: seq<Interval>, back: seq<nat>,
                  j: nat, n: nat, merged: seq<Interval>)
    requires |sums| == |v| + 1 && |idx0| >= 1
    requires 1 <= |idx| <= |idx0| && Decomposition(v, sums, idx) && BackPointers(back, |idx|, n)
    requires forall k :: 0 <= k < |idx| - 1 ==> idx[k] == idx0[k]
    requires idx[|idx| - 1] == (idx0[|idx| - 1].0, idx0[|idx0| - 1].1)
    requires j < |idx| - 1 && sums[idx[j].1 + 1] < sums[idx[|idx| - 1].1 + 1]
    requires merged == idx[..j] + [(idx[j].0, idx0[|idx0| - 1].1)]
    ensures 1 <= |merged| < |idx| && Decomposition(v, sums, merged) && BackPointers(back[..j + 1], |merged|, n)
    ensures forall k :: 0 <= k < |merged| - 1 ==> merged[k] == idx0[k]
    ensures merged[|merged| - 1] == (idx0[|merged| - 1].0, idx0[|idx0| - 1].1)
    ensures sums[idx0[|merged| - 1].1 + 1] < sums[idx0[|idx0| - 1].1 + 1]
  {
    assert idx[j] == idx0[j];
    MergeKeepsDecomposition(v, sums, idx, j);
  }

  /** Merging the top interval down into `j` gives a decomposition. */
  lemma MergeKeepsDecomposition(v: seq<real>, sums: seq<real>, idx: seq<Interval>, j: nat)
    requires |sums| == |v| + 1 && Decomposition(v, sums, idx)
    requires j < |idx| - 1
    requires sums[idx[j].1 + 1] < sums[idx[|idx| - 1].1 + 1]
    ensures Decomposition(v, sums, idx[..j] + [(idx[j].0, idx[|idx| - 1].1)])
  {
    var top := |idx| - 1;
    var r := idx[..j] + [(idx[j].0, idx[top].1)];
    assert idx[j].1 < idx[top].0;
    assert Scoring(v, sums, r[j]);
    forall k, l | 0 <= k < l < |r|
      ensures r[k].1 < r[l].0
    {
      if l == j {
        assert r[k] == idx[k];
      }
    }
  }

  /** `sums.push_back(0)` followed by `sums.push_back(sums.back() + v[i])`
      for every i. */
  method PrefixSums(v: seq<real>) returns (sums: seq<real>)
    ensures IsPrefixSums(v, sums)
  {
    sums := [0.0];
    var i := 0;
    while i < |v|
      invariant i <= |v| && |sums| == i + 1
      invariant forall k :: 0 <= k <= i ==> sums[k] == SumRange(v, 0, k)
    {
      sums := sums + [sums[i] + v[i]];
      i := i + 1;
    }
  }

  /** `compute_max_sequences(v, n, sums, indices)` with empty `sums` and
      `indices` (as every caller passes them): the prefix sums of `v` and an
      increasing sequence of positive-scoring intervals, each running from
      the start of a positive run to the end of one. */
  method ComputeMaxSequences(v: seq<real>) returns (sums: seq<real>, idx: seq<Interval>)
    ensures IsPrefixSums(v, sums)
    ensures Decomposition(v, sums, idx)
    ensures forall p :: 0 <= p < |v| && v[p] > 0.0 ==> Covered(idx, p)
  {
    var n := |v|;
    sums := PrefixSums(v);
    idx := [];
    var back: seq<nat> := [];
    var infIndex: nat := 0;
    var i := 0;
    while i < n
      invariant Progress(v, sums, idx, back, i)
    {
      if v[i] > 0.0 {
        var si;
        idx, back, infIndex, si := PushRun(v, sums, idx, back, infIndex, i);
        i := si + 1;
      } else {
        SkipNonPositive(v, sums, idx, back, i);
        i := i + 1;
      }
    }
  }

  /** The state of the `for` loop of `compute_max_sequences` before position
      `i`: the stack is a decomposition of positions below `i` with one back
      pointer per interval, `i` starts a run whenever it holds a positive
      value, and every positive value before `i` lies inside an interval. */
  ghost predicate Progress(v: seq<real>, sums: seq<real>, idx: seq<Interval>, back: seq<nat>, i: nat)
    requires |sums| == |v| + 1
  {
    i <= |v| && |idx| <= i
    && Decomposition(v, sums, idx) && BackPointers(back, |idx|, |v|)
    && (forall k :: 0 <= k < |idx| ==> idx[k].1 < i)
    && (0 < i < |v| && v[i] > 0.0 ==> v[i - 1] <= 0.0)
    && (forall p :: 0 <= p < i && v[p] > 0.0 ==> Covered(idx, p))
  }

  /** A value that is not positive is stepped over: nothing changes. */
  lemma SkipNonPositive(v: seq<real>, sums: seq<real>, idx: seq<Interval>, back: seq<nat>, i: nat)
    requires |sums| == |v| + 1 && Progress(v, sums, idx, back, i)
    requires i < |v| && v[i] <= 0.0
    ensures Progress(v, sums, idx, back, i + 1)
  {
  }

  /** One pass of the `for` loop that finds a positive value at `i`: the run
      from `i` is pushed as a new interval and the stack settled; `si` is
      the last position of the run, where the loop continues. */
  method PushRun(v: seq<real>, sums: seq<real>, idx0: seq<Interval>, back0: seq<nat>, infIndex0: nat, i: nat)
    returns (idx: seq<Interval>, back: seq<nat>, infIndex: nat, si: nat)
    requires IsPrefixSums(v, sums) && Progress(v, sums, idx0, back0, i)
    requires i < |v| && v[i] > 0.0
    ensures i <= si && RunEnd(v, si) && Progress(v, sums, idx, back, si + 1)
  {
    var n := |v|;
    si := SeedRun(v, i);
    PrefixDifference(v, sums, i, si + 1);
    SumRangePositive(v, i, si + 1);
    PushKeepsDecomposition(v, sums, idx0, (i, si));
    idx, back, infIndex := Settle(v, sums, idx0 + [(i, si)], back0 + [n], infIndex0, n);
    StepCovers(v, sums, idx0, (i, si), idx);
    Rightmost(v, sums, idx);
  }

  /** Pushing an interval keeps every covered position covered and covers
      the interval's own positions. */
  lemma PushCovers(idx: seq<Interval>, iv: Interval)
    ensures forall p :: Covered(idx, p) ==> Covered(idx + [iv], p)
    ensures forall p :: iv.0 <= p <= iv.1 ==> Covered(idx + [iv], p)
  {
    assert (idx + [iv])[..|idx|] == idx;
  }

  /** One step of the main loop: what was covered before position `iv.0`
      stays covered once `iv` is pushed and the stack settled, and so is
      every position of `iv`. */
  lemma StepCovers(v: seq<real>, sums: seq<real>, idx0: seq<Interval>, iv: Interval, idx: seq<Interval>)
    requires |sums| == |v| + 1 && Decomposition(v, sums, idx0 + [iv])
    requires iv.0 <= iv.1 < |v|
    requires forall p :: 0 <= p < iv.0 && v[p] > 0.0 ==> Covered(idx0, p)
    requires 1 <= |idx| <= |idx0 + [iv]|
    requires forall k :: 0 <= k < |idx| - 1 ==> idx[k] == (idx0 + [iv])[k]
    requires idx[|idx| - 1] == ((idx0 + [iv])[|idx| - 1].0, iv.1)
    ensures forall p :: 0 <= p <= iv.1 && v[p] > 0.0 ==> Covered(idx, p)
  {
    PushCovers(idx0, iv);
    SettleCovers(v, sums, idx0 + [iv], idx);
  }

  /** Merging only widens: the intervals `Settle` leaves cover every position
      the stack before it covered, as the merged top runs from the start of
      the lowest interval it absorbs to the end of the highest. */
  lemma SettleCovers(v: seq<real>, sums: seq<real>, idx0: seq<Interval>, idx: seq<Interval>)
    requires |sums| == |v| + 1 && Decomposition(v, sums, idx0)
    requires 1 <= |idx| <= |idx0|
    requires forall k :: 0 <= k < |idx| - 1 ==> idx[k] == idx0[k]
    requires idx[|idx| - 1] == (idx0[|idx| - 1].0, idx0[|idx0| - 1].1)
    ensures forall p :: Covered(idx0, p) ==> Covered(idx, p)
  {
    assert forall k :: 0 <= k < |idx0| ==> idx0[k].0 <= idx0[k].1 by {
      forall k | 0 <= k < |idx0|
        ensures idx0[k].0 <= idx0[k].1
      {
        assert Scoring(v, sums, idx0[k]);
      }
    }
    forall p | Covered(idx0, p)
      ensures Covered(idx, p)
    {
      SettleCoversAt(idx0, idx, p);
    }
  }

  /** `SettleCovers` for one position. */
  lemma SettleCoversAt(idx0: seq<Interval>, idx: seq<Interval>, p: nat)
    requires Ordered(idx0) && forall k :: 0 <= k < |idx0| ==> idx0[k].0 <= idx0[k].1
    requires 1 <= |idx| <= |idx0|
    requires forall k :: 0 <= k < |idx| - 1 ==> idx[k] == idx0[k]
    requires idx[|idx| - 1] == (idx0[|idx| - 1].0, idx0[|idx0| - 1].1)
    requires Covered(idx0, p)
    ensures Covered(idx, p)
  {
    var t, top := |idx| - 1, |idx0| - 1;
    var k := CoveredWitness(idx0, p);
    if k < t {
      CoveredAt(idx, k, p);
    } else {
      if t < k {
        assert idx0[t].1 < idx0[k].0;
      }
      if k < top {
        assert idx0[k].1 < idx0[top].0;
      }
      CoveredAt(idx, t, p);
    }
  }

  /** A scoring interval after all the others can be pushed. */
  lemma PushKeepsDecomposition(v: seq<real>, sums: seq<real>, idx: seq<Interval>, iv: Interval)
    requires |sums| == |v| + 1 && Decomposition(v, sums, idx)
    requires forall k :: 0 <= k < |idx| ==> idx[k].1 < iv.0
    requires Scoring(v, sums, iv)
    ensures Decomposition(v, sums, idx + [iv])
  {
    var r := idx + [iv];
    assert forall k :: 0 <= k < |idx| ==> r[k] == idx[k];
  }

  /** The top interval of a decomposition ends last. */
  lemma Rightmost(v: seq<real>, sums: seq<real>, idx: seq<Interval>)
    requires |sums| == |v| + 1 && Decomposition(v, sums, idx) && |idx| >= 1
    ensures forall k :: 0 <= k < |idx| ==> idx[k].1 <= idx[|idx| - 1].1
  {
    forall k | 0 <= k < |idx| - 1
      ensures idx[k].1 <= idx[|idx| - 1].1
    {
      assert idx[k].1 < idx[|idx| - 1].0;
      assert Scoring(v, sums, idx[|idx| - 1]);
    }
  }

  /** Consecutive intervals of a decomposition are separated by at least one
      non-positive value. */
  lemma Gapped(v: seq<real>, sums: seq<real>, idx: seq<Interval>, k: nat, l: nat)
    requires |sums| == |v| + 1 && Decomposition(v, sums, idx)
    requires k < l < |idx|
    ensures idx[k].1 + 1 < idx[l].0
  {
    assert Scoring(v, sums, idx[k]) && Scoring(v, sums, idx[l]);
  }
}
