// Kleinberg burst detection (kleinberg.cpp): the table of sums of
// logarithms, the ladder of state rates, and batch Viterbi decoding of the
// relevant/total document counts of each year into a state per year.  The
// logarithm is a function parameter; the DP itself is the one of module
// Viterbi, with the emission cost of the source.

module Kleinberg {
  import opened StoreTypes
  import opened Viterbi

  /** `s`, the ratio between consecutive rates of the state ladder. */
  const RATIO: real := 2.0

  /** ln 1 + ln 2 + ... + ln i. */
  function LnSum(ln: real -> real, i: nat): real
  {
    if i == 0 then 0.0 else LnSum(ln, i - 1) + ln(i as real)
  }

  /** `init_ln_sums(max_num_docs)` on the global vector `prior`: it appends
      0 and then, for i = 1 .. max_num_docs, the previous entry plus ln i. */
  method InitLnSums(prior: seq<real>, maxNumDocs: nat, ln: real -> real) returns (lnSums: seq<real>)
    ensures |lnSums| == |prior| + maxNumDocs + 1 && lnSums[..|prior|] == prior
    ensures forall i :: 0 <= i <= maxNumDocs ==> lnSums[|prior| + i] == LnSum(ln, i)
  {
    lnSums := prior + [0.0];
    var i := 1;
    while i <= maxNumDocs
      invariant 1 <= i <= maxNumDocs + 1
      invariant |lnSums| == |prior| + i && lnSums[..|prior|] == prior
      invariant forall k :: 0 <= k < i ==> lnSums[|prior| + k] == LnSum(ln, k)
    {
      lnSums := lnSums + [lnSums[|lnSums| - 1] + ln(i as real)];
      i := i + 1;
    }
  }

  /** 1 * 2 * ... * i, as a real number. */
  function Factorial(i: nat): real
  {
    if i == 0 then 1.0 else Factorial(i - 1) * (i as real)
  }

  /** `ln` turns products of positive numbers into sums. */
  ghost predicate Logarithm(ln: real -> real)
  {
    ln(1.0) == 0.0 && forall a: real, b: real :: a > 0.0 && b > 0.0 ==> ln(a * b) == ln(a) + ln(b)
  }

  lemma {:induction false} FactorialPositive(i: nat)
    ensures Factorial(i) > 0.0
  {
    if i > 0 {
      FactorialPositive(i - 1);
      PositiveProduct(Factorial(i - 1), i as real);
    }
  }

  lemma PositiveProduct(a: real, b: real)
    requires a > 0.0 && b > 0.0
    ensures a * b > 0.0
  {
  }

  lemma LogProduct(ln: real -> real, a: real, b: real)
    requires Logarithm(ln) && a > 0.0 && b > 0.0
    ensures ln(a * b) == ln(a) + ln(b)
  {
  }

  /** For a true logarithm the table holds ln i!, so `choose` below is
      minus the logarithm of a binomial coefficient. */
  lemma LnSumIsLnFactorial(ln: real -> real, i: nat)
    requires Logarithm(ln)
    ensures LnSum(ln, i) == ln(Factorial(i))
  {
    forall k | 1 <= k <= i
      ensures ln(Factorial(k)) == ln(Factorial(k - 1)) + ln(k as real)
    {
      FactorialPositive(k - 1);
      LogProduct(ln, Factorial(k - 1), k as real);
    }
    LnSumTelescopes(ln, i);
  }

  /** The induction behind `LnSumIsLnFactorial`, from the one-step facts. */
  lemma {:induction false} LnSumTelescopes(ln: real -> real, i: nat)
    requires ln(1.0) == 0.0
    requires forall k :: 1 <= k <= i ==> ln(Factorial(k)) == ln(Factorial(k - 1)) + ln(k as real)
    ensures LnSum(ln, i) == ln(Factorial(i))
  {
    if i > 0 {
      LnSumTelescopes(ln, i - 1);
    }
  }

  /** Unsigned 32-bit wrap-around. */
  function Wrap32(x: int): nat
  {
    x % U32
  }

  /** The `unsigned int` sum of a vector of counts. */
  method Total(xs: seq<nat>) returns (total: nat)
    ensures total == Wrap32(Sum(xs))
  {
    total := 0;
    var k := 0;
    while k < |xs|
      invariant k <= |xs| && total == Wrap32(Sum(xs[..k]))
    {
      assert xs[..k + 1] == xs[..k] + [xs[k]];
      SumAppend(xs[..k], xs[k]);
      ModAdd32(Sum(xs[..k]), xs[k]);
      total := Wrap32(total + xs[k]);
      k := k + 1;
    }
    assert xs[..k] == xs;
  }

  function Pow2(j: nat): (p: nat)
    ensures p >= 1
  {
    if j == 0 then 1 else 2 * Pow2(j - 1)
  }

  /** R * 2^j. */
  function Scaled(r: nat, j: nat): nat
  {
    r * Pow2(j)
  }

  lemma ScaledDoubles(r: nat, j: nat)
    ensures Scaled(r, j + 1) == 2 * Scaled(r, j)
  {
    assert Pow2(j + 1) == 2 * Pow2(j);
    assert r * (2 * Pow2(j)) == 2 * (r * Pow2(j));
  }

  /** The rate of state j: R / D * 2^j. */
  function Rung(r: nat, d: nat, j: nat): real
    requires d > 0
  {
    Scaled(r, j) as real / d as real
  }

  /** The number of states from state j on: the ladder grows while the
      doubled rate stays at most 1. */
  function RungCount(r: nat, d: nat, j: nat): (c: nat)
    requires r > 0 && d > 0
    ensures c > j
    decreases d - Scaled(r, j)
  {
    ScaledDoubles(r, j);
    if Scaled(r, j + 1) <= d then RungCount(r, d, j + 1) else j + 1
  }

  /** The rates `alphas` for R relevant among D documents. */
  function Alphas(r: nat, d: nat): (a: seq<real>)
    requires r > 0 && d > 0
    ensures |a| >= 1
  {
    seq(RungCount(r, d, 0), j requires 0 <= j => Rung(r, d, j))
  }

  /** Doubling a rate is the rate of the next state, and it stays at most
      1 exactly when R * 2^(j+1) <= D. */
  lemma RungStep(r: nat, d: nat, j: nat)
    requires d > 0
    ensures Rung(r, d, j) * RATIO == Rung(r, d, j + 1)
    ensures Rung(r, d, j) * RATIO <= 1.0 <==> Scaled(r, j + 1) <= d
  {
    ScaledDoubles(r, j);
    assert Scaled(r, j + 1) as real == 2.0 * Scaled(r, j) as real;
    Doubled(Scaled(r, j) as real, d as real);
  }

  lemma Doubled(x: real, y: real)
    requires y > 0.0
    ensures x / y * 2.0 == (2.0 * x) / y
    ensures (2.0 * x) / y <= 1.0 <==> 2.0 * x <= y
  {
    assert (2.0 * x) / y * y == 2.0 * x;
  }

  /** The ladder starts at R / D, doubles from state to state, every rate
      but possibly the first is at most 1 (all of them when R <= D), and the
      last one doubled would exceed 1. */
  lemma {:induction false} LadderMeaning(r: nat, d: nat)
    requires r > 0 && d > 0
    ensures Alphas(r, d)[0] == r as real / d as real
    ensures forall j :: 0 <= j < |Alphas(r, d)| - 1 ==> Alphas(r, d)[j + 1] == Alphas(r, d)[j] * RATIO
    ensures forall j :: 0 <= j < |Alphas(r, d)| - 1 ==> Alphas(r, d)[j] * RATIO <= 1.0
    ensures Alphas(r, d)[|Alphas(r, d)| - 1] * RATIO > 1.0
    ensures forall j :: 0 <= j < |Alphas(r, d)| ==> Alphas(r, d)[j] > 0.0
  {
    var a := Alphas(r, d);
    assert Scaled(r, 0) == r;
    forall j | 0 <= j < |a| - 1
      ensures a[j + 1] == a[j] * RATIO && a[j] * RATIO <= 1.0
    {
      RungStep(r, d, j);
      RungCountContinues(r, d, 0, j);
    }
    RungStep(r, d, |a| - 1);
    RungCountStops(r, d, 0);
    forall j | 0 <= j < |a|
      ensures a[j] > 0.0
    {
      assert Scaled(r, j) >= 1;
    }
  }

  /** Below the count, the ladder went on. */
  lemma {:induction false} RungCountContinues(r: nat, d: nat, j: nat, k: nat)
    requires r > 0 && d > 0 && j <= k < RungCount(r, d, j) - 1
    ensures Scaled(r, k + 1) <= d
    decreases k - j
  {
    ScaledDoubles(r, j);
    if j < k {
      RungCountContinues(r, d, j + 1, k);
    }
  }

  /** At the count, the ladder stopped. */
  lemma {:induction false} RungCountStops(r: nat, d: nat, j: nat)
    requires r > 0 && d > 0
    ensures Scaled(r, RungCount(r, d, j)) > d
    decreases d - Scaled(r, j)
  {
    ScaledDoubles(r, j);
    if Scaled(r, j + 1) <= d {
      RungCountStops(r, d, j + 1);
    }
  }

  /** The ladder loop: start at R / D and keep doubling while the doubled
      rate is at most 1. */
  method StateLadder(r: nat, d: nat) returns (alphas: seq<real>)
    requires r > 0 && d > 0
    ensures alphas == Alphas(r, d)
  {
    alphas := [r as real / d as real / 1.0];
    assert Scaled(r, 0) == r;
    while alphas[|alphas| - 1] * RATIO <= 1.0
      invariant 1 <= |alphas|
      invariant forall j :: 0 <= j < |alphas| ==> alphas[j] == Rung(r, d, j)
      invariant RungCount(r, d, 0) == RungCount(r, d, |alphas| - 1)
      decreases d - Scaled(r, |alphas| - 1)
    {
      var top := |alphas| - 1;
      RungStep(r, d, top);
      ScaledDoubles(r, top);
      assert RungCount(r, d, top) == RungCount(r, d, top + 1);
      alphas := alphas + [alphas[top] * RATIO];
    }
    RungStep(r, d, |alphas| - 1);
    assert RungCount(r, d, |alphas| - 1) == |alphas|;
  }

  /** `ln_sums` covers every count the DP looks up: both counts of each
      year and the `unsigned` difference `docs[i] - relevant[i]`. */
  predicate Covered(docs: seq<nat>, relevant: seq<nat>, lnSums: seq<real>)
    requires |docs| == |relevant|
  {
    forall i :: 0 <= i < |docs| ==>
      docs[i] < |lnSums| && relevant[i] < |lnSums| && Wrap32(docs[i] as int - relevant[i] as int) < |lnSums|
  }

  /** The emission cost of state j in year i: `choose` (from the table of
      log sums) minus r ln(alpha_j) minus (docs - r) ln(1 - alpha_j). */
  function EmissionCost(docs: seq<nat>, relevant: seq<nat>, lnSums: seq<real>, alphas: seq<real>,
                        ln: real -> real, i: nat, j: nat): real
    requires |docs| == |relevant| && Covered(docs, relevant, lnSums) && i < |docs| && j < |alphas|
  {
    var r := relevant[i];
    var nr := Wrap32(docs[i] as int - r as int);
    var choose := lnSums[r] + lnSums[nr] - lnSums[docs[i]];
    choose - r as real * ln(alphas[j]) - nr as real * ln(1.0 - alphas[j])
  }

  /** The emission costs of all years and states, as the DP's parameter. */
  function Emissions(docs: seq<nat>, relevant: seq<nat>, lnSums: seq<real>, alphas: seq<real>,
                     ln: real -> real): (nat, nat) -> real
    requires |docs| == |relevant| && Covered(docs, relevant, lnSums)
  {
    (i: nat, j: nat) =>
      if i < |docs| && j < |alphas| then EmissionCost(docs, relevant, lnSums, alphas, ln, i, j) else 0.0
  }

  /** The emission costs of year i, in the terms the loop computes them. */
  lemma EmissionRow(docs: seq<nat>, relevant: seq<nat>, lnSums: seq<real>, alphas: seq<real>,
                    ln: real -> real, i: nat, r: nat, nr: nat, choose: real)
    requires |docs| == |relevant| && Covered(docs, relevant, lnSums) && i < |docs|
    requires r == relevant[i] && nr == Wrap32(docs[i] as int - r as int)
    requires choose == lnSums[r] + lnSums[nr] - lnSums[docs[i]]
    ensures forall j :: 0 <= j < |alphas| ==>
              Emissions(docs, relevant, lnSums, alphas, ln)(i, j)
              == choose - r as real * ln(alphas[j]) - nr as real * ln(1.0 - alphas[j])
  {
    var em := Emissions(docs, relevant, lnSums, alphas, ln);
    forall j | 0 <= j < |alphas|
      ensures em(i, j) == choose - r as real * ln(alphas[j]) - nr as real * ln(1.0 - alphas[j])
    {
      assert em(i, j) == EmissionCost(docs, relevant, lnSums, alphas, ln, i, j);
    }
  }

  /** The inputs batch Viterbi decodes: non-empty, of one length each, and
      the relevant total differs from the total (both `unsigned`). */
  predicate Decodable(docs: seq<nat>, relevant: seq<nat>)
  {
    |docs| > 0 && |docs| == |relevant| && Wrap32(Sum(relevant)) != Wrap32(Sum(docs))
  }

  /** The states decoded for decodable inputs with non-zero totals. */
  ghost function DecodedStates(docs: seq<nat>, relevant: seq<nat>, lnSums: seq<real>, ln: real -> real): (s: seq<nat>)
    requires Decodable(docs, relevant) && Covered(docs, relevant, lnSums)
    requires Wrap32(Sum(relevant)) > 0 && Wrap32(Sum(docs)) > 0
    ensures |s| == |docs| + 1
  {
    var alphas := Alphas(Wrap32(Sum(relevant)), Wrap32(Sum(docs)));
    Decoded(|alphas|, ln(|docs| as real), Emissions(docs, relevant, lnSums, alphas, ln), |docs|)
  }

  /** The inner loop over predecessors k of state j: the cheapest reachable
      one, the lowest index winning ties. */
  method BestPredecessor(prev: seq<Cost>, j: nat, lnN: real) returns (p: Pick)
    ensures p == Best(prev, j, lnN, |prev|)
    ensures IsBest(prev, j, lnN, |prev|, p)
  {
    p := NoPick;
    var k := 0;
    while k < |prev|
      invariant k <= |prev| && p == Best(prev, j, lnN, k)
    {
      var cand := prev[k];
      if cand != Top {
        var c := cand.value;
        if j > k {
          c := c + (j - k) as real * GAMMA * lnN;
        }
        if p.NoPick? || c < p.cost {
          p := Pick(c, k);
        }
      }
      k := k + 1;
    }
    BestMeaning(prev, j, lnN, |prev|);
  }

  /** The loop over states j for year i: the new cost of every state into
      the buffer `next0` (the costs of the year before last) and its
      predecessor pushed onto `psi[i]`. */
  method ViterbiLayer(prev: seq<Cost>, next0: seq<Cost>, lnN: real, i: nat, r: nat, nr: nat, choose: real,
                      alphas: seq<real>, ln: real -> real, ghost em: (nat, nat) -> real)
    returns (next: seq<Cost>, row: seq<nat>)
    requires |prev| == |next0| == |alphas| >= 1 && prev[0].Finite?
    requires forall j :: 0 <= j < |alphas| ==>
               em(i, j) == choose - r as real * ln(alphas[j]) - nr as real * ln(1.0 - alphas[j])
    ensures next == Layer(prev, lnN, em, i)
    ensures row == PsiRow(prev, lnN)
  {
    next := next0;
    row := [];
    var j := 0;
    while j < |prev|
      invariant j <= |prev| && |next| == |prev| && |row| == j
      invariant forall l :: 0 <= l < j ==> next[l] == Layer(prev, lnN, em, i)[l]
      invariant forall l :: 0 <= l < j ==> row[l] == PsiRow(prev, lnN)[l]
    {
      var p := BestPredecessor(prev, j, lnN);
      if p.NoPick? {
        // `exit(EXIT_FAILURE)`: state 0 is reachable, so this is never taken
        assert false;
      }
      next := next[j := Finite(p.cost + choose - r as real * ln(alphas[j]) - nr as real * ln(1.0 - alphas[j]))];
      row := row + [p.index];
      j := j + 1;
    }
  }

  function Reversed(s: seq<nat>): (r: seq<nat>)
    ensures |r| == |s|
  {
    seq(|s|, k requires 0 <= k < |s| => s[|s| - 1 - k])
  }

  lemma ReversedAppend(a: seq<nat>, b: seq<nat>)
    ensures Reversed(a + b) == Reversed(b) + Reversed(a)
  {
  }

  /** Reversing the trail of backtracking gives the states in forward
      order. */
  lemma {:induction false} TrailReversed(psi: seq<seq<nat>>, m: nat, d: nat, i: nat)
    requires Shaped(psi, m) && d < m && i <= |psi|
    ensures Reversed(Trail(psi, m, d, i)) == Forward(psi, m, d)[i..]
    decreases |psi| - i
  {
    if i < |psi| {
      TrailReversed(psi, m, d, i + 1);
      ReversedAppend(Trail(psi, m, d, i + 1), [StateAt(psi, m, d, i)]);
    }
  }

  /** The backtracking of `batch_viterbi`: push the final state `d`, then
      for every year from the last down the stored predecessor of the state
      just pushed, and reverse the whole vector: the states come out in
      forward order after the reversed earlier contents. */
  method Backtrack(psi: seq<seq<nat>>, m: nat, d: nat, prior: seq<nat>) returns (hiddenStates: seq<nat>)
    requires Shaped(psi, m) && d < m
    ensures hiddenStates == Forward(psi, m, d) + Reversed(prior)
  {
    var s := d;
    hiddenStates := prior + [s];
    var i: nat := |psi|;
    while i > 0
      invariant i <= |psi| && s == StateAt(psi, m, d, i)
      invariant hiddenStates == prior + Trail(psi, m, d, i)
    {
      i := i - 1;
      s := psi[i][s];
      hiddenStates := hiddenStates + [s];
    }
    TrailReversed(psi, m, d, 0);
    ReversedAppend(prior, Trail(psi, m, d, 0));
    hiddenStates := Reversed(hiddenStates);
  }

  /** `batch_viterbi(docs, relevant, hidden_states)` with the global
      `ln_sums` as `lnSums`: false, with `hidden_states` untouched, for
      empty or unequal-length inputs or when every document is relevant;
      otherwise true, with the decoded states appended (the reversal also
      reverses what the vector held before).  A zero relevant total would
      double the rate 0 for ever, and a zero total would divide by zero, so
      both are excluded where the ladder is reached. */
  method BatchViterbi(docs: seq<nat>, relevant: seq<nat>, lnSums: seq<real>, prior: seq<nat>, ln: real -> real)
    returns (ok: bool, hiddenStates: seq<nat>)
    requires |docs| == |relevant| ==> Covered(docs, relevant, lnSums)
    requires Decodable(docs, relevant) ==> Wrap32(Sum(relevant)) > 0 && Wrap32(Sum(docs)) > 0
    ensures ok <==> Decodable(docs, relevant)
    ensures !ok ==> hiddenStates == prior
    ensures ok ==> hiddenStates == DecodedStates(docs, relevant, lnSums, ln) + Reversed(prior)
  {
    hiddenStates := prior;
    if |docs| == 0 || |docs| != |relevant| {
      return false, hiddenStates;
    }
    var n := |docs|;
    var totalDocs := Total(docs);
    var totalRelevant := Total(relevant);
    if totalRelevant == totalDocs {
      return false, hiddenStates;
    }
    var alphas := StateLadder(totalRelevant, totalDocs);
    var m := |alphas|;
    ghost var em := Emissions(docs, relevant, lnSums, alphas, ln);
    var lnN := ln(n as real);
    var prev, psi := ForwardPass(docs, relevant, lnSums, alphas, ln, lnN, em);
    PsiTableIs(m, lnN, em, n);
    var d := MinPosition(prev, m);
    hiddenStates := Backtrack(psi, m, d, prior);
    return true, hiddenStates;
  }

  /** `dp[0]` and `dp[1]` resized to the number of states (zeros), then
      the costs before the first year: 0 for state 0, the sentinel for the
      others. */
  method InitialCosts(m: nat) returns (prev: seq<Cost>, next: seq<Cost>)
    requires m >= 1
    ensures prev == Start(m) && |next| == m
  {
    prev := seq(m, _ => Finite(0.0));
    next := seq(m, _ => Finite(0.0));
    prev := prev[0 := Finite(0.0)];
    var k := 1;
    while k < m
      invariant 1 <= k <= m && |prev| == m && prev[0] == Finite(0.0)
      invariant forall l :: 1 <= l < k ==> prev[l] == Top
    {
      prev := prev[k := Top];
      k := k + 1;
    }
    assert prev == Start(m);
  }

  /** The loop over the years: the costs after each year and the
      predecessors stored for it, the two cost vectors swapping roles. */
  method ForwardPass(docs: seq<nat>, relevant: seq<nat>, lnSums: seq<real>, alphas: seq<real>,
                     ln: real -> real, lnN: real, ghost em: (nat, nat) -> real)
    returns (prev: seq<Cost>, psi: seq<seq<nat>>)
    requires |docs| == |relevant| && Covered(docs, relevant, lnSums) && |alphas| >= 1
    requires em == Emissions(docs, relevant, lnSums, alphas, ln)
    ensures prev == Dp(|alphas|, lnN, em, |docs|)
    ensures psi == PsiTable(|alphas|, lnN, em, |docs|)
  {
    var n := |docs|;
    var m := |alphas|;
    var next;
    prev, next := InitialCosts(m);
    psi := [];
    var i := 0;
    while i < n
      invariant i <= n && |next| == m
      invariant prev == Dp(m, lnN, em, i)
      invariant psi == PsiTable(m, lnN, em, i)
    {
      var row;
      next, row := ForwardYear(docs, relevant, lnSums, alphas, ln, lnN, em, i, prev, next);
      PsiTableAppend(m, lnN, em, i);
      psi := psi + [row];
      prev, next := next, prev;
      i := i + 1;
    }
  }

  /** One year of the main loop: the emission inputs of year `i`, the costs
      of year `i + 1` and the predecessors of year `i`. */
  method ForwardYear(docs: seq<nat>, relevant: seq<nat>, lnSums: seq<real>, alphas: seq<real>,
                     ln: real -> real, lnN: real, ghost em: (nat, nat) -> real, i: nat,
                     prev: seq<Cost>, next0: seq<Cost>)
    returns (next: seq<Cost>, row: seq<nat>)
    requires |docs| == |relevant| && Covered(docs, relevant, lnSums) && |alphas| >= 1
    requires em == Emissions(docs, relevant, lnSums, alphas, ln)
    requires i < |docs| && prev == Dp(|alphas|, lnN, em, i) && |next0| == |alphas|
    ensures next == Dp(|alphas|, lnN, em, i + 1)
    ensures row == PsiRow(Dp(|alphas|, lnN, em, i), lnN)
  {
    var r := relevant[i];
    var nr := Wrap32(docs[i] as int - r as int);
    var choose := lnSums[r] + lnSums[nr] - lnSums[docs[i]];
    StateZeroReachable(|alphas|, lnN, em, i);
    EmissionRow(docs, relevant, lnSums, alphas, ln, i, r, nr, choose);
    next, row := ViterbiLayer(prev, next0, lnN, i, r, nr, choose, alphas, ln, em);
  }
}
