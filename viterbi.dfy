// The dynamic programme behind batch Viterbi decoding (kleinberg.cpp):
// costs per state and year, the cheapest predecessor with the lowest index
// winning ties, and the states recovered by following the stored
// predecessors back from the cheapest final state.  The emission cost of a
// state in a year is a function parameter, so everything here holds for any
// emission model; the transition cost is the one of the source: moving up
// from state k to state j > k costs (j - k) * gamma * ln n, staying or moving
// down is free.

module Viterbi {

  /** `gamma`, the weight of a step up the state ladder. */
  const GAMMA: real := 1.0

  /** A DP entry: a finite cost, or `numeric_limits<double>::max()`, which
      marks a state that cannot be reached (the initial cost of every state
      but 0). */
  datatype Cost = Finite(value: real) | Top

  /** `a < b` on DP entries; the sentinel is above every finite cost. */
  predicate CostLess(a: Cost, b: Cost)
  {
    a.Finite? && (b.Top? || a.value < b.value)
  }

  /** The cost of moving from state `k` to state `j` among `n` years, given
      `lnN` = ln n: only upward moves cost. */
  function TransitionCost(k: nat, j: nat, lnN: real): real
  {
    if j > k then (j - k) as real * GAMMA * lnN else 0.0
  }

  /** The running minimum of the inner loop: nothing found yet (both
      sentinels still in place) or a candidate cost and its state. */
  datatype Pick = NoPick | Pick(cost: real, index: nat)

  /** The minimum after the first `K` predecessors of state `j`: a reachable
      predecessor replaces the running minimum only when it is strictly
      cheaper. */
  function Best(prev: seq<Cost>, j: nat, lnN: real, K: nat): Pick
    requires K <= |prev|
  {
    if K == 0 then NoPick
    else
      var p := Best(prev, j, lnN, K - 1);
      match prev[K - 1]
      case Top => p
      case Finite(v) =>
        var c := v + TransitionCost(K - 1, j, lnN);
        if p.NoPick? || c < p.cost then Pick(c, K - 1) else p
  }

  /** What the running minimum means: nothing is picked exactly when no
      predecessor is reachable; otherwise the pick is a reachable state, its
      cost is that state's cost plus the transition, no reachable state is
      cheaper, and every lower-numbered reachable state is dearer. */
  ghost predicate IsBest(prev: seq<Cost>, j: nat, lnN: real, K: nat, p: Pick)
    requires K <= |prev|
  {
    match p
    case NoPick => forall k :: 0 <= k < K ==> prev[k].Top?
    case Pick(c, i) =>
      i < K && prev[i].Finite? && c == prev[i].value + TransitionCost(i, j, lnN)
      && (forall k :: 0 <= k < K && prev[k].Finite? ==> c <= prev[k].value + TransitionCost(k, j, lnN))
      && (forall k :: 0 <= k < i && prev[k].Finite? ==> c < prev[k].value + TransitionCost(k, j, lnN))
  }

  lemma {:induction false} BestMeaning(prev: seq<Cost>, j: nat, lnN: real, K: nat)
    requires K <= |prev|
    ensures IsBest(prev, j, lnN, K, Best(prev, j, lnN, K))
  {
    if K > 0 {
      BestMeaning(prev, j, lnN, K - 1);
    }
  }

  /** The state stored as predecessor (`min_index`); the sentinel case makes
      the program exit, so its value here is immaterial. */
  function IndexOf(p: Pick): nat
  {
    if p.Pick? then p.index else 0
  }

  /** The costs before the first year: 0 for state 0, the sentinel for every
      other state. */
  function Start(m: nat): (c: seq<Cost>)
    ensures |c| == m
  {
    seq(m, j => if j == 0 then Finite(0.0) else Top)
  }

  /** The new cost of a state: its cheapest arrival plus its emission. */
  function Extend(p: Pick, emission: real): Cost
  {
    match p
    case NoPick => Top
    case Pick(c, _) => Finite(c + emission)
  }

  /** The costs after year `t` from the costs before it. */
  function Layer(prev: seq<Cost>, lnN: real, em: (nat, nat) -> real, t: nat): (next: seq<Cost>)
    ensures |next| == |prev|
  {
    seq(|prev|, j requires 0 <= j < |prev| => Extend(Best(prev, j, lnN, |prev|), em(t, j)))
  }

  /** The costs of the `m` states after the first `t` years. */
  function Dp(m: nat, lnN: real, em: (nat, nat) -> real, t: nat): (c: seq<Cost>)
    ensures |c| == m
  {
    if t == 0 then Start(m) else Layer(Dp(m, lnN, em, t - 1), lnN, em, t - 1)
  }

  /** The predecessors stored for year `t` (`psi[t]`). */
  function PsiRow(prev: seq<Cost>, lnN: real): (row: seq<nat>)
    ensures |row| == |prev|
  {
    seq(|prev|, j requires 0 <= j < |prev| => IndexOf(Best(prev, j, lnN, |prev|)))
  }

  /** The predecessor table after `n` years. */
  function PsiTable(m: nat, lnN: real, em: (nat, nat) -> real, n: nat): (psi: seq<seq<nat>>)
    ensures |psi| == n
  {
    seq(n, t requires 0 <= t < n => PsiRow(Dp(m, lnN, em, t), lnN))
  }

  /** One more year appends that year's row to the table. */
  lemma PsiTableAppend(m: nat, lnN: real, em: (nat, nat) -> real, n: nat)
    ensures PsiTable(m, lnN, em, n + 1) == PsiTable(m, lnN, em, n) + [PsiRow(Dp(m, lnN, em, n), lnN)]
  {
  }

  /** A state sequence: it starts in state 0 and stays below `m`. */
  ghost predicate IsPath(p: seq<nat>, m: nat)
  {
    |p| >= 1 && p[0] == 0 && forall k :: 0 <= k < |p| ==> p[k] < m
  }

  /** The cost of a state sequence: every step pays its transition and the
      emission of the state it arrives in, for the year it covers. */
  function PathCost(p: seq<nat>, lnN: real, em: (nat, nat) -> real): real
  {
    if |p| <= 1 then 0.0
    else PathCost(p[..|p| - 1], lnN, em) + TransitionCost(p[|p| - 2], p[|p| - 1], lnN) + em(|p| - 2, p[|p| - 1])
  }

  /** One entry of the costs after year `t`. */
  lemma DpAt(m: nat, lnN: real, em: (nat, nat) -> real, t: nat, j: nat)
    requires t >= 1 && j < m
    ensures Dp(m, lnN, em, t)[j] == Extend(Best(Dp(m, lnN, em, t - 1), j, lnN, m), em(t - 1, j))
  {
  }

  /** State 0 always has a finite cost, so the sentinel exit of the inner
      loop is never taken. */
  lemma {:induction false} StateZeroReachable(m: nat, lnN: real, em: (nat, nat) -> real, t: nat)
    requires m >= 1
    ensures Dp(m, lnN, em, t)[0].Finite?
  {
    if t > 0 {
      StateZeroReachable(m, lnN, em, t - 1);
      var prev := Dp(m, lnN, em, t - 1);
      BestMeaning(prev, 0, lnN, m);
      assert Best(prev, 0, lnN, m).Pick?;
      DpAt(m, lnN, em, t, 0);
    }
  }

  /** After the first year every state has a finite cost. */
  lemma AllReachable(m: nat, lnN: real, em: (nat, nat) -> real, t: nat)
    requires m >= 1 && t >= 1
    ensures forall j :: 0 <= j < m ==> Dp(m, lnN, em, t)[j].Finite?
  {
    var prev := Dp(m, lnN, em, t - 1);
    StateZeroReachable(m, lnN, em, t - 1);
    forall j | 0 <= j < m
      ensures Dp(m, lnN, em, t)[j].Finite?
    {
      BestMeaning(prev, j, lnN, m);
      assert Best(prev, j, lnN, m).Pick?;
      DpAt(m, lnN, em, t, j);
    }
  }

  /** No state sequence of `t + 1` states is cheaper than the DP cost of the
      state it ends in after `t` years. */
  lemma {:induction false} DpLowerBound(m: nat, lnN: real, em: (nat, nat) -> real, q: seq<nat>)
    requires m >= 1 && IsPath(q, m)
    ensures Dp(m, lnN, em, |q| - 1)[q[|q| - 1]].Finite?
    ensures Dp(m, lnN, em, |q| - 1)[q[|q| - 1]].value <= PathCost(q, lnN, em)
  {
    if |q| > 1 {
      var t := |q| - 1;
      var q' := q[..t];
      assert IsPath(q', m);
      DpLowerBound(m, lnN, em, q');
      var prev := Dp(m, lnN, em, t - 1);
      BestMeaning(prev, q[t], lnN, m);
      assert prev[q[t - 1]].Finite?;
      assert Best(prev, q[t], lnN, m).Pick?;
      DpAt(m, lnN, em, t, q[t]);
    }
  }

  /** Every stored predecessor is a state, in a table of `|psi|` rows of `m`
      states. */
  ghost predicate Shaped(psi: seq<seq<nat>>, m: nat)
  {
    forall i :: 0 <= i < |psi| ==> |psi[i]| == m && forall j :: 0 <= j < m ==> psi[i][j] < m
  }

  /** `psi` holds the predecessors the DP stores for its years. */
  ghost predicate PsiIs(psi: seq<seq<nat>>, m: nat, lnN: real, em: (nat, nat) -> real)
  {
    Shaped(psi, m)
    && forall t, j :: 0 <= t < |psi| && 0 <= j < m ==> psi[t][j] == IndexOf(Best(Dp(m, lnN, em, t), j, lnN, m))
  }

  lemma PsiTableIs(m: nat, lnN: real, em: (nat, nat) -> real, n: nat)
    ensures PsiIs(PsiTable(m, lnN, em, n), m, lnN, em)
  {
    var psi := PsiTable(m, lnN, em, n);
    forall i, j | 0 <= i < n && 0 <= j < m
      ensures psi[i][j] < m
    {
      BestMeaning(Dp(m, lnN, em, i), j, lnN, m);
    }
  }

  /** The state at year `i` when backtracking from state `d` after the last
      year `|psi|`. */
  function StateAt(psi: seq<seq<nat>>, m: nat, d: nat, i: nat): (s: nat)
    requires Shaped(psi, m) && d < m && i <= |psi|
    ensures s < m
    decreases |psi| - i
  {
    if i == |psi| then d else psi[i][StateAt(psi, m, d, i + 1)]
  }

  /** The states pushed while backtracking down to year `i`, latest first. */
  function Trail(psi: seq<seq<nat>>, m: nat, d: nat, i: nat): (r: seq<nat>)
    requires Shaped(psi, m) && d < m && i <= |psi|
    ensures |r| == |psi| - i + 1
    decreases |psi| - i
  {
    if i == |psi| then [d] else Trail(psi, m, d, i + 1) + [StateAt(psi, m, d, i)]
  }

  /** The recovered states in forward order. */
  function Forward(psi: seq<seq<nat>>, m: nat, d: nat): (r: seq<nat>)
    requires Shaped(psi, m) && d < m
    ensures |r| == |psi| + 1
  {
    seq(|psi| + 1, t requires 0 <= t <= |psi| => StateAt(psi, m, d, t))
  }

  /** The recovered states end in `d`, stay below `m`, and each earlier one
      is the predecessor stored for the state after it. */
  lemma ForwardSteps(psi: seq<seq<nat>>, m: nat, d: nat)
    requires Shaped(psi, m) && d < m
    ensures Forward(psi, m, d)[|psi|] == d
    ensures forall t :: 0 <= t <= |psi| ==> Forward(psi, m, d)[t] < m
    ensures forall t :: 0 <= t < |psi| ==> Forward(psi, m, d)[t] == psi[t][Forward(psi, m, d)[t + 1]]
  {
  }

  /** `min_element`: the first entry no other entry is below. */
  function MinPosition(v: seq<Cost>, K: nat): (p: nat)
    requires 1 <= K <= |v|
    ensures p < K
  {
    if K == 1 then 0
    else
      var p := MinPosition(v, K - 1);
      if CostLess(v[K - 1], v[p]) then K - 1 else p
  }

  /** Every entry before the first minimum is above it and no entry is
      below it. */
  lemma {:induction false} MinPositionMeaning(v: seq<Cost>, K: nat)
    requires 1 <= K <= |v|
    ensures forall k :: 0 <= k < K ==> !CostLess(v[k], v[MinPosition(v, K)])
    ensures forall k :: 0 <= k < MinPosition(v, K) ==> CostLess(v[MinPosition(v, K)], v[k])
  {
    if K > 1 {
      MinPositionMeaning(v, K - 1);
    }
  }

  /** The states batch Viterbi recovers after `n` years: backtracking from
      the first cheapest final state through the predecessor table. */
  function Decoded(m: nat, lnN: real, em: (nat, nat) -> real, n: nat): (r: seq<nat>)
    requires m >= 1
    ensures |r| == n + 1
  {
    PsiTableIs(m, lnN, em, n);
    Forward(PsiTable(m, lnN, em, n), m, MinPosition(Dp(m, lnN, em, n), m))
  }

  /** A state sequence that moves from `f[t - 1]` to `f[t]` through the
      stored predecessor of `f[t]` costs the DP cost of `f[t]` after year
      `t`, given that its first `t` states cost the DP cost of `f[t - 1]`. */
  lemma ForwardStepCost(m: nat, lnN: real, em: (nat, nat) -> real, f: seq<nat>, t: nat)
    requires m >= 1 && 1 <= t < |f| && f[t] < m && f[t - 1] < m
    requires f[t - 1] == IndexOf(Best(Dp(m, lnN, em, t - 1), f[t], lnN, m))
    requires Dp(m, lnN, em, t - 1)[f[t - 1]].Finite?
    requires PathCost(f[..t], lnN, em) == Dp(m, lnN, em, t - 1)[f[t - 1]].value
    ensures Dp(m, lnN, em, t)[f[t]].Finite?
    ensures PathCost(f[..t + 1], lnN, em) == Dp(m, lnN, em, t)[f[t]].value
  {
    var prev := Dp(m, lnN, em, t - 1);
    BestMeaning(prev, f[t], lnN, m);
    assert Best(prev, f[t], lnN, m).Pick?;
    DpAt(m, lnN, em, t, f[t]);
    assert f[..t + 1][..t] == f[..t];
  }

  /** The first `t + 1` recovered states form a state sequence whose cost is
      the DP cost of the state they end in. */
  lemma {:induction false} ForwardCost(m: nat, lnN: real, em: (nat, nat) -> real, psi: seq<seq<nat>>, d: nat,
                                       f: seq<nat>, t: nat)
    requires m >= 1 && |psi| >= 1 && d < m && t <= |psi|
    requires PsiIs(psi, m, lnN, em) && f == Forward(psi, m, d)
    ensures IsPath(f[..t + 1], m)
    ensures Dp(m, lnN, em, t)[f[t]].Finite?
    ensures PathCost(f[..t + 1], lnN, em) == Dp(m, lnN, em, t)[f[t]].value
  {
    ForwardSteps(psi, m, d);
    if t == 0 {
      BestMeaning(Start(m), f[1], lnN, m);
      assert f[0] == psi[0][f[1]];
      assert f[..1] == [f[0]];
    } else {
      ForwardCost(m, lnN, em, psi, d, f, t - 1);
      assert f[t - 1] == psi[t - 1][f[t]];
      ForwardStepCost(m, lnN, em, f, t);
      assert f[..t + 1][..t] == f[..t];
    }
  }

  /** The decoded states start in state 0, and no state sequence over the
      same years is cheaper: batch Viterbi finds a cheapest state
      sequence. */
  lemma DecodedOptimal(m: nat, lnN: real, em: (nat, nat) -> real, n: nat)
    requires m >= 1 && n >= 1
    ensures IsPath(Decoded(m, lnN, em, n), m)
    ensures forall q :: IsPath(q, m) && |q| == n + 1 ==>
              PathCost(Decoded(m, lnN, em, n), lnN, em) <= PathCost(q, lnN, em)
  {
    var dp := Dp(m, lnN, em, n);
    PsiTableIs(m, lnN, em, n);
    var psi := PsiTable(m, lnN, em, n);
    var d := MinPosition(dp, m);
    var f := Decoded(m, lnN, em, n);
    ForwardSteps(psi, m, d);
    ForwardCost(m, lnN, em, psi, d, f, n);
    assert f[..n + 1] == f;
    MinPositionMeaning(dp, m);
    AllReachable(m, lnN, em, n);
    forall q | IsPath(q, m) && |q| == n + 1
      ensures PathCost(f, lnN, em) <= PathCost(q, lnN, em)
    {
      DpLowerBound(m, lnN, em, q);
      assert !CostLess(dp[q[n]], dp[d]);
    }
  }

  /** The last decoded state is the first cheapest final state, and each
      earlier one is the predecessor stored for the state after it, the
      cheapest with the lowest index. */
  lemma DecodedSteps(m: nat, lnN: real, em: (nat, nat) -> real, n: nat)
    requires m >= 1
    ensures Decoded(m, lnN, em, n)[n] == MinPosition(Dp(m, lnN, em, n), m)
    ensures forall t :: 0 <= t < n ==>
              Decoded(m, lnN, em, n)[t] == IndexOf(Best(Dp(m, lnN, em, t), Decoded(m, lnN, em, n)[t + 1], lnN, m))
  {
    PsiTableIs(m, lnN, em, n);
    ForwardSteps(PsiTable(m, lnN, em, n), m, MinPosition(Dp(m, lnN, em, n), m));
  }
}
