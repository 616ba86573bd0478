/** Moments of a weighted set of positions: the raw moments
    sum of w[k] * xs[k]^e and the central moments sum of w[k] * (xs[k] - c)^e,
    and the binomial expansion of the second and fourth central moments into
    raw ones, which is how `compute_kurtosis` obtains the variance and fourth
    central moment from prefix-summed raw moments.  The expansions are
    stated through the predicates `SecondSum` and `FourthSum`, first at one
    position and then, by induction on the window, for window sums. */
module MomentAlgebra {
  import opened Windows

  function Pow(x: real, e: nat): real
  {
    if e == 0 then 1.0 else Pow(x, e - 1) * x
  }

  /** w[k] * xs[k]^e: the terms of the e-th moment about 0. */
  function Raw(w: seq<real>, xs: seq<real>, e: nat): (r: seq<real>)
    requires |w| == |xs|
    ensures |r| == |w|
    ensures forall k :: 0 <= k < |w| ==> r[k] == w[k] * Pow(xs[k], e)
  {
    seq(|w|, k requires 0 <= k < |w| => w[k] * Pow(xs[k], e))
  }

  /** w[k] * (xs[k] - c)^e: the terms of the e-th moment about c. */
  function Weighted(w: seq<real>, xs: seq<real>, c: real, e: nat): (r: seq<real>)
    requires |w| == |xs|
    ensures |r| == |w|
    ensures forall k :: 0 <= k < |w| ==> r[k] == w[k] * Pow(xs[k] - c, e)
  {
    seq(|w|, k requires 0 <= k < |w| => w[k] * Pow(xs[k] - c, e))
  }

  lemma {:induction false} PowersUpToFour(x: real)
    ensures Pow(x, 0) == 1.0 && Pow(x, 1) == x && Pow(x, 2) == x * x && Pow(x, 3) == x * x * x
    ensures Pow(x, 4) == x * x * x * x
  {
    assert Pow(x, 1) == x;
    assert Pow(x, 2) == x * x;
    assert Pow(x, 3) == x * x * x;
  }

  /** Equals multiplied by equals are equal. */
  lemma {:induction false} MulCong(a: real, b: real, p: real, q: real)
    requires a == b && p == q
    ensures a * p == b * q
  {
  }

  lemma {:induction false} TermPowers(w: real, x: real)
    ensures w * Pow(x, 0) == w && w * Pow(x, 1) == w * x && w * Pow(x, 2) == w * (x * x)
    ensures w * Pow(x, 3) == w * (x * x * x) && w * Pow(x, 4) == w * (x * x * x * x)
  {
    PowersUpToFour(x);
    MulCong(w, w, Pow(x, 0), 1.0);
    MulCong(w, w, Pow(x, 1), x);
    MulCong(w, w, Pow(x, 2), x * x);
    MulCong(w, w, Pow(x, 3), x * x * x);
    MulCong(w, w, Pow(x, 4), x * x * x * x);
  }

  /** m is the binomial expansion of a second moment about c over the
      moments r0, r1, r2 about 0. */
  predicate SecondSum(m: real, r0: real, r1: real, r2: real, c: real)
  {
    m == r2 + (-2.0 * c) * r1 + (c * c) * r0
  }

  /** m is the binomial expansion of a fourth moment about c over the
      moments r0 .. r4 about 0. */
  predicate FourthSum(m: real, r0: real, r1: real, r2: real, r3: real, r4: real, c: real)
  {
    m == r4 + (-4.0 * c) * r3 + (6.0 * c * c) * r2 + (-4.0 * c * c * c) * r1 + (c * c * c * c) * r0
  }

  lemma {:induction false} SecondPoly(w: real, x: real, c: real, t: real, r0: real, r1: real, r2: real)
    requires t == w * ((x - c) * (x - c))
    requires r0 == w && r1 == w * x && r2 == w * (x * x)
    ensures SecondSum(t, r0, r1, r2, c)
  {
  }

  lemma {:induction false} FourthPoly(w: real, x: real, c: real, t: real, r0: real, r1: real, r2: real, r3: real, r4: real)
    requires t == w * ((x - c) * (x - c) * (x - c) * (x - c))
    requires r0 == w && r1 == w * x && r2 == w * (x * x) && r3 == w * (x * x * x) && r4 == w * (x * x * x * x)
    ensures FourthSum(t, r0, r1, r2, r3, r4, c)
  {
  }

  lemma {:induction false} SecondTerm(w: real, x: real, c: real, t: real, r0: real, r1: real, r2: real)
    requires t == w * Pow(x - c, 2)
    requires r0 == w * Pow(x, 0) && r1 == w * Pow(x, 1) && r2 == w * Pow(x, 2)
    ensures SecondSum(t, r0, r1, r2, c)
  {
    TermPowers(w, x);
    TermPowers(w, x - c);
    SecondPoly(w, x, c, t, r0, r1, r2);
  }

  lemma {:induction false} FourthTerm(w: real, x: real, c: real, t: real, r0: real, r1: real, r2: real, r3: real, r4: real)
    requires t == w * Pow(x - c, 4)
    requires r0 == w * Pow(x, 0) && r1 == w * Pow(x, 1) && r2 == w * Pow(x, 2)
    requires r3 == w * Pow(x, 3) && r4 == w * Pow(x, 4)
    ensures FourthSum(t, r0, r1, r2, r3, r4, c)
  {
    TermPowers(w, x);
    TermPowers(w, x - c);
    FourthPoly(w, x, c, t, r0, r1, r2, r3, r4);
  }

  /** The expansion of the second moment at one position. */
  lemma {:induction false} SecondAt(w: seq<real>, xs: seq<real>, c: real, k: nat)
    requires k < |w| == |xs|
    ensures SecondSum(Weighted(w, xs, c, 2)[k], Raw(w, xs, 0)[k], Raw(w, xs, 1)[k], Raw(w, xs, 2)[k], c)
  {
    SecondTerm(w[k], xs[k], c, Weighted(w, xs, c, 2)[k], Raw(w, xs, 0)[k], Raw(w, xs, 1)[k], Raw(w, xs, 2)[k]);
  }

  /** The expansion of the fourth moment at one position. */
  lemma {:induction false} FourthAt(w: seq<real>, xs: seq<real>, c: real, k: nat)
    requires k < |w| == |xs|
    ensures FourthSum(Weighted(w, xs, c, 4)[k], Raw(w, xs, 0)[k], Raw(w, xs, 1)[k], Raw(w, xs, 2)[k],
                      Raw(w, xs, 3)[k], Raw(w, xs, 4)[k], c)
  {
    FourthTerm(w[k], xs[k], c, Weighted(w, xs, c, 4)[k], Raw(w, xs, 0)[k], Raw(w, xs, 1)[k], Raw(w, xs, 2)[k],
               Raw(w, xs, 3)[k], Raw(w, xs, 4)[k]);
  }

  /** At every position t is the binomial expansion of a second moment. */
  predicate SecondExpands(t: seq<real>, p0: seq<real>, p1: seq<real>, p2: seq<real>, c: real)
  {
    && |t| == |p0| == |p1| == |p2|
    && forall k :: 0 <= k < |t| ==> SecondSum(t[k], p0[k], p1[k], p2[k], c)
  }

  /** At every position t is the binomial expansion of a fourth moment. */
  predicate FourthExpands(t: seq<real>, p0: seq<real>, p1: seq<real>, p2: seq<real>, p3: seq<real>, p4: seq<real>,
                          c: real)
  {
    && |t| == |p0| == |p1| == |p2| == |p3| == |p4|
    && forall k :: 0 <= k < |t| ==> FourthSum(t[k], p0[k], p1[k], p2[k], p3[k], p4[k], c)
  }

  lemma {:induction false} SecondAtAll(w: seq<real>, xs: seq<real>, c: real)
    requires |w| == |xs|
    ensures SecondExpands(Weighted(w, xs, c, 2), Raw(w, xs, 0), Raw(w, xs, 1), Raw(w, xs, 2), c)
  {
    forall k | 0 <= k < |w| {
      SecondAt(w, xs, c, k);
    }
  }

  lemma {:induction false} FourthAtAll(w: seq<real>, xs: seq<real>, c: real)
    requires |w| == |xs|
    ensures FourthExpands(Weighted(w, xs, c, 4), Raw(w, xs, 0), Raw(w, xs, 1), Raw(w, xs, 2), Raw(w, xs, 3),
                          Raw(w, xs, 4), c)
  {
    forall k | 0 <= k < |w| {
      FourthAt(w, xs, c, k);
    }
  }

  /** Expansions add up. */
  lemma SecondStep(c: real, m: real, u: real, q0: real, r0: real, q1: real, r1: real, q2: real, r2: real)
    requires SecondSum(m, q0, q1, q2, c) && SecondSum(u, r0, r1, r2, c)
    ensures SecondSum(m + u, q0 + r0, q1 + r1, q2 + r2, c)
  {
  }

  lemma FourthStep(c: real, m: real, u: real, q0: real, r0: real, q1: real, r1: real,
                   q2: real, r2: real, q3: real, r3: real, q4: real, r4: real)
    requires FourthSum(m, q0, q1, q2, q3, q4, c) && FourthSum(u, r0, r1, r2, r3, r4, c)
    ensures FourthSum(m + u, q0 + r0, q1 + r1, q2 + r2, q3 + r3, q4 + r4, c)
  {
  }

  /** One more position in the window. */
  lemma {:induction false} SecondExtend(t: seq<real>, p0: seq<real>, p1: seq<real>, p2: seq<real>, c: real,
                                        lo: nat, j: nat)
    requires SecondExpands(t, p0, p1, p2, c) && lo <= j < |t|
    requires SecondSum(SumRange(t, lo, j), SumRange(p0, lo, j), SumRange(p1, lo, j), SumRange(p2, lo, j), c)
    ensures SecondSum(SumRange(t, lo, j + 1), SumRange(p0, lo, j + 1), SumRange(p1, lo, j + 1), SumRange(p2, lo, j + 1), c)
  {
    SecondStep(c, SumRange(t, lo, j), t[j], SumRange(p0, lo, j), p0[j], SumRange(p1, lo, j), p1[j],
               SumRange(p2, lo, j), p2[j]);
  }

  lemma {:induction false} FourthExtend(t: seq<real>, p0: seq<real>, p1: seq<real>, p2: seq<real>,
                                        p3: seq<real>, p4: seq<real>, c: real, lo: nat, j: nat)
    requires FourthExpands(t, p0, p1, p2, p3, p4, c) && lo <= j < |t|
    requires FourthSum(SumRange(t, lo, j), SumRange(p0, lo, j), SumRange(p1, lo, j), SumRange(p2, lo, j),
                       SumRange(p3, lo, j), SumRange(p4, lo, j), c)
    ensures FourthSum(SumRange(t, lo, j + 1), SumRange(p0, lo, j + 1), SumRange(p1, lo, j + 1), SumRange(p2, lo, j + 1),
                      SumRange(p3, lo, j + 1), SumRange(p4, lo, j + 1), c)
  {
    FourthStep(c, SumRange(t, lo, j), t[j], SumRange(p0, lo, j), p0[j], SumRange(p1, lo, j), p1[j],
               SumRange(p2, lo, j), p2[j], SumRange(p3, lo, j), p3[j], SumRange(p4, lo, j), p4[j]);
  }

  lemma SecondZero(c: real)
    ensures SecondSum(0.0, 0.0, 0.0, 0.0, c)
  {
  }

  lemma FourthZero(c: real)
    ensures FourthSum(0.0, 0.0, 0.0, 0.0, 0.0, 0.0, c)
  {
  }

  /** A window sum of expansions is the expansion of the window sums. */
  lemma {:induction false} SecondCombination(t: seq<real>, p0: seq<real>, p1: seq<real>, p2: seq<real>, c: real,
                                             lo: nat, hi: nat)
    requires SecondExpands(t, p0, p1, p2, c) && lo <= hi <= |t|
    ensures SecondSum(SumRange(t, lo, hi), SumRange(p0, lo, hi), SumRange(p1, lo, hi), SumRange(p2, lo, hi), c)
    decreases hi - lo
  {
    if lo < hi {
      SecondCombination(t, p0, p1, p2, c, lo, hi - 1);
      SecondExtend(t, p0, p1, p2, c, lo, hi - 1);
    } else {
      SecondZero(c);
    }
  }

  lemma {:induction false} FourthCombination(t: seq<real>, p0: seq<real>, p1: seq<real>, p2: seq<real>,
                                             p3: seq<real>, p4: seq<real>, c: real, lo: nat, hi: nat)
    requires FourthExpands(t, p0, p1, p2, p3, p4, c) && lo <= hi <= |t|
    ensures FourthSum(SumRange(t, lo, hi), SumRange(p0, lo, hi), SumRange(p1, lo, hi), SumRange(p2, lo, hi),
                      SumRange(p3, lo, hi), SumRange(p4, lo, hi), c)
    decreases hi - lo
  {
    if lo < hi {
      FourthCombination(t, p0, p1, p2, p3, p4, c, lo, hi - 1);
      FourthExtend(t, p0, p1, p2, p3, p4, c, lo, hi - 1);
    } else {
      FourthZero(c);
    }
  }

  /** The second moment about c in terms of the moments about 0. */
  lemma {:induction false} CentralSecond(w: seq<real>, xs: seq<real>, c: real, lo: nat, hi: nat)
    requires lo <= hi <= |w| == |xs|
    ensures SecondSum(SumRange(Weighted(w, xs, c, 2), lo, hi),
                      SumRange(Raw(w, xs, 0), lo, hi), SumRange(Raw(w, xs, 1), lo, hi), SumRange(Raw(w, xs, 2), lo, hi), c)
  {
    SecondAtAll(w, xs, c);
    SecondCombination(Weighted(w, xs, c, 2), Raw(w, xs, 0), Raw(w, xs, 1), Raw(w, xs, 2), c, lo, hi);
  }

  /** The fourth moment about c in terms of the moments about 0. */
  lemma {:induction false} CentralFourth(w: seq<real>, xs: seq<real>, c: real, lo: nat, hi: nat)
    requires lo <= hi <= |w| == |xs|
    ensures FourthSum(SumRange(Weighted(w, xs, c, 4), lo, hi),
                      SumRange(Raw(w, xs, 0), lo, hi), SumRange(Raw(w, xs, 1), lo, hi), SumRange(Raw(w, xs, 2), lo, hi),
                      SumRange(Raw(w, xs, 3), lo, hi), SumRange(Raw(w, xs, 4), lo, hi), c)
  {
    FourthAtAll(w, xs, c);
    FourthCombination(Weighted(w, xs, c, 4), Raw(w, xs, 0), Raw(w, xs, 1), Raw(w, xs, 2), Raw(w, xs, 3),
                      Raw(w, xs, 4), c, lo, hi);
  }

  /** A second moment about any centre of non-negative weights is not
      negative. */
  lemma {:induction false} WeightedSquaresNonNegative(w: seq<real>, xs: seq<real>, c: real, lo: nat, hi: nat)
    requires lo <= hi <= |w| == |xs|
    requires forall k :: lo <= k < hi ==> w[k] >= 0.0
    ensures SumRange(Weighted(w, xs, c, 2), lo, hi) >= 0.0
  {
    var t := Weighted(w, xs, c, 2);
    forall k | lo <= k < hi
      ensures t[k] >= 0.0
    {
      var d := xs[k] - c;
      PowersUpToFour(d);
      assert d * d >= 0.0;
      MulCong(w[k], w[k], Pow(d, 2), d * d);
    }
    SumRangeNonNegative(t, lo, hi);
  }
}
