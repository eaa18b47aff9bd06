/** The arithmetic the dashboard does on JavaScript numbers, over exact
    integers and reals: Math.round, the one-decimal rounding
    Math.round(x * 10) / 10, rounded percentages and rounded means. */
module Numeric {

  /** Math.round(x): the nearest integer, with halves rounded up. */
  function Round(x: real): (r: int)
    ensures r as real - 0.5 <= x < r as real + 0.5
  {
    (x + 0.5).Floor
  }

  /** A number with at most one decimal place: a whole number of tenths. */
  predicate OneDecimal(r: real)
  {
    (r * 10.0).Floor as real == r * 10.0
  }

  /** Math.round(x * 10) / 10: x to one decimal place. */
  function Round1(x: real): (r: real)
    ensures OneDecimal(r)
    ensures r - 0.05 <= x < r + 0.05
  {
    Round(x * 10.0) as real / 10.0
  }

  /** The one-decimal rounding is the only number of tenths within the
      half-open band of width 0.1 around x. */
  lemma Round1Unique(x: real, r: real)
    requires OneDecimal(r) && r - 0.05 <= x < r + 0.05
    ensures r == Round1(x)
  {
    var n := (r * 10.0).Floor;
    assert n as real - 0.5 <= x * 10.0 < n as real + 0.5;
    assert Round(x * 10.0) == n;
  }

  /** Round is monotone. */
  lemma RoundMono(x: real, y: real)
    requires x <= y
    ensures Round(x) <= Round(y)
  {
  }

  /** Round maps an integer to itself. */
  lemma RoundInt(n: int)
    ensures Round(n as real) == n
  {
  }

  /** One-decimal rounding keeps a value inside [lo, hi] when both ends are integers. */
  lemma Round1Bounds(x: real, lo: int, hi: int)
    requires lo as real <= x <= hi as real
    ensures lo as real <= Round1(x) <= hi as real
  {
    RoundMono((lo * 10) as real, x * 10.0);
    RoundMono(x * 10.0, (hi * 10) as real);
    RoundInt(lo * 10);
    RoundInt(hi * 10);
  }

  /** Cancelling a positive factor from a strict inequality. */
  lemma MulCancel(d: int, x: int, y: int)
    requires d > 0 && d * x < d * y
    ensures x < y
  {
    assert d * (y - x) == d * y - d * x;
  }

  /** Math.round(a / n) for integers a and n > 0, computed exactly: the
      integer r with r - 1/2 <= a/n < r + 1/2, scaled by 2n. */
  function RoundDiv(a: int, n: int): (r: int)
    requires n > 0
    ensures 2 * n * r <= 2 * a + n < 2 * n * r + 2 * n
  {
    (2 * a + n) / (2 * n)
  }

  lemma DivBounds(x: real, d: real, lo: real, hi: real)
    requires d > 0.0 && lo * d <= x < hi * d
    ensures lo <= x / d < hi
  {
    assert x / d * d == x;
  }

  /** A share of a positive whole, as a fraction, lies in 0..1. */
  lemma ShareBounds(a: real, t: real)
    requires t > 0.0 && 0.0 <= a <= t
    ensures 0.0 <= a / t <= 1.0
  {
    if a == t {
      DivExact(a, t, 1.0);
    } else {
      DivBounds(a, t, 0.0, 1.0);
    }
  }

  /** RoundDiv is Math.round of the real quotient. */
  lemma RoundDivIsRound(a: int, n: int)
    requires n > 0
    ensures RoundDiv(a, n) == Round(a as real / n as real)
  {
    var r := RoundDiv(a, n);
    var d := (2 * n) as real;
    var x := (2 * a + n) as real;
    assert (2 * n * r) as real == r as real * d;
    assert (2 * n * r + 2 * n) as real == (r + 1) as real * d;
    DivBounds(x, d, r as real, (r + 1) as real);
    var an := a as real / n as real;
    assert an * n as real == a as real;
    assert x == 2.0 * a as real + n as real;
    assert x == 2.0 * (an * n as real) + n as real;
    assert x == (2.0 * an + 1.0) * n as real;
    assert d == 2.0 * n as real;
    assert (an + 0.5) * d == x;
    DivExact(x, d, an + 0.5);
  }

  lemma DivExact(x: real, d: real, y: real)
    requires d != 0.0 && y * d == x
    ensures x / d == y
  {
  }

  /** The rounded quotient stays within integer bounds of the quotient. */
  lemma RoundDivBounds(a: int, n: int, lo: int, hi: int)
    requires n > 0 && lo * n <= a <= hi * n
    ensures lo <= RoundDiv(a, n) <= hi
  {
    var r := RoundDiv(a, n);
    assert 2 * n * (hi + 1) == 2 * (hi * n) + 2 * n;
    MulCancel(2 * n, r, hi + 1);
    assert 2 * n * (r + 1) == 2 * n * r + 2 * n;
    assert 2 * n * lo == 2 * (lo * n);
    MulCancel(2 * n, lo, r + 1);
  }

  /** Math.round(p / t * 100) for a count p out of t > 0. */
  function RoundPercent(p: int, t: int): (r: int)
    requires t > 0
    ensures 2 * t * r <= 200 * p + t < 2 * t * r + 2 * t
  {
    RoundDiv(100 * p, t)
  }

  /** RoundPercent is Math.round((p / t) * 100) on exact reals. */
  lemma RoundPercentIsRound(p: int, t: int)
    requires t > 0
    ensures RoundPercent(p, t) == Round(p as real / t as real * 100.0)
  {
    RoundDivIsRound(100 * p, t);
    assert (100 * p) as real / t as real == p as real / t as real * 100.0;
  }

  /** A rounded share of a total lies in 0..100; it is 100 for all of it
      and 0 for none of it. */
  lemma RoundPercentBounds(p: int, t: int)
    requires t > 0 && 0 <= p <= t
    ensures 0 <= RoundPercent(p, t) <= 100
    ensures p == t ==> RoundPercent(p, t) == 100
    ensures p == 0 ==> RoundPercent(p, t) == 0
  {
    RoundDivBounds(100 * p, t, 0, 100);
    if p == t {
      RoundDivBounds(100 * p, t, 100, 100);
    }
    if p == 0 {
      RoundDivBounds(100 * p, t, 0, 0);
    }
  }

  /** Sum of integers, accumulated left to right. */
  function Sum(xs: seq<int>): int {
    if |xs| == 0 then 0 else Sum(xs[..|xs| - 1]) + xs[|xs| - 1]
  }

  lemma {:induction false} SumBounds(xs: seq<int>, lo: int, hi: int)
    requires forall i :: 0 <= i < |xs| ==> lo <= xs[i] <= hi
    ensures lo * |xs| <= Sum(xs) <= hi * |xs|
  {
    if |xs| > 0 {
      var n := |xs| - 1;
      var front := xs[..n];
      assert forall i :: 0 <= i < n ==> front[i] == xs[i];
      SumBounds(front, lo, hi);
      assert Sum(xs) == Sum(front) + xs[n];
      MulSucc(lo, n);
      MulSucc(hi, n);
    }
  }

  lemma MulSucc(a: int, n: int)
    ensures a * (n + 1) == a * n + a
  {
  }

  /** Math.round(sum / count) of a list of integers, 0 for an empty list. */
  function RoundedMean(xs: seq<int>): (r: int)
    ensures |xs| == 0 ==> r == 0
    ensures |xs| > 0 ==> 2 * |xs| * r <= 2 * Sum(xs) + |xs| < 2 * |xs| * r + 2 * |xs|
  {
    if |xs| == 0 then 0 else RoundDiv(Sum(xs), |xs|)
  }

  /** The rounded mean stays within the bounds of the values. */
  lemma RoundedMeanBounds(xs: seq<int>, lo: int, hi: int)
    requires |xs| > 0
    requires forall i :: 0 <= i < |xs| ==> lo <= xs[i] <= hi
    ensures lo <= RoundedMean(xs) <= hi
  {
    SumBounds(xs, lo, hi);
    RoundDivBounds(Sum(xs), |xs|, lo, hi);
  }

  /** Sum of reals, accumulated left to right. */
  function SumReal(xs: seq<real>): real {
    if |xs| == 0 then 0.0 else SumReal(xs[..|xs| - 1]) + xs[|xs| - 1]
  }

  lemma {:induction false} SumRealBounds(xs: seq<real>, lo: real, hi: real)
    requires forall i :: 0 <= i < |xs| ==> lo <= xs[i] <= hi
    ensures lo * |xs| as real <= SumReal(xs) <= hi * |xs| as real
  {
    if |xs| > 0 {
      SumRealBounds(xs[..|xs| - 1], lo, hi);
    }
  }

  /** The arithmetic mean, 0 for an empty list: the
      `n > 0 ? sum / n : 0` the dashboard writes for every average. */
  function Mean(xs: seq<real>): real
  {
    if |xs| == 0 then 0.0 else SumReal(xs) / |xs| as real
  }

  /** The mean of a non-empty list lies between its bounds. */
  lemma MeanBounds(xs: seq<real>, lo: real, hi: real)
    requires |xs| > 0
    requires forall i :: 0 <= i < |xs| ==> lo <= xs[i] <= hi
    ensures lo <= Mean(xs) <= hi
  {
    SumRealBounds(xs, lo, hi);
    var n := |xs| as real;
    var m := SumReal(xs) / n;
    assert m * n == SumReal(xs);
    RealMulCancel(lo, m, n);
    RealMulCancel(m, hi, n);
  }

  /** Cancelling a positive factor from a non-strict inequality of reals. */
  lemma RealMulCancel(a: real, b: real, n: real)
    requires n > 0.0 && a * n <= b * n
    ensures a <= b
  {
    assert (b - a) * n == b * n - a * n;
  }
}
