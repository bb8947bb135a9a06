/** The recurrence that keeps the variance of a growing list
    (gnubg/analysis.c, lines 1015 to 1038). */
module Variance {

  /** The values of f, added up. */
  function SumOf(f: real -> real, xs: seq<real>): real {
    if xs == [] then 0.0 else SumOf(f, xs[..|xs| - 1]) + f(xs[|xs| - 1])
  }

  function Sum(xs: seq<real>): real {
    if xs == [] then 0.0 else Sum(xs[..|xs| - 1]) + xs[|xs| - 1]
  }

  function SquareFrom(m: real): real -> real {
    (x: real) => (x - m) * (x - m)
  }

  /** The squared distances from m, added up. */
  function Deviations(xs: seq<real>, m: real): real {
    SumOf(SquareFrom(m), xs)
  }

  function Mean(xs: seq<real>): real
    requires xs != []
  {
    Sum(xs) / |xs| as real
  }

  /** The sample variance, with divisor n - 1; none for fewer than two values. */
  function SampleVariance(xs: seq<real>): real {
    if |xs| < 2 then 0.0 else Deviations(xs, Mean(xs)) / (|xs| - 1) as real
  }

  lemma SumSnoc(xs: seq<real>, x: real)
    ensures Sum(xs + [x]) == Sum(xs) + x
  {
    assert (xs + [x])[..|xs|] == xs;
  }

  lemma SumOfSnoc(f: real -> real, xs: seq<real>, x: real)
    ensures SumOf(f, xs + [x]) == SumOf(f, xs) + f(x)
  {
    assert (xs + [x])[..|xs|] == xs;
  }

  lemma Spread(c: real, s: real, x: real)
    ensures c * (s + x) == c * s + c * x
  {
  }

  /** Functions that differ by a linear term. */
  lemma {:induction false} SumOfLinear(f: real -> real, g: real -> real, c: real, e: real, xs: seq<real>, n: real)
    requires n == |xs| as real
    requires forall x :: g(x) == f(x) + (c * x + e)
    ensures SumOf(g, xs) == SumOf(f, xs) + c * Sum(xs) + n * e
  {
    if xs != [] {
      var ys, x := xs[..|xs| - 1], xs[|xs| - 1];
      SumOfLinear(f, g, c, e, ys, n - 1.0);
      Spread(c, Sum(ys), x);
      Spread(e, n - 1.0, 1.0);
    }
  }

  lemma MeanSum(xs: seq<real>, n: real)
    requires xs != [] && n == |xs| as real
    ensures n * Mean(xs) == Sum(xs)
  {
  }

  lemma Shift(a: real, m: real, x: real)
    ensures SquareFrom(m)(x) == SquareFrom(a)(x) + (2.0 * (a - m) * x + (m * m - a * a))
  {
  }

  lemma Complete(n: real, a: real, m: real, s: real, c: real, e: real)
    requires n * a == s && c == 2.0 * (a - m) && e == m * m - a * a
    ensures c * s + n * e == n * SquareFrom(a)(m)
  {
    assert c * (n * a) == n * (c * a);
    assert c * a == 2.0 * a * a - 2.0 * m * a;
    assert (m - a) * (m - a) == m * m - 2.0 * m * a + a * a;
    assert n * (c * a) + n * e == n * (c * a + e);
  }

  lemma DeviationsShift(xs: seq<real>, n: real, a: real, m: real, c: real, e: real)
    requires n == |xs| as real && c == 2.0 * (a - m) && e == m * m - a * a
    ensures Deviations(xs, m) == Deviations(xs, a) + c * Sum(xs) + n * e
  {
    var f, g := SquareFrom(a), SquareFrom(m);
    forall x ensures g(x) == f(x) + (c * x + e) {
      Shift(a, m, x);
    }
    SumOfLinear(f, g, c, e, xs, n);
  }

  /** About the mean, the squared distances are least. */
  lemma DeviationsAboutMean(xs: seq<real>, n: real, a: real, m: real, s: real)
    requires xs != [] && n == |xs| as real && s == Sum(xs) && n * a == s
    ensures Deviations(xs, m) == Deviations(xs, a) + n * SquareFrom(a)(m)
  {
    var c, e :| c == 2.0 * (a - m) && e == m * m - a * a;
    DeviationsShift(xs, n, a, m, c, e);
    Complete(n, a, m, s, c, e);
    SumUp(Deviations(xs, m), Deviations(xs, a), c * s, n * e, n * SquareFrom(a)(m));
  }

  lemma SumUp(x: real, y: real, p: real, q: real, r: real)
    requires x == y + p + q && p + q == r
    ensures x == y + r
  {
  }

  /** The new value of the variance. */
  function Step(rVariance: real, rSum: real, rSumAdd: real, nGames: nat): real {
    if nGames <= 1 then 0.0
    else
      var n := nGames as real;
      var rDeltaMu := rSum / n - (rSum - rSumAdd) / (n - 1.0);
      rVariance * (1.0 - 1.0 / (n - 1.0)) + n * rDeltaMu * rDeltaMu
  }

  /** The new value is n times further from the new mean than the old mean is. */
  lemma NewSquare(n: real, m: real, x: real, w: real)
    requires (n + 1.0) * w == n * m + x
    ensures SquareFrom(w)(x) == n * (n * SquareFrom(m)(w))
  {
    var d := w - m;
    assert x - w == n * d;
    assert (n * d) * (n * d) == n * (n * (d * d));
  }

  lemma Collect(n: real, q: real)
    ensures n * q + n * (n * q) == n * (n * q + q)
  {
  }

  /** How much one more value adds to the squared distances from the mean. */
  lemma NewDeviations(xs: seq<real>, x: real, n: real, m: real, w: real)
    requires xs != [] && n == |xs| as real && n * m == Sum(xs) && (n + 1.0) * w == n * m + x
    ensures Deviations(xs + [x], w) == Deviations(xs, m) + n * (n * SquareFrom(m)(w) + SquareFrom(m)(w))
  {
    SumOfSnoc(SquareFrom(w), xs, x);
    DeviationsAboutMean(xs, n, m, w, n * m);
    NewSquare(n, m, x, w);
    Collect(n, SquareFrom(m)(w));
  }

  /** The recurrence in terms of the sums of squares: d over n - 1 before, and
      d + n b over n after. */
  lemma Quotients(d: real, n: real, b: real, v: real, e: real)
    requires n >= 1.0 && e == d + n * b && (n == 1.0 ==> d == 0.0) && (n > 1.0 ==> v == d / (n - 1.0))
    ensures e / n == v * (1.0 - 1.0 / n) + b
  {
    assert e / n == d / n + b;
    if n > 1.0 {
      assert v * (n - 1.0) == d;
      assert 1.0 - 1.0 / n == (n - 1.0) / n;
      assert v * ((n - 1.0) / n) == (v * (n - 1.0)) / n;
    } else {
      assert 1.0 - 1.0 / n == 0.0;
      assert d / n == 0.0;
      Zero(v, 1.0 - 1.0 / n);
    }
  }

  lemma Zero(a: real, b: real)
    requires b == 0.0
    ensures a * b == 0.0
  {
  }

  lemma SingleDeviations(xs: seq<real>)
    requires |xs| == 1
    ensures Deviations(xs, Mean(xs)) == 0.0
  {
    var f := SquareFrom(Mean(xs));
    assert xs == [] + [xs[0]];
    SumSnoc([], xs[0]);
    SumOfSnoc(f, [], xs[0]);
    assert Mean(xs) == xs[0];
    assert f(xs[0]) == 0.0;
  }

  lemma StepAs(v: real, s: real, x: real, n: real, k: nat, m: real, w: real)
    requires n == k as real && k > 0 && n * m == s && (n + 1.0) * w == s + x
    ensures Step(v, s + x, x, k + 1) == v * (1.0 - 1.0 / n) + (n * SquareFrom(m)(w) + SquareFrom(m)(w))
  {
    assert m == s / n && w == (s + x) / (n + 1.0);
    var d := w - m;
    assert (n + 1.0) * d * d == n * (d * d) + d * d;
  }

  lemma VarianceOfMore(xs: seq<real>, x: real, n: real, w: real)
    requires xs != [] && n == |xs| as real && w == Mean(xs + [x])
    ensures SampleVariance(xs + [x]) == Deviations(xs + [x], w) / n
  {
    assert |xs + [x]| - 1 == |xs|;
  }

  lemma VarianceBefore(xs: seq<real>, n: real)
    requires xs != [] && n == |xs| as real
    ensures n == 1.0 ==> Deviations(xs, Mean(xs)) == 0.0
    ensures n > 1.0 ==> SampleVariance(xs) == Deviations(xs, Mean(xs)) / (n - 1.0)
  {
    if |xs| == 1 {
      SingleDeviations(xs);
    }
  }

  lemma StepIsVarianceAt(xs: seq<real>, x: real, n: real, m: real, w: real, v: real)
    requires xs != [] && n == |xs| as real && m == Mean(xs) && w == Mean(xs + [x]) && v == SampleVariance(xs)
    ensures Step(v, Sum(xs) + x, x, |xs| + 1) == SampleVariance(xs + [x])
  {
    MeanSum(xs, n);
    MeanSum(xs + [x], n + 1.0);
    SumSnoc(xs, x);
    StepAs(v, Sum(xs), x, n, |xs|, m, w);
    NewDeviations(xs, x, n, m, w);
    VarianceBefore(xs, n);
    VarianceOfMore(xs, x, n, w);
    var q := SquareFrom(m)(w);
    Quotients(Deviations(xs, m), n, n * q + q, v, Deviations(xs + [x], w));
  }

  /** One step of the recurrence takes the sample variance of a list to the sample
      variance of the list with one more value. */
  lemma StepIsVariance(xs: seq<real>, x: real)
    ensures Step(SampleVariance(xs), Sum(xs) + x, x, |xs| + 1) == SampleVariance(xs + [x])
  {
    if xs != [] {
      StepIsVarianceAt(xs, x, |xs| as real, Mean(xs), Mean(xs + [x]), SampleVariance(xs));
    }
  }

  method UpdateVariance(prVariance: real, rSum: real, rSumAdd: real, nGames: nat) returns (r: real)
    ensures r == Step(prVariance, rSum, rSumAdd, nGames)
    ensures forall xs :: |xs| + 1 == nGames && Sum(xs) + rSumAdd == rSum && SampleVariance(xs) == prVariance
                         ==> r == SampleVariance(xs + [rSumAdd])
  {
    if nGames == 0 || nGames == 1 {
      r := 0.0;
    } else {
      var n := nGames as real;
      var rDelta := rSumAdd;
      var rMuNew := rSum / n;
      var rMuOld := (rSum - rDelta) / (n - 1.0);
      var rDeltaMu := rMuNew - rMuOld;
      r := prVariance * (1.0 - 1.0 / (n - 1.0)) + n * rDeltaMu * rDeltaMu;
    }
    assert r == Step(prVariance, rSum, rSumAdd, nGames);
    forall xs | |xs| + 1 == nGames && Sum(xs) + rSumAdd == rSum && SampleVariance(xs) == prVariance
      ensures r == SampleVariance(xs + [rSumAdd])
    {
      StepIsVariance(xs, rSumAdd);
    }
  }
}
