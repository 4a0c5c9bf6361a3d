/** The exponentially weighted mean and variance of `EwmaTracker`. */
module Ewma {
  import opened Prelude

  function NextMean(alpha: real, mean: real, delta: real): real { mean + alpha * delta }

  function NextVariance(alpha: real, variance: real, delta: real): real {
    (1.0 - alpha) * (variance + alpha * delta * delta)
  }

  class EwmaTracker {
    const alpha: real
    var mean: real
    var variance: real
    var sampleCount: nat
    const minSamples: nat
    /** The samples accepted so far. */
    ghost var accepted: seq<real>

    ghost predicate Valid()
      reads this
    {
      && 0.01 <= alpha <= 0.99 && minSamples >= 1
      && sampleCount == |accepted| && (forall i :: 0 <= i < |accepted| ==> accepted[i] >= 0.0)
      && if accepted == [] then mean == variance == 0.0
         else mean == Mean(alpha, accepted) && variance == Variance(alpha, accepted)
    }

    constructor (alpha: real, minSamples: nat)
      ensures Valid() && accepted == [] && this.alpha == Clamp(alpha, 0.01, 0.99)
      ensures this.minSamples == if minSamples > 1 then minSamples else 1
    {
      this.alpha := Clamp(alpha, 0.01, 0.99);
      this.minSamples := if minSamples > 1 then minSamples else 1;
      mean, variance, sampleCount, accepted := 0.0, 0.0, 0, [];
    }

    /** Accepts a finite non-negative value and ignores anything else. The mean and the variance remain those of
        all accepted samples under exponential weights, although only one number each is kept. */
    method Update(value: Float)
      requires Valid()
      modifies this
      ensures Valid()
      ensures accepted == if value.NonNegative() then old(accepted) + [value.value] else old(accepted)
    {
      if !value.NonNegative() {
        return;
      }
      var x := value.value;
      sampleCount := sampleCount + 1;
      hide Mean, Variance, NextMean, NextVariance;
      ghost var before := accepted;
      accepted := before + [x];
      if sampleCount == 1 {
        FirstStep(alpha, x);
        assert accepted == [x];
        mean, variance := x, 0.0;
      } else {
        UpdateStep(alpha, before, x);
        var delta := x - mean;
        mean := NextMean(alpha, mean, delta);
        variance := NextVariance(alpha, variance, delta);
      }
    }

    /** The prediction, given the square root of the variance. The confidence is the share of the samples among them
        and ten more, so it grows towards 1 and never gets there. */
    method Predict(stddev: real) returns (p: Option<Prediction>)
      requires Valid() && stddev >= 0.0 && stddev * stddev == variance
      ensures p.None? <==> |accepted| < minSamples
      ensures p.Some? ==>
                var Prediction(value, lower, upper, confidence, count) := p.value;
                && value == Mean(alpha, accepted) && 0.0 <= lower <= value <= upper
                && upper == value + 2.0 * stddev && lower == Max(value - 2.0 * stddev, 0.0)
                && Outside(Weights(alpha, |accepted|), accepted, lower, upper) <= 0.25
                && count == |accepted| && 0.0 < confidence < 1.0 && confidence * (count + 10) as real == count as real
    {
      if sampleCount < minSamples {
        return None;
      }
      var lower, upper := Max(mean - 2.0 * stddev, 0.0), mean + 2.0 * stddev;
      MeanNonNegative(alpha, accepted);
      FewOutside(alpha, accepted, stddev, lower, upper);
      ConfidenceRange(sampleCount);
      return Some(Prediction(mean, lower, upper, Confidence(sampleCount), sampleCount));
    }
  }

  datatype Prediction = Prediction(value: real, lower: real, upper: real, confidence: real, sampleCount: nat)

  function Confidence(count: nat): real {
    Clamp(count as real / (count as real + 10.0), 0.0, 1.0)
  }

  lemma ConfidenceRange(count: nat)
    requires count > 0
    ensures 0.0 < Confidence(count) < 1.0 && Confidence(count) * (count + 10) as real == count as real
  {
    var c := count as real;
    var q := c / (c + 10.0);
    assert q * (c + 10.0) == c;
    assert (1.0 - q) * (c + 10.0) == 10.0;
  }

  // ----- exponential weights -----

  /** Multiplication under a name, so that proofs can treat products as opaque. */
  function Mul(a: real, b: real): real { a * b }

  function Pow(b: real, n: nat): real {
    if n == 0 then 1.0 else Mul(b, Pow(b, n - 1))
  }

  /** The weight of sample `i` out of `n`: it fades by 1 - alpha with every later sample. */
  function WeightOf(alpha: real, n: nat, i: nat): real
    requires i < n
  {
    Mul(if i == 0 then 1.0 else alpha, Pow(1.0 - alpha, n - 1 - i))
  }

  function Weights(alpha: real, n: nat): seq<real> {
    seq(n, i requires 0 <= i < n => WeightOf(alpha, n, i))
  }

  /** Weighted sum of a property of the samples. */
  function Sum(w: seq<real>, xs: seq<real>, f: real -> real): real
    requires |w| == |xs|
  {
    if xs == [] then 0.0
    else Sum(w[..|w| - 1], xs[..|xs| - 1], f) + Mul(w[|w| - 1], f(xs[|xs| - 1]))
  }

  function One(x: real): real { 1.0 }
  function Id(x: real): real { x }
  function Square(x: real): real { Mul(x, x) }
  function Deviation(m: real): real -> real { x => Mul(x - m, x - m) }

  function Mean(alpha: real, xs: seq<real>): real { Sum(Weights(alpha, |xs|), xs, Id) }

  function Variance(alpha: real, xs: seq<real>): real { Sum(Weights(alpha, |xs|), xs, Deviation(Mean(alpha, xs))) }

  function Scale(c: real, w: seq<real>): seq<real> {
    seq(|w|, i requires 0 <= i < |w| => Mul(c, w[i]))
  }

  lemma MulSwap(c: real, a: real, p: real)
    ensures Mul(a, Mul(c, p)) == Mul(c, Mul(a, p))
  {
  }

  lemma WeightsStep(alpha: real, n: nat)
    requires n > 0
    ensures Weights(alpha, n + 1) == Scale(1.0 - alpha, Weights(alpha, n)) + [alpha]
  {
    var w, v := Weights(alpha, n + 1), Scale(1.0 - alpha, Weights(alpha, n)) + [alpha];
    assert Mul(alpha, 1.0) == alpha;
    hide Mul;
    forall i | 0 <= i <= n ensures w[i] == v[i] {
      if i < n {
        MulSwap(1.0 - alpha, if i == 0 then 1.0 else alpha, Pow(1.0 - alpha, n - 1 - i));
      }
    }
  }

  lemma Distribute(c: real, s: real, w: real, t: real)
    ensures Mul(c, s) + Mul(Mul(c, w), t) == Mul(c, s + Mul(w, t))
  {
  }

  lemma {:induction false} SumScale(c: real, w: seq<real>, xs: seq<real>, f: real -> real)
    requires |w| == |xs|
    ensures Sum(Scale(c, w), xs, f) == Mul(c, Sum(w, xs, f))
  {
    assert Mul(c, 0.0) == 0.0;
    hide Mul;
    if xs != [] {
      var n := |xs| - 1;
      SumScale(c, w[..n], xs[..n], f);
      assert Scale(c, w)[..n] == Scale(c, w[..n]);
      Distribute(c, Sum(w[..n], xs[..n], f), w[n], f(xs[n]));
    }
  }

  /** One more sample: the old weighted sum fades and the new value enters with weight alpha. */
  lemma SumStep(alpha: real, xs: seq<real>, x: real, f: real -> real)
    requires xs != []
    ensures Sum(Weights(alpha, |xs| + 1), xs + [x], f)
            == Mul(1.0 - alpha, Sum(Weights(alpha, |xs|), xs, f)) + Mul(alpha, f(x))
  {
    hide Mul, Weights, Sum;
    var w := Weights(alpha, |xs|);
    WeightsLength(alpha, |xs|);
    WeightsStep(alpha, |xs|);
    SumSnoc(Scale(1.0 - alpha, w), xs, f, alpha, x);
    SumScale(1.0 - alpha, w, xs, f);
  }

  lemma SumSnoc(w: seq<real>, xs: seq<real>, f: real -> real, a: real, x: real)
    requires |w| == |xs|
    ensures Sum(w + [a], xs + [x], f) == Sum(w, xs, f) + Mul(a, f(x))
  {
    hide Mul;
    assert (w + [a])[..|w|] == w && (xs + [x])[..|xs|] == xs;
  }

  lemma WeightsLength(alpha: real, n: nat)
    ensures |Weights(alpha, n)| == n
  {
  }

  lemma SumOne(alpha: real, x: real, f: real -> real)
    ensures Sum(Weights(alpha, 1), [x], f) == f(x)
  {
    assert Weights(alpha, 1) == [1.0];
    assert [x][..0] == [] && [1.0][..0] == [];
    assert Mul(1.0, f(x)) == f(x);
  }

  /** The weights sum to 1. */
  lemma {:induction false} WeightsSum(alpha: real, xs: seq<real>)
    requires xs != []
    ensures Sum(Weights(alpha, |xs|), xs, One) == 1.0
  {
    var n := |xs| - 1;
    if n == 0 {
      SumOne(alpha, xs[0], One);
    } else {
      WeightsSum(alpha, xs[..n]);
      assert xs == xs[..n] + [xs[n]];
      SumStep(alpha, xs[..n], xs[n], One);
      assert Mul(1.0 - alpha, 1.0) + Mul(alpha, 1.0) == 1.0;
    }
  }

  lemma MulPositive(a: real, b: real)
    requires a > 0.0 && b > 0.0
    ensures Mul(a, b) > 0.0
    ensures a <= 1.0 ==> Mul(a, b) <= b
  {
    assert a * b > 0.0;
    if a <= 1.0 {
      assert (1.0 - a) * b >= 0.0;
    }
  }

  lemma {:induction false} PowRange(b: real, n: nat)
    requires 0.0 < b < 1.0
    ensures 0.0 < Pow(b, n) <= 1.0
  {
    hide Mul;
    if n > 0 {
      PowRange(b, n - 1);
      MulPositive(b, Pow(b, n - 1));
    }
  }

  lemma WeightsPositive(alpha: real, n: nat)
    requires 0.0 < alpha < 1.0
    ensures forall i :: 0 <= i < n ==> Weights(alpha, n)[i] > 0.0
  {
    hide Mul, Pow;
    forall i | 0 <= i < n ensures Weights(alpha, n)[i] > 0.0 {
      PowRange(1.0 - alpha, n - 1 - i);
      MulPositive(if i == 0 then 1.0 else alpha, Pow(1.0 - alpha, n - 1 - i));
    }
  }

  // ----- moments -----

  lemma {:induction false} DeviationMoments(w: seq<real>, xs: seq<real>, m: real)
    requires |w| == |xs|
    ensures Sum(w, xs, Deviation(m)) == Sum(w, xs, Square) - Mul(2.0 * m, Sum(w, xs, Id))
        + Mul(Mul(m, m), Sum(w, xs, One))
  {
    assert Mul(2.0 * m, 0.0) == 0.0 && Mul(Mul(m, m), 0.0) == 0.0;
    hide Mul;
    if xs != [] {
      var n := |xs| - 1;
      DeviationMoments(w[..n], xs[..n], m);
      Expand(w[n], xs[n], m, Sum(w[..n], xs[..n], Square), Sum(w[..n], xs[..n], Id), Sum(w[..n], xs[..n], One));
    }
  }

  lemma Expand(w: real, x: real, m: real, s2: real, s1: real, s0: real)
    ensures (s2 - Mul(2.0 * m, s1) + Mul(Mul(m, m), s0)) + Mul(w, Mul(x - m, x - m))
            == (s2 + Mul(w, Mul(x, x))) - Mul(2.0 * m, s1 + Mul(w, x)) + Mul(Mul(m, m), s0 + Mul(w, 1.0))
  {
    assert (s2 - 2.0 * m * s1 + m * m * s0) + w * ((x - m) * (x - m))
           == (s2 + w * (x * x)) - 2.0 * m * (s1 + w * x) + m * m * (s0 + w * 1.0);
  }

  /** The variance is the second moment minus the squared mean. */
  lemma VarianceMoments(alpha: real, xs: seq<real>)
    requires xs != []
    ensures Variance(alpha, xs) == Sum(Weights(alpha, |xs|), xs, Square) - Mul(Mean(alpha, xs), Mean(alpha, xs))
  {
    var m := Mean(alpha, xs);
    Shift(m);
    hide Mul, Sum, Weights;
    WeightsLength(alpha, |xs|);
    DeviationMoments(Weights(alpha, |xs|), xs, m);
    WeightsSum(alpha, xs);
  }

  lemma Shift(m: real)
    ensures Mul(2.0 * m, m) == Mul(m, m) + Mul(m, m) && Mul(Mul(m, m), 1.0) == Mul(m, m)
  {
  }

  lemma FirstStep(alpha: real, x: real)
    ensures Mean(alpha, [x]) == x && Variance(alpha, [x]) == 0.0
  {
    assert Mul(x - x, x - x) == 0.0;
    hide Sum, Mul, Weights;
    SumOne(alpha, x, Id);
    SumOne(alpha, x, Deviation(x));
  }

  /** The constant-space recurrence computes the weighted mean and variance of all samples. */
  lemma UpdateStep(alpha: real, xs: seq<real>, x: real)
    requires xs != []
    ensures var m, v := Mean(alpha, xs), Variance(alpha, xs);
            var delta := x - m;
            && Mean(alpha, xs + [x]) == NextMean(alpha, m, delta)
            && Variance(alpha, xs + [x]) == NextVariance(alpha, v, delta)
  {
    hide Mul, Sum, Weights, Variance;
    WeightsLength(alpha, |xs|);
    WeightsLength(alpha, |xs| + 1);
    assert |xs + [x]| == |xs| + 1;
    SumStep(alpha, xs, x, Id);
    SumStep(alpha, xs, x, Square);
    VarianceMoments(alpha, xs);
    VarianceMoments(alpha, xs + [x]);
    Recurrence(alpha, Mean(alpha, xs), Sum(Weights(alpha, |xs|), xs, Square), x);
  }

  lemma Recurrence(a: real, m: real, s2: real, x: real)
    ensures Mul(1.0 - a, m) + Mul(a, x) == m + a * (x - m)
    ensures var m' := Mul(1.0 - a, m) + Mul(a, x);
            (Mul(1.0 - a, s2) + Mul(a, Mul(x, x))) - Mul(m', m')
            == (1.0 - a) * ((s2 - Mul(m, m)) + a * (x - m) * (x - m))
  {
    assert ((1.0 - a) * s2 + a * (x * x)) - ((1.0 - a) * m + a * x) * ((1.0 - a) * m + a * x)
           == (1.0 - a) * ((s2 - m * m) + a * (x - m) * (x - m));
  }

  // ----- bounds -----

  lemma MulNonNegative(a: real, b: real)
    requires a >= 0.0 && b >= 0.0
    ensures Mul(a, b) >= 0.0
  {
    assert a * b >= 0.0;
  }

  /** A weighted sum of non-negative terms is non-negative. */
  lemma {:induction false} SumNonNegative(w: seq<real>, xs: seq<real>, f: real -> real)
    requires |w| == |xs| && forall i :: 0 <= i < |xs| ==> w[i] >= 0.0 && f(xs[i]) >= 0.0
    ensures Sum(w, xs, f) >= 0.0
  {
    hide Mul;
    if xs != [] {
      var n := |xs| - 1;
      SumNonNegative(w[..n], xs[..n], f);
      MulNonNegative(w[n], f(xs[n]));
    }
  }

  function Above(lo: real): real -> real { x => x - lo }
  function Below(hi: real): real -> real { x => hi - x }
  function Gap(lo: real, hi: real): real -> real { x => Mul(hi - x, x - lo) }

  lemma {:induction false} LinearMoments(w: seq<real>, xs: seq<real>, lo: real, hi: real)
    requires |w| == |xs|
    ensures Sum(w, xs, Above(lo)) == Sum(w, xs, Id) - Mul(lo, Sum(w, xs, One))
    ensures Sum(w, xs, Below(hi)) == Mul(hi, Sum(w, xs, One)) - Sum(w, xs, Id)
  {
    assert Mul(lo, 0.0) == 0.0 && Mul(hi, 0.0) == 0.0;
    hide Mul;
    if xs != [] {
      var n := |xs| - 1;
      LinearMoments(w[..n], xs[..n], lo, hi);
      LinearExpand(w[n], xs[n], lo, Sum(w[..n], xs[..n], One));
      LinearExpand(w[n], xs[n], hi, Sum(w[..n], xs[..n], One));
    }
  }

  lemma LinearExpand(w: real, x: real, b: real, s0: real)
    ensures Mul(w, x - b) - Mul(b, s0) == Mul(w, x) - Mul(b, s0 + Mul(w, 1.0))
    ensures Mul(w, b - x) + Mul(b, s0) == Mul(b, s0 + Mul(w, 1.0)) - Mul(w, x)
  {
    assert w * (x - b) == w * x - w * b && b * (s0 + w * 1.0) == b * s0 + b * w;
  }

  lemma {:induction false} GapMoments(w: seq<real>, xs: seq<real>, lo: real, hi: real)
    requires |w| == |xs|
    ensures Sum(w, xs, Gap(lo, hi)) ==
            Mul(hi + lo, Sum(w, xs, Id)) - Sum(w, xs, Square) - Mul(Mul(hi, lo), Sum(w, xs, One))
  {
    assert Mul(hi + lo, 0.0) == 0.0 && Mul(Mul(hi, lo), 0.0) == 0.0;
    hide Mul;
    if xs != [] {
      var n := |xs| - 1;
      GapMoments(w[..n], xs[..n], lo, hi);
      GapExpand(w[n], xs[n], lo, hi, Sum(w[..n], xs[..n], Square), Sum(w[..n], xs[..n], Id), Sum(w[..n], xs[..n], One));
    }
  }

  lemma GapExpand(w: real, x: real, lo: real, hi: real, s2: real, s1: real, s0: real)
    ensures (Mul(hi + lo, s1) - s2 - Mul(Mul(hi, lo), s0)) + Mul(w, Mul(hi - x, x - lo))
            == Mul(hi + lo, s1 + Mul(w, x)) - (s2 + Mul(w, Mul(x, x))) - Mul(Mul(hi, lo), s0 + Mul(w, 1.0))
  {
    assert ((hi + lo) * s1 - s2 - hi * lo * s0) + w * ((hi - x) * (x - lo))
           == (hi + lo) * (s1 + w * x) - (s2 + w * (x * x)) - hi * lo * (s0 + w * 1.0);
  }

  lemma GapProduct(lo: real, hi: real, m: real)
    ensures (hi - m) * (m - lo) == Mul(hi + lo, m) - Mul(m, m) - Mul(Mul(hi, lo), 1.0)
    ensures Mul(lo, 1.0) == lo && Mul(hi, 1.0) == hi
  {
    assert (hi - m) * (m - lo) == (hi + lo) * m - m * m - (hi * lo) * 1.0;
  }

  /** The mean lies between the extremes, and the variance is at most (max - mean)(mean - min). */
  lemma Bounds(alpha: real, xs: seq<real>, lo: real, hi: real)
    requires 0.0 < alpha < 1.0 && xs != [] && forall i :: 0 <= i < |xs| ==> lo <= xs[i] <= hi
    ensures lo <= Mean(alpha, xs) <= hi
    ensures 0.0 <= Variance(alpha, xs) <= (hi - Mean(alpha, xs)) * (Mean(alpha, xs) - lo)
  {
    hide Mul, Sum, Weights;
    var w, m := Weights(alpha, |xs|), Mean(alpha, xs);
    WeightsLength(alpha, |xs|);
    WeightsPositive(alpha, |xs|);
    WeightsSum(alpha, xs);
    LinearMoments(w, xs, lo, hi);
    GapProduct(lo, hi, m);
    SumNonNegative(w, xs, Above(lo));
    SumNonNegative(w, xs, Below(hi));
    forall i | 0 <= i < |xs| ensures Gap(lo, hi)(xs[i]) >= 0.0 && Deviation(m)(xs[i]) >= 0.0 {
      MulNonNegative(hi - xs[i], xs[i] - lo);
      SquareNonNegative(xs[i] - m);
    }
    SumNonNegative(w, xs, Gap(lo, hi));
    SumNonNegative(w, xs, Deviation(m));
    GapMoments(w, xs, lo, hi);
    VarianceMoments(alpha, xs);
    assert Variance(alpha, xs) <= (hi - m) * (m - lo);
  }

  lemma SquareNonNegative(x: real)
    ensures Mul(x, x) >= 0.0
    ensures x != 0.0 ==> Mul(x, x) > 0.0
  {
    if x > 0.0 {
      MulPositive(x, x);
    } else if x < 0.0 {
      MulPositive(-x, -x);
      assert Mul(-x, -x) == Mul(x, x);
    }
  }

  lemma MeanNonNegative(alpha: real, xs: seq<real>)
    requires 0.0 < alpha < 1.0 && xs != [] && forall i :: 0 <= i < |xs| ==> xs[i] >= 0.0
    ensures Mean(alpha, xs) >= 0.0
  {
    hide Mul, Sum, Weights;
    WeightsLength(alpha, |xs|);
    WeightsPositive(alpha, |xs|);
    SumNonNegative(Weights(alpha, |xs|), xs, Id);
  }

  // ----- how much weight a prediction interval misses -----

  function IsOutside(lower: real, upper: real): real -> real {
    x => if lower <= x <= upper then 0.0 else 1.0
  }

  /** The weight of the samples outside an interval. */
  function Outside(w: seq<real>, xs: seq<real>, lower: real, upper: real): real
    requires |w| == |xs|
  {
    Sum(w, xs, IsOutside(lower, upper))
  }

  lemma MonotoneStep(c: real, s: real, w: real, t: real, u: real)
    requires w >= 0.0 && Mul(c, t) <= u
    ensures Mul(c, s + Mul(w, t)) <= Mul(c, s) + Mul(w, u)
  {
    assert c * (s + w * t) == c * s + w * (c * t);
    assert w * (u - c * t) >= 0.0;
  }

  lemma {:induction false} SumMonotone(w: seq<real>, xs: seq<real>, f: real -> real, g: real -> real, c: real)
    requires |w| == |xs| && forall i :: 0 <= i < |xs| ==> w[i] >= 0.0 && Mul(c, f(xs[i])) <= g(xs[i])
    ensures Mul(c, Sum(w, xs, f)) <= Sum(w, xs, g)
  {
    assert Mul(c, 0.0) == 0.0;
    hide Mul;
    if xs != [] {
      var n := |xs| - 1;
      SumMonotone(w[..n], xs[..n], f, g, c);
      MonotoneStep(c, Sum(w[..n], xs[..n], f), w[n], f(xs[n]), g(xs[n]));
    }
  }

  lemma {:induction false} SumZero(w: seq<real>, xs: seq<real>, m: real)
    requires |w| == |xs| && (forall i :: 0 <= i < |xs| ==> w[i] > 0.0) && Sum(w, xs, Deviation(m)) <= 0.0
    ensures forall i :: 0 <= i < |xs| ==> xs[i] == m
  {
    hide Mul;
    if xs != [] {
      var n := |xs| - 1;
      forall i | 0 <= i < |xs| ensures Deviation(m)(xs[i]) >= 0.0 {
        SquareNonNegative(xs[i] - m);
      }
      SumNonNegative(w[..n], xs[..n], Deviation(m));
      SquareNonNegative(xs[n] - m);
      MulNonNegative(w[n], Mul(xs[n] - m, xs[n] - m));
      if xs[n] != m {
        MulPositive(w[n], Mul(xs[n] - m, xs[n] - m));
      }
      SumZero(w[..n], xs[..n], m);
    }
  }

  lemma Far(x: real, m: real, s: real)
    requires s >= 0.0 && (x < m - 2.0 * s || x > m + 2.0 * s)
    ensures Mul(4.0 * (s * s), 1.0) <= Mul(x - m, x - m)
  {
    var d := if x < m then m - x else x - m;
    assert d * d == (x - m) * (x - m);
    assert (d - 2.0 * s) * (d + 2.0 * s) >= 0.0;
    assert (d - 2.0 * s) * (d + 2.0 * s) == d * d - 4.0 * (s * s);
  }

  /** Chebyshev: at most a quarter of the weight lies outside two standard deviations. */
  lemma FewOutside(alpha: real, xs: seq<real>, s: real, lower: real, upper: real)
    requires 0.0 < alpha < 1.0 && xs != [] && forall i :: 0 <= i < |xs| ==> xs[i] >= 0.0
    requires s >= 0.0 && s * s == Variance(alpha, xs)
    requires lower == Max(Mean(alpha, xs) - 2.0 * s, 0.0) && upper == Mean(alpha, xs) + 2.0 * s
    ensures |Weights(alpha, |xs|)| == |xs|
    ensures Outside(Weights(alpha, |xs|), xs, lower, upper) <= 0.25
  {
    hide Sum, Weights;
    var w, m := Weights(alpha, |xs|), Mean(alpha, xs);
    WeightsLength(alpha, |xs|);
    WeightsPositive(alpha, |xs|);
    var v := s * s;
    assert Mul(4.0 * v, 0.0) == 0.0 && Mul(1.0, 0.0) == 0.0;
    assert v == Sum(w, xs, Deviation(m));
    forall i | 0 <= i < |xs| ensures Mul(4.0 * v, IsOutside(lower, upper)(xs[i])) <= Deviation(m)(xs[i]) {
      FarOrNear(xs[i], m, s, lower, upper);
    }
    hide Mul;
    SumMonotone(w, xs, IsOutside(lower, upper), Deviation(m), 4.0 * v);
    Quarter(v, Outside(w, xs, lower, upper));
    if v <= 0.0 {
      NoneOutside(w, xs, m, s, lower, upper);
    }
  }

  lemma FarOrNear(x: real, m: real, s: real, lower: real, upper: real)
    requires s >= 0.0 && lower == Max(m - 2.0 * s, 0.0) && upper == m + 2.0 * s && x >= 0.0
    ensures Mul(4.0 * (s * s), IsOutside(lower, upper)(x)) <= Deviation(m)(x)
  {
    if lower <= x <= upper {
      SquareNonNegative(x - m);
    } else {
      Far(x, m, s);
    }
  }

  /** Without variance every sample is the mean. */
  lemma NoneOutside(w: seq<real>, xs: seq<real>, m: real, s: real, lower: real, upper: real)
    requires |w| == |xs| && (forall i :: 0 <= i < |xs| ==> w[i] > 0.0 && xs[i] >= 0.0)
    requires Sum(w, xs, Deviation(m)) <= 0.0 && s >= 0.0
    requires lower == Max(m - 2.0 * s, 0.0) && upper == m + 2.0 * s
    ensures Outside(w, xs, lower, upper) <= 0.0
  {
    SumZero(w, xs, m);
    hide Sum, Mul;
    forall i | 0 <= i < |xs| ensures Mul(1.0, IsOutside(lower, upper)(xs[i])) <= Deviation(m)(xs[i]) {
      UnitMul(0.0);
      SquareNonNegative(xs[i] - m);
    }
    SumMonotone(w, xs, IsOutside(lower, upper), Deviation(m), 1.0);
    UnitMul(Outside(w, xs, lower, upper));
  }

  lemma UnitMul(x: real)
    ensures Mul(1.0, x) == x
  {
  }

  lemma Quarter(v: real, out: real)
    requires Mul(4.0 * v, out) <= v
    ensures v > 0.0 ==> out <= 0.25
  {
    if v > 0.0 {
      assert (4.0 * v) * (out - 0.25) <= 0.0;
    }
  }
}
