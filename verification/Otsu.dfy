/** Otsu thresholding of an arbitrary histogram: the variances, and the running-sum search. */
module Otsu {

  type Pixel = p: int | 0 <= p < 256

  // ---------------------------------------------------------------------------------------
  // Reference definitions over an arbitrary histogram
  // ---------------------------------------------------------------------------------------

  // Number of pixels in bins lo..hi.
  function Count(h: seq<nat>, lo: nat, hi: nat): nat
    requires lo <= hi <= |h|
  {
    if lo == hi then 0 else Count(h, lo, hi - 1) + h[hi - 1]
  }

  // Sum of the grey values of the pixels in bins lo..hi.
  function Mass(h: seq<nat>, lo: nat, hi: nat): nat
    requires lo <= hi <= |h|
  {
    if lo == hi then 0 else Mass(h, lo, hi - 1) + h[hi - 1] * (hi - 1)
  }

  ghost function Mean(h: seq<nat>, lo: nat, hi: nat): real
    requires lo <= hi <= |h|
    requires Count(h, lo, hi) > 0
  {
    Mass(h, lo, hi) as real / Count(h, lo, hi) as real
  }

  // Sum of squared distances from m of the pixels in bins lo..hi.
  ghost function Spread(h: seq<nat>, lo: nat, hi: nat, m: real): real
    requires lo <= hi <= |h|
  {
    if lo == hi then 0.0
    else Spread(h, lo, hi - 1, m) + h[hi - 1] as real * (((hi - 1) as real - m) * ((hi - 1) as real - m))
  }

  // Threshold u separates bins 0..u from bins u+1.., and neither class is empty.
  ghost predicate Splits(h: seq<nat>, u: int) {
    0 <= u < |h| && Count(h, 0, u + 1) > 0 && Count(h, u + 1, |h|) > 0
  }

  // Variance between two classes of w0 and w1 pixels out of n, with means m0 and m1.
  ghost function BetweenOf(w0: real, w1: real, n: real, m0: real, m1: real): real
    requires n != 0.0
  {
    (w0 / n) * (w1 / n) * (m0 - m1) * (m0 - m1)
  }

  ghost function PerPixel(spread: real, n: real): real
    requires n != 0.0
  {
    spread / n
  }

  ghost function Between(h: seq<nat>, u: int): real
    requires Splits(h, u)
  {
    CountSplit(h, 0, u + 1, |h|);
    BetweenOf(Count(h, 0, u + 1) as real, Count(h, u + 1, |h|) as real, Count(h, 0, |h|) as real,
              Mean(h, 0, u + 1), Mean(h, u + 1, |h|))
  }

  ghost function Within(h: seq<nat>, u: int): real
    requires Splits(h, u)
  {
    CountSplit(h, 0, u + 1, |h|);
    PerPixel(Spread(h, 0, u + 1, Mean(h, 0, u + 1)) + Spread(h, u + 1, |h|, Mean(h, u + 1, |h|)),
             Count(h, 0, |h|) as real)
  }

  ghost function Total(h: seq<nat>): real
    requires Count(h, 0, |h|) > 0
  {
    PerPixel(Spread(h, 0, |h|, Mean(h, 0, |h|)), Count(h, 0, |h|) as real)
  }

  // t is the smallest threshold of largest between-class variance.
  ghost predicate IsBest(h: seq<nat>, t: int) {
    && Splits(h, t)
    && (forall u :: Splits(h, u) ==> Between(h, u) <= Between(h, t))
    && (forall u :: Splits(h, u) && u < t ==> Between(h, u) < Between(h, t))
  }

  // At least two bins are in use.
  ghost predicate Varied(h: seq<nat>) {
    exists i, j :: 0 <= i < j < |h| && h[i] > 0 && h[j] > 0
  }

  // What the search answers when fewer than two bins are in use.
  function Fallback(h: seq<nat>): Pixel
    requires |h| == 256
  {
    if h[255] > 0 then 255 else if h[254] > 0 then 254 else 0
  }

  // ---------------------------------------------------------------------------------------
  // Sums
  // ---------------------------------------------------------------------------------------

  lemma {:induction false} CountSplit(h: seq<nat>, lo: nat, mid: nat, hi: nat)
    requires lo <= mid <= hi <= |h|
    ensures Count(h, lo, hi) == Count(h, lo, mid) + Count(h, mid, hi)
    ensures Mass(h, lo, hi) == Mass(h, lo, mid) + Mass(h, mid, hi)
  {
    if mid < hi {
      CountSplit(h, lo, mid, hi - 1);
    }
  }

  lemma {:induction false} SpreadSplit(h: seq<nat>, lo: nat, mid: nat, hi: nat, m: real)
    requires lo <= mid <= hi <= |h|
    ensures Spread(h, lo, hi, m) == Spread(h, lo, mid, m) + Spread(h, mid, hi, m)
  {
    if mid < hi {
      SpreadSplit(h, lo, mid, hi - 1, m);
    }
  }

  // A class is empty exactly when all its bins are.
  lemma {:induction false} CountZero(h: seq<nat>, lo: nat, hi: nat)
    requires lo <= hi <= |h|
    ensures Count(h, lo, hi) == 0 <==> forall k :: lo <= k < hi ==> h[k] == 0
    ensures Count(h, lo, hi) == 0 ==> Mass(h, lo, hi) == 0
  {
    if lo < hi {
      CountZero(h, lo, hi - 1);
    }
  }

  // A histogram has a split exactly when two of its bins are in use.
  lemma VariedSplits(h: seq<nat>)
    ensures Varied(h) <==> exists u :: Splits(h, u)
  {
    if Varied(h) {
      var i, j :| 0 <= i < j < |h| && h[i] > 0 && h[j] > 0;
      CountZero(h, 0, i + 1);
      CountZero(h, i + 1, |h|);
      assert Splits(h, i);
    }
    if exists u :: Splits(h, u) {
      var u :| Splits(h, u);
      CountZero(h, 0, u + 1);
      CountZero(h, u + 1, |h|);
    }
  }

  // Thresholds that split lie in [lowest bin in use, highest bin in use).
  lemma SplitRange(h: seq<nat>, u: int, lo: nat, hi: nat)
    requires lo <= hi < |h| && h[lo] > 0 && h[hi] > 0
    requires forall k :: 0 <= k < |h| && h[k] > 0 ==> lo <= k <= hi
    ensures Splits(h, u) <==> lo <= u < hi
  {
    if 0 <= u < |h| {
      CountZero(h, 0, u + 1);
      CountZero(h, u + 1, |h|);
    }
  }

  // ---------------------------------------------------------------------------------------
  // Total variance = within-class + between-class
  // ---------------------------------------------------------------------------------------

  // The spread about m in terms of the power sums s2, s1, s0.
  ghost function Expanded(s2: real, s1: real, s0: real, m: real): real {
    s2 - 2.0 * m * s1 + m * m * s0
  }

  ghost predicate IsMean(m: real, s1: real, s0: real) {
    s0 > 0.0 && m * s0 == s1
  }

  ghost function Scaled(n: real, b: real): real {
    n * b
  }

  lemma {:induction false} SpreadExpand(h: seq<nat>, lo: nat, hi: nat, m: real)
    requires lo <= hi <= |h|
    ensures Spread(h, lo, hi, m)
         == Expanded(Spread(h, lo, hi, 0.0), Mass(h, lo, hi) as real, Count(h, lo, hi) as real, m)
  {
    hide *;
    ExpandEmpty(h, lo, m);
    if lo < hi {
      SpreadExpand(h, lo, hi - 1, m);
      Unfold(h, lo, hi, m);
      Unfold(h, lo, hi, 0.0);
      UnfoldSums(h, lo, hi);
      ExpandStep(Spread(h, lo, hi - 1, m), Spread(h, lo, hi - 1, 0.0), Mass(h, lo, hi - 1) as real,
                 Count(h, lo, hi - 1) as real, h[hi - 1] as real, (hi - 1) as real, m,
                 Spread(h, lo, hi, m), Spread(h, lo, hi, 0.0), Mass(h, lo, hi) as real, Count(h, lo, hi) as real);
    }
  }

  lemma ExpandEmpty(h: seq<nat>, lo: nat, m: real)
    requires lo <= |h|
    ensures Spread(h, lo, lo, m)
         == Expanded(Spread(h, lo, lo, 0.0), Mass(h, lo, lo) as real, Count(h, lo, lo) as real, m)
  {
  }

  lemma Unfold(h: seq<nat>, lo: nat, hi: nat, m: real)
    requires lo < hi <= |h|
    ensures Spread(h, lo, hi, m)
         == Spread(h, lo, hi - 1, m) + h[hi - 1] as real * (((hi - 1) as real - m) * ((hi - 1) as real - m))
  {
    hide Mass, Count;
  }

  lemma UnfoldSums(h: seq<nat>, lo: nat, hi: nat)
    requires lo < hi <= |h|
    ensures Mass(h, lo, hi) as real == Mass(h, lo, hi - 1) as real + h[hi - 1] as real * (hi - 1) as real
    ensures Count(h, lo, hi) as real == Count(h, lo, hi - 1) as real + h[hi - 1] as real
  {
    assert Mass(h, lo, hi) == Mass(h, lo, hi - 1) + h[hi - 1] * (hi - 1);
    hide Mass;
    RealProduct(h[hi - 1], hi - 1);
  }

  lemma RealProduct(a: int, b: int)
    ensures (a * b) as real == a as real * b as real
  {
  }

  lemma ExpandStep(s: real, s2: real, s1: real, s0: real, c: real, x: real, m: real,
                   t: real, t2: real, t1: real, t0: real)
    requires s == Expanded(s2, s1, s0, m)
    requires t == s + c * ((x - m) * (x - m)) && t2 == s2 + c * ((x - 0.0) * (x - 0.0))
    requires t1 == s1 + c * x && t0 == s0 + c
    ensures t == Expanded(t2, t1, t0, m)
  {
    assert c * ((x - m) * (x - m)) == c * (x * x) - 2.0 * m * (c * x) + m * m * c;
  }

  lemma MeanIsMean(h: seq<nat>, lo: nat, hi: nat)
    requires lo <= hi <= |h| && Count(h, lo, hi) > 0
    ensures IsMean(Mean(h, lo, hi), Mass(h, lo, hi) as real, Count(h, lo, hi) as real)
  {
    hide Mass, Count;
  }

  // n times the between-class variance is what separate means save over a common one.
  lemma PooledMeans(w0: real, w1: real, n: real, m0: real, m1: real, m: real, a0: real, a1: real, q0: real, q1: real)
    requires n == w0 + w1
    requires IsMean(m0, a0, w0) && IsMean(m1, a1, w1) && IsMean(m, a0 + a1, n)
    ensures Expanded(q0 + q1, a0 + a1, n, m)
         == Expanded(q0, a0, w0, m0) + Expanded(q1, a1, w1, m1) + Scaled(n, BetweenOf(w0, w1, n, m0, m1))
  {
    var d, p, q := m0 - m1, w0 / n, w1 / n;
    var saved := m0 * m0 * w0 + m1 * m1 * w1 - m * m * n;
    calc {
      n * saved;
      n * (m0 * m0 * w0) + n * (m1 * m1 * w1) - (m * n) * (m * n);
      { assert m * n == m0 * w0 + m1 * w1; }
      w0 * w1 * (d * d);
    }
    assert w0 == p * n && w1 == q * n;
    assert n * (n * (p * q * d * d)) == (p * n) * (q * n) * (d * d);
    assert saved == n * BetweenOf(w0, w1, n, m0, m1);
    CentreSum(m0, w0, a0, q0);
    CentreSum(m1, w1, a1, q1);
    CentreSum(m, n, a0 + a1, q0 + q1);
  }

  lemma CentreSum(m: real, s0: real, s1: real, s2: real)
    requires IsMean(m, s1, s0)
    ensures Expanded(s2, s1, s0, m) == s2 - m * m * s0
  {
    assert m * s1 == m * (m * s0) == m * m * s0;
  }

  lemma DivideThrough(n: real, total: real, within: real, b: real)
    requires n > 0.0 && total == within + Scaled(n, b)
    ensures PerPixel(total, n) == PerPixel(within, n) + b
  {
    assert (within + n * b) / n == within / n + (n * b) / n;
  }

  // Total variance is the sum of the within-class and the between-class variance.
  lemma Decomposition(h: seq<nat>, u: int)
    requires Splits(h, u)
    ensures Count(h, 0, |h|) > 0
    ensures Total(h) == Within(h, u) + Between(h, u)
  {
    hide Count, Mass, Mean, Spread, PerPixel, BetweenOf, Expanded, Scaled, IsMean;
    CountSplit(h, 0, u + 1, |h|);
    SpreadSplit(h, 0, u + 1, |h|, 0.0);
    var w0, w1, n := Count(h, 0, u + 1) as real, Count(h, u + 1, |h|) as real, Count(h, 0, |h|) as real;
    var a0, a1 := Mass(h, 0, u + 1) as real, Mass(h, u + 1, |h|) as real;
    var m0, m1, m := Mean(h, 0, u + 1), Mean(h, u + 1, |h|), Mean(h, 0, |h|);
    var q0, q1 := Spread(h, 0, u + 1, 0.0), Spread(h, u + 1, |h|, 0.0);
    SpreadExpand(h, 0, u + 1, m0);
    SpreadExpand(h, u + 1, |h|, m1);
    SpreadExpand(h, 0, |h|, m);
    MeanIsMean(h, 0, u + 1);
    MeanIsMean(h, u + 1, |h|);
    MeanIsMean(h, 0, |h|);
    assert Mass(h, 0, |h|) as real == a0 + a1 && Spread(h, 0, |h|, 0.0) == q0 + q1;
    PooledMeans(w0, w1, n, m0, m1, m, a0, a1, q0, q1);
    DivideThrough(n, Spread(h, 0, |h|, m), Spread(h, 0, u + 1, m0) + Spread(h, u + 1, |h|, m1),
                  BetweenOf(w0, w1, n, m0, m1));
  }

  // The threshold of largest between-class variance is also the one of least within-class
  // variance, and the smallest such.
  lemma BestMinimisesWithin(h: seq<nat>, t: int)
    requires IsBest(h, t)
    ensures forall u :: Splits(h, u) ==> Within(h, t) <= Within(h, u)
    ensures forall u :: Splits(h, u) && u < t ==> Within(h, t) < Within(h, u)
  {
    Decomposition(h, t);
    forall u | Splits(h, u)
      ensures Within(h, t) <= Within(h, u) && (u < t ==> Within(h, t) < Within(h, u))
    {
      Decomposition(h, u);
      assert Between(h, u) <= Between(h, t);
    }
  }

  // ---------------------------------------------------------------------------------------
  // The search
  // ---------------------------------------------------------------------------------------

  // One step of the running sums gives the between-class variance of threshold j.
  lemma StepSigma(h: seq<nat>, j: nat)
    requires j < |h| && Count(h, 0, j + 1) > 0
    ensures Count(h, 0, |h|) >= Count(h, 0, j + 1)
    ensures Count(h, 0, |h|) == Count(h, 0, j + 1) <==> !Splits(h, j)
    ensures Splits(h, j) ==>
      var n, back, fore := Count(h, 0, |h|), Count(h, 0, j + 1), Count(h, 0, |h|) - Count(h, 0, j + 1);
      Between(h, j) == BetweenOf(back as real, fore as real, n as real, Mass(h, 0, j + 1) as real / back as real,
                                 (Mass(h, 0, |h|) - Mass(h, 0, j + 1)) as real / fore as real)
  {
    CountSplit(h, 0, j + 1, |h|);
  }

  lemma BetweenNonNegative(h: seq<nat>, u: int)
    requires Splits(h, u)
    ensures Between(h, u) >= 0.0
  {
    CountSplit(h, 0, u + 1, |h|);
    hide Count, Mean;
    var n := Count(h, 0, |h|) as real;
    var p, q := Count(h, 0, u + 1) as real / n, Count(h, u + 1, |h|) as real / n;
    var d := Mean(h, 0, u + 1) - Mean(h, u + 1, |h|);
    assert p >= 0.0 && q >= 0.0;
    assert p * q >= 0.0 && d * d >= 0.0;
    assert (p * q) * (d * d) >= 0.0;
    assert (p * q) * (d * d) == p * q * d * d;
  }

  // Best threshold among those below j, as the loop keeps it; -1 means none seen yet.
  ghost predicate BestBelow(h: seq<nat>, j: int, t: int, sigma: real) {
    if sigma < 0.0 then t == 0 && forall u :: u < j ==> !Splits(h, u)
    else
      && t < j && Splits(h, t) && sigma == Between(h, t)
      && (forall u :: Splits(h, u) && u < j ==> Between(h, u) <= sigma)
      && (forall u :: Splits(h, u) && u < t ==> Between(h, u) < sigma)
  }

  lemma BestStart(h: seq<nat>, lo: nat)
    requires lo <= |h| && forall k :: 0 <= k < lo ==> h[k] == 0
    ensures Count(h, 0, lo) == Mass(h, 0, lo) == 0
    ensures BestBelow(h, lo, 0, -1.0)
  {
    CountZero(h, 0, lo);
    forall u | 0 <= u < lo ensures !Splits(h, u) { CountZero(h, 0, u + 1); }
  }

  // Taking j when it beats the best so far, and only then, keeps the best.
  lemma BestStep(h: seq<nat>, j: nat, t: int, sigma: real)
    requires j < |h| && BestBelow(h, j, t, sigma)
    ensures !Splits(h, j) ==> BestBelow(h, j + 1, t, sigma)
    ensures Splits(h, j) && Between(h, j) > sigma ==> BestBelow(h, j + 1, j, Between(h, j))
    ensures Splits(h, j) && Between(h, j) <= sigma ==> BestBelow(h, j + 1, t, sigma)
  {
    if Splits(h, j) {
      BetweenNonNegative(h, j);
    }
  }

  lemma BestEnd(h: seq<nat>, lo: nat, j: nat, t: int, sigma: real)
    requires |h| == 256 && BestBelow(h, j, t, sigma) && j >= 255
    requires lo < 254 || lo == 256
    requires (forall k :: 0 <= k < lo ==> h[k] == 0) && (lo < 254 ==> h[lo] > 0)
    ensures Varied(h) ==> IsBest(h, t)
    ensures !Varied(h) ==> t == Fallback(h)
  {
    VariedSplits(h);
    assert forall u :: u >= 255 ==> !Splits(h, u);
  }

  // The bin counts up to j, and no less than the first used bin, are positive.
  lemma CountPositive(h: seq<nat>, lo: nat, j: nat)
    requires lo <= j < |h| && h[lo] > 0
    ensures Count(h, 0, j + 1) > 0
  {
    CountZero(h, 0, j + 1);
  }

  lemma Running(h: seq<nat>, j: nat)
    requires j < |h|
    ensures Count(h, 0, j + 1) == Count(h, 0, j) + h[j]
    ensures Mass(h, 0, j + 1) == Mass(h, 0, j) + h[j] * j
  {
  }

  // The scan for the largest value in use tests the bin at minValue, not the one at maxValue.
  method LargestFrom(histogram: array<nat>, minValue: nat) returns (maxValue: int)
    requires histogram.Length == 256 && minValue <= 256
    ensures maxValue == if minValue < 255 && histogram[minValue] == 0 then minValue else 255
  {
    maxValue := 255;
    while maxValue > minValue && histogram[minValue] == 0
      invariant minValue <= maxValue <= 255 || maxValue == 255
      invariant maxValue == 255 || histogram[minValue] == 0
    {
      maxValue := maxValue - 1;
    }
  }

  method SolveOtsu(histogram: array<nat>) returns (threshold: Pixel)
    requires histogram.Length == 256
    ensures Varied(histogram[..]) ==> IsBest(histogram[..], threshold)
    ensures !Varied(histogram[..]) ==> threshold == Fallback(histogram[..])
  {
    ghost var h := histogram[..];
    var minValue := 0;
    while minValue < 256 && histogram[minValue] == 0
      invariant 0 <= minValue <= 256
      invariant forall k :: 0 <= k < minValue ==> h[k] == 0
    {
      minValue := minValue + 1;
    }
    var maxValue := LargestFrom(histogram, minValue);
    if maxValue == minValue {
      assert !Varied(h);
      return maxValue;
    }
    if minValue + 1 == maxValue {
      EarlyPair(h);
      return minValue;
    }
    hide *;
    BestStart(h, minValue);
    var amount, integral := 0, 0;
    var j := minValue;
    while j <= maxValue
      invariant minValue <= j <= 256
      invariant amount == Count(h, 0, j) && integral == Mass(h, 0, j)
    {
      Running(h, j);
      amount := amount + histogram[j];
      integral := integral + histogram[j] * j;
      j := j + 1;
    }
    var pixelBack, integralBack := 0, 0;
    var sigmaB := -1.0;
    threshold := 0;
    j := minValue;
    while j < maxValue
      invariant minValue <= j <= 255 || j == minValue
      invariant pixelBack == Count(h, 0, j) && integralBack == Mass(h, 0, j)
      invariant BestBelow(h, j, threshold, sigmaB)
    {
      Running(h, j);
      CountPositive(h, minValue, j);
      StepSigma(h, j);
      BestStep(h, j, threshold, sigmaB);
      pixelBack := pixelBack + histogram[j];
      var pixelFore := amount - pixelBack;
      integralBack := integralBack + histogram[j] * j;
      var integralFore := integral - integralBack;
      // With no foreground the quotient is 0/0, and a comparison with NaN is false.
      if pixelFore != 0 {
        var omegaBack := pixelBack as real / amount as real;
        var omegaFore := pixelFore as real / amount as real;
        var microBack := integralBack as real / pixelBack as real;
        var microFore := integralFore as real / pixelFore as real;
        var sigma := omegaBack * omegaFore * (microBack - microFore) * (microBack - microFore);
        SigmaIs(omegaBack, omegaFore, microBack, microFore, pixelBack as real, pixelFore as real, amount as real);
        if sigma > sigmaB {
          sigmaB := sigma;
          threshold := j;
        }
      }
      j := j + 1;
    }
    BestEnd(h, minValue, j, threshold, sigmaB);
  }

  lemma SigmaIs(omegaBack: real, omegaFore: real, microBack: real, microFore: real, w0: real, w1: real, n: real)
    requires n != 0.0 && omegaBack == w0 / n && omegaFore == w1 / n
    ensures omegaBack * omegaFore * (microBack - microFore) * (microBack - microFore)
         == BetweenOf(w0, w1, n, microBack, microFore)
  {
  }

  lemma EarlyPair(h: seq<nat>)
    requires |h| == 256 && h[254] > 0 && forall k :: 0 <= k < 254 ==> h[k] == 0
    ensures Varied(h) ==> IsBest(h, 254)
    ensures !Varied(h) ==> Fallback(h) == 254
  {
    if Varied(h) {
      assert h[255] > 0;
      forall u ensures Splits(h, u) <==> u == 254 { SplitRange(h, u, 254, 255); }
    } else {
      assert h[255] == 0;
    }
  }
}
