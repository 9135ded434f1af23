/** Variance of the midline about its truncated mean. */
module Variance {

  // Sums over the rows lo..hi.
  function Sum(s: seq<int>, lo: nat, hi: nat): int
    requires lo <= hi <= |s|
  {
    if lo == hi then 0 else Sum(s, lo, hi - 1) + s[hi - 1]
  }

  function Squared(x: int): int {
    x * x
  }

  function SumSquares(s: seq<int>, lo: nat, hi: nat): int
    requires lo <= hi <= |s|
  {
    if lo == hi then 0 else SumSquares(s, lo, hi - 1) + Squared(s[hi - 1])
  }

  function Spread(s: seq<int>, lo: nat, hi: nat, a: int): int
    requires lo <= hi <= |s|
  {
    if lo == hi then 0 else Spread(s, lo, hi - 1, a) + Squared(s[hi - 1] - a)
  }

  // Integer conversion of the quotient, which rounds towards zero.
  function TruncatedMean(sum: int, n: nat): int
    requires n > 0
  {
    if sum >= 0 then sum / n else -((-sum) / n)
  }

  // ---------------------------------------------------------------------------------------
  // Reference: the population variance
  // ---------------------------------------------------------------------------------------

  function RealSquared(x: real): real {
    x * x
  }

  ghost function RealSpread(s: seq<int>, lo: nat, hi: nat, m: real): real
    requires lo <= hi <= |s|
  {
    if lo == hi then 0.0 else RealSpread(s, lo, hi - 1, m) + RealSquared(s[hi - 1] as real - m)
  }

  ghost function TrueVariance(s: seq<int>, lo: nat, hi: nat): real
    requires lo < hi <= |s|
  {
    RealSpread(s, lo, hi, Sum(s, lo, hi) as real / (hi - lo) as real) / (hi - lo) as real
  }

  // ---------------------------------------------------------------------------------------
  // The identity
  // ---------------------------------------------------------------------------------------

  ghost function Expanded(n: real, s1: real, s2: real, m: real): real {
    s2 - 2.0 * m * s1 + n * m * m
  }

  lemma ExpandedStep(n: real, s1: real, s2: real, m: real, x: real)
    ensures Expanded(n, s1, s2, m) + RealSquared(x - m) == Expanded(n + 1.0, s1 + x, s2 + RealSquared(x), m)
  {
  }

  lemma ExpandedEmpty(m: real)
    ensures Expanded(0.0, 0.0, 0.0, m) == 0.0
  {
  }

  lemma SquareOfReal(x: int)
    ensures Squared(x) as real == RealSquared(x as real)
  {
  }

  lemma Unfold(s: seq<int>, lo: nat, hi: nat, m: real, a: int)
    requires lo <= hi <= |s|
    ensures lo == hi ==>
      Sum(s, lo, hi) == SumSquares(s, lo, hi) == Spread(s, lo, hi, a) == 0 && RealSpread(s, lo, hi, m) == 0.0
    ensures lo < hi ==>
      && Sum(s, lo, hi) == Sum(s, lo, hi - 1) + s[hi - 1]
      && SumSquares(s, lo, hi) == SumSquares(s, lo, hi - 1) + Squared(s[hi - 1])
      && Spread(s, lo, hi, a) == Spread(s, lo, hi - 1, a) + Squared(s[hi - 1] - a)
      && RealSpread(s, lo, hi, m) == RealSpread(s, lo, hi - 1, m) + RealSquared(s[hi - 1] as real - m)
  {
    hide Squared, RealSquared;
  }

  lemma {:induction false} SpreadExpanded(s: seq<int>, lo: nat, hi: nat, m: real)
    requires lo <= hi <= |s|
    ensures RealSpread(s, lo, hi, m)
         == Expanded((hi - lo) as real, Sum(s, lo, hi) as real, SumSquares(s, lo, hi) as real, m)
  {
    hide *;
    Unfold(s, lo, hi, m, 0);
    if lo == hi {
      ExpandedEmpty(m);
    } else {
      SpreadExpanded(s, lo, hi - 1, m);
      SquareOfReal(s[hi - 1]);
      ExpandedStep((hi - 1 - lo) as real, Sum(s, lo, hi - 1) as real, SumSquares(s, lo, hi - 1) as real, m,
                   s[hi - 1] as real);
    }
  }

  // About an integer the two spreads agree.
  lemma {:induction false} IntegerSpread(s: seq<int>, lo: nat, hi: nat, a: int)
    requires lo <= hi <= |s|
    ensures Spread(s, lo, hi, a) as real == RealSpread(s, lo, hi, a as real)
  {
    hide *;
    Unfold(s, lo, hi, a as real, a);
    if lo < hi {
      IntegerSpread(s, lo, hi - 1, a);
      SquareOfReal(s[hi - 1] - a);
    }
  }

  // The truncated mean misses the mean by less than one row's share.
  lemma MeanError(sum: int, n: nat)
    requires n > 0
    ensures 0 - n < sum - n * TruncatedMean(sum, n) < n
    ensures sum >= 0 ==> TruncatedMean(sum, n) >= 0 && n * TruncatedMean(sum, n) <= sum
    ensures sum <= 0 ==> TruncatedMean(sum, n) <= 0 && n * TruncatedMean(sum, n) >= sum
  {
    if sum >= 0 {
      Division(sum, n, sum / n);
    } else {
      Division(-sum, n, (-sum) / n);
      Negated(n, (-sum) / n);
    }
  }

  lemma Division(sum: nat, n: nat, q: int)
    requires n > 0 && q == sum / n
    ensures q >= 0 && n * q <= sum < n * q + n
  {
    assert sum == n * (sum / n) + sum % n;
  }

  lemma Negated(n: int, q: int)
    ensures n * (-q) == -(n * q)
  {
  }

  // About any integer a: n * spread = n * sum of squares - sum^2 + (sum - n * a)^2.
  lemma SpreadIdentity(s: seq<int>, lo: nat, hi: nat, a: int)
    requires lo <= hi <= |s|
    ensures var n, t := hi - lo, Sum(s, lo, hi);
            n * Spread(s, lo, hi, a) == n * SumSquares(s, lo, hi) - t * t + (t - n * a) * (t - n * a)
  {
    IntegerExpanded(s, lo, hi, a);
    hide *;
    Identity(hi - lo, Sum(s, lo, hi), SumSquares(s, lo, hi), a, Spread(s, lo, hi, a));
  }

  lemma Identity(n: int, t: int, q: int, a: int, spread: int)
    requires spread == q - 2 * a * t + n * a * a
    ensures n * spread == n * q - t * t + (t - n * a) * (t - n * a)
  {
  }

  lemma {:induction false} IntegerExpanded(s: seq<int>, lo: nat, hi: nat, a: int)
    requires lo <= hi <= |s|
    ensures Spread(s, lo, hi, a) == SumSquares(s, lo, hi) - 2 * a * Sum(s, lo, hi) + (hi - lo) * a * a
  {
    Unfold(s, lo, hi, 0.0, a);
    if lo < hi {
      IntegerExpanded(s, lo, hi - 1, a);
      hide Sum, SumSquares, Spread;
      IntegerStep(hi - 1 - lo, Sum(s, lo, hi - 1), SumSquares(s, lo, hi - 1), a, s[hi - 1]);
    }
  }

  lemma IntegerStep(n: int, t: int, q: int, a: int, x: int)
    ensures q - 2 * a * t + n * a * a + Squared(x - a) == q + Squared(x) - 2 * a * (t + x) + (n + 1) * a * a
  {
  }

  lemma AboutMean(n: real, t: real, q: real, m: real, a: real)
    requires n > 0.0 && m == t / n
    ensures Expanded(n, t, q, a) / n == Expanded(n, t, q, m) / n + RealSquared(a - m)
  {
    assert m * n == t;
    assert n * RealSquared(a - m) == Expanded(n, t, q, a) - Expanded(n, t, q, m) by {
      assert n * (a - m) * (a - m) == n * a * a - 2.0 * a * t + t * m;
      assert n * m * m == t * m;
    }
    assert (Expanded(n, t, q, m) + n * RealSquared(a - m)) / n
        == Expanded(n, t, q, m) / n + (n * RealSquared(a - m)) / n;
  }

  lemma SmallSquare(x: real)
    requires -1.0 < x < 1.0
    ensures 0.0 <= RealSquared(x) < 1.0
  {
    if x >= 0.0 { assert x * x <= x * 1.0; } else { assert (-x) * (-x) <= (-x) * 1.0; }
  }

  lemma Quotient(t: int, n: nat, a: int)
    requires n > 0 && 0 - n < t - n * a < n
    ensures -1.0 < a as real - t as real / n as real < 1.0
  {
    var k := n * a - t;
    assert k as real == n as real * a as real - t as real;
    Divided(n as real, a as real, t as real, k as real);
  }

  lemma Divided(n: real, a: real, t: real, k: real)
    requires n > 0.0 && k == n * a - t && -n < k < n
    ensures -1.0 < a - t / n < 1.0
  {
    var x := a - t / n;
    assert n * x == k by { assert n * (t / n) == t; }
    assert x >= 1.0 ==> n * x >= n;
    assert x <= -1.0 ==> n * x <= -n;
  }

  // The value returned for two or more distinct ends: the variance, plus less than one.
  lemma VarianceError(s: seq<int>, lo: nat, hi: nat)
    requires lo < hi <= |s|
    ensures var n := hi - lo;
            var v := Spread(s, lo, hi, TruncatedMean(Sum(s, lo, hi), n)) as real / n as real;
            TrueVariance(s, lo, hi) <= v < TrueVariance(s, lo, hi) + 1.0
  {
    var n, t := hi - lo, Sum(s, lo, hi);
    var a, m := TruncatedMean(t, n), t as real / n as real;
    assert TrueVariance(s, lo, hi) == RealSpread(s, lo, hi, m) / n as real by { hide RealSpread, Sum; }
    hide *;
    MeanError(t, n);
    Quotient(t, n, a);
    SmallSquare(a as real - m);
    IntegerSpread(s, lo, hi, a);
    SpreadExpanded(s, lo, hi, a as real);
    SpreadExpanded(s, lo, hi, m);
    AboutMean(n as real, t as real, SumSquares(s, lo, hi) as real, m, a as real);
  }

  // Rows are taken from below the smaller end up to and including the larger one.
  method SolveVariance(midline: array<int>, beginRow: nat, endRow: nat) returns (v: real)
    requires beginRow < midline.Length && endRow < midline.Length
    ensures beginRow == endRow ==> v == 0.0
    ensures beginRow != endRow ==>
      var (lo, hi) := if beginRow < endRow then (beginRow + 1, endRow + 1) else (endRow + 1, beginRow + 1);
      && v == Spread(midline[..], lo, hi, TruncatedMean(Sum(midline[..], lo, hi), hi - lo)) as real / (hi - lo) as real
      && TrueVariance(midline[..], lo, hi) <= v < TrueVariance(midline[..], lo, hi) + 1.0
  {
    if beginRow == endRow {
      return 0.0;
    }
    var begin, end := beginRow, endRow;
    if begin < end {
      begin, end := end, begin;
    }
    ghost var s := midline[..];
    var centerSum, countCenter, quadraticSum := 0, 0, 0;
    var i := begin;
    while i > end
      invariant end <= i <= begin && countCenter == begin - i
      invariant centerSum + Sum(s, end + 1, i + 1) == Sum(s, end + 1, begin + 1)
    {
      centerSum := centerSum + midline[i];
      countCenter := countCenter + 1;
      i := i - 1;
    }
    var centerAve := TruncatedMean(centerSum, countCenter);
    i := begin;
    while i > end
      invariant end <= i <= begin
      invariant quadraticSum + Spread(s, end + 1, i + 1, centerAve) == Spread(s, end + 1, begin + 1, centerAve)
    {
      quadraticSum := quadraticSum + Squared(midline[i] - centerAve);
      i := i - 1;
    }
    v := quadraticSum as real / countCenter as real;
    VarianceError(s, end + 1, begin + 1);
  }
}
