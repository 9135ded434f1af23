/** Least-squares slope of a traced line. */
module LineStats {

  // ---------------------------------------------------------------------------------------
  // Sums over the rows lo..hi of a line
  // ---------------------------------------------------------------------------------------

  function SumX(lo: nat, hi: nat): real
    requires lo <= hi
  {
    if lo == hi then 0.0 else SumX(lo, hi - 1) + (hi - 1) as real
  }

  function SumXX(lo: nat, hi: nat): real
    requires lo <= hi
  {
    if lo == hi then 0.0 else SumXX(lo, hi - 1) + Square((hi - 1) as real)
  }

  function SumY(p: seq<int>, lo: nat, hi: nat): real
    requires lo <= hi <= |p|
  {
    if lo == hi then 0.0 else SumY(p, lo, hi - 1) + p[hi - 1] as real
  }

  function SumXY(p: seq<int>, lo: nat, hi: nat): real
    requires lo <= hi <= |p|
  {
    if lo == hi then 0.0 else SumXY(p, lo, hi - 1) + Times((hi - 1) as real, p[hi - 1] as real)
  }

  function SumYY(p: seq<int>, lo: nat, hi: nat): real
    requires lo <= hi <= |p|
  {
    if lo == hi then 0.0 else SumYY(p, lo, hi - 1) + Square(p[hi - 1] as real)
  }

  // Sum of squared distances of the line from row |-> a * row + c.
  ghost function Residual(p: seq<int>, lo: nat, hi: nat, a: real, c: real): real
    requires lo <= hi <= |p|
  {
    if lo == hi then 0.0
    else Residual(p, lo, hi - 1, a, c) + Gap(a, c, (hi - 1) as real, p[hi - 1] as real)
  }

  // Squared distance of value q in row i from the line.
  ghost function Gap(a: real, c: real, i: real, q: real): real {
    (q - (a * i + c)) * (q - (a * i + c))
  }

  function Times(x: real, y: real): real {
    x * y
  }

  function Square(x: real): real {
    Times(x, x)
  }

  // ---------------------------------------------------------------------------------------
  // The denominator
  // ---------------------------------------------------------------------------------------

  function Determinant(n: real, x: real, xx: real): real {
    n * xx - x * x
  }

  function Quartic(n: real): real {
    n * n * (n * n - 1.0)
  }

  ghost predicate ClosedX(b: real, n: real, x: real) {
    2.0 * x == n * (2.0 * b + n - 1.0)
  }

  ghost predicate ClosedXX(b: real, n: real, xx: real) {
    6.0 * xx == n * (6.0 * b * b + 6.0 * b * (n - 1.0) + (n - 1.0) * (2.0 * n - 1.0))
  }

  lemma ClosedStep(b: real, n: real, x: real, xx: real)
    requires ClosedX(b, n, x) && ClosedXX(b, n, xx)
    ensures ClosedX(b, n + 1.0, x + (b + n))
    ensures ClosedXX(b, n + 1.0, xx + Square(b + n))
  {
  }

  lemma {:induction false} ClosedSums(lo: nat, hi: nat)
    requires lo <= hi
    ensures ClosedX(lo as real, (hi - lo) as real, SumX(lo, hi))
    ensures ClosedXX(lo as real, (hi - lo) as real, SumXX(lo, hi))
  {
    if lo < hi {
      ClosedSums(lo, hi - 1);
      hide ClosedX, ClosedXX, Square;
      ClosedStep(lo as real, (hi - 1 - lo) as real, SumX(lo, hi - 1), SumXX(lo, hi - 1));
      assert lo as real + (hi - 1 - lo) as real == (hi - 1) as real;
    }
  }

  lemma ClosedDeterminant(b: real, n: real, x: real, xx: real)
    requires ClosedX(b, n, x) && ClosedXX(b, n, xx)
    ensures 12.0 * Determinant(n, x, xx) == Quartic(n)
  {
    assert 12.0 * (n * xx) == 2.0 * n * (6.0 * xx);
    assert 12.0 * (x * x) == 3.0 * ((2.0 * x) * (2.0 * x));
    var u := 2.0 * b + n - 1.0;
    assert (n * u) * (n * u) == n * n * (u * u);
  }

  // Over n rows the denominator is n^2 (n^2 - 1) / 12, so it vanishes only for fewer than two rows.
  lemma DeterminantValue(lo: nat, hi: nat)
    requires lo <= hi
    ensures var n := (hi - lo) as real;
            12.0 * Determinant(n, SumX(lo, hi), SumXX(lo, hi)) == Quartic(n)
    ensures Determinant((hi - lo) as real, SumX(lo, hi), SumXX(lo, hi)) > 0.0 <==> hi - lo >= 2
    ensures hi - lo <= 1 ==> Determinant((hi - lo) as real, SumX(lo, hi), SumXX(lo, hi)) == 0.0
  {
    ClosedSums(lo, hi);
    hide *;
    ClosedDeterminant(lo as real, (hi - lo) as real, SumX(lo, hi), SumXX(lo, hi));
    Positive((hi - lo) as real);
  }

  lemma Positive(n: real)
    ensures n >= 2.0 ==> Quartic(n) > 0.0
    ensures n == 0.0 || n == 1.0 ==> Quartic(n) == 0.0
  {
    if n >= 2.0 {
      assert n * n >= 4.0;
    }
  }

  // ---------------------------------------------------------------------------------------
  // Least squares
  // ---------------------------------------------------------------------------------------

  function Numerator(n: real, x: real, y: real, xy: real): real {
    n * xy - x * y
  }

  function Slope(p: seq<int>, lo: nat, hi: nat): real
    requires lo <= hi <= |p| && hi - lo >= 2
  {
    DeterminantValue(lo, hi);
    var n := (hi - lo) as real;
    Numerator(n, SumX(lo, hi), SumY(p, lo, hi), SumXY(p, lo, hi)) / Determinant(n, SumX(lo, hi), SumXX(lo, hi))
  }

  function Intercept(p: seq<int>, lo: nat, hi: nat): real
    requires lo <= hi <= |p| && hi - lo >= 2
  {
    (SumY(p, lo, hi) - Slope(p, lo, hi) * SumX(lo, hi)) / (hi - lo) as real
  }

  ghost function Expanded(n: real, x: real, y: real, xx: real, xy: real, yy: real, a: real, c: real): real {
    yy - 2.0 * a * xy - 2.0 * c * y + a * a * xx + 2.0 * a * c * x + n * c * c
  }

  lemma ExpandedStep(n: real, x: real, y: real, xx: real, xy: real, yy: real, a: real, c: real, i: real, q: real)
    ensures Expanded(n, x, y, xx, xy, yy, a, c) + Gap(a, c, i, q)
         == Expanded(n + 1.0, x + i, y + q, xx + Square(i), xy + Times(i, q), yy + Square(q), a, c)
  {
    hide *;
    GapTerms(a, c, i, q);
    ExpandedAdds(n, x, y, xx, xy, yy, a, c, i, q, Square(i), Times(i, q), Square(q));
  }

  lemma GapTerms(a: real, c: real, i: real, q: real)
    ensures Gap(a, c, i, q) == Expanded(1.0, i, q, Square(i), Times(i, q), Square(q), a, c)
  {
    var e := q - (a * i + c);
    assert e * e == q * q - 2.0 * a * (i * q) - 2.0 * c * q + a * a * (i * i) + 2.0 * a * c * i + c * c;
  }

  lemma ExpandedAdds(n: real, x: real, y: real, xx: real, xy: real, yy: real, a: real, c: real,
                     i: real, q: real, ii: real, iq: real, qq: real)
    ensures Expanded(n, x, y, xx, xy, yy, a, c) + Expanded(1.0, i, q, ii, iq, qq, a, c)
         == Expanded(n + 1.0, x + i, y + q, xx + ii, xy + iq, yy + qq, a, c)
  {
  }

  lemma ExpandedEmpty(a: real, c: real)
    ensures Expanded(0.0, 0.0, 0.0, 0.0, 0.0, 0.0, a, c) == 0.0
  {
  }

  lemma UnfoldSums(p: seq<int>, lo: nat, hi: nat, a: real, c: real)
    requires lo < hi <= |p|
    ensures var i, q := (hi - 1) as real, p[hi - 1] as real;
            && SumX(lo, hi) == SumX(lo, hi - 1) + i
            && SumXX(lo, hi) == SumXX(lo, hi - 1) + Square(i)
            && SumY(p, lo, hi) == SumY(p, lo, hi - 1) + q
            && SumXY(p, lo, hi) == SumXY(p, lo, hi - 1) + Times(i, q)
            && SumYY(p, lo, hi) == SumYY(p, lo, hi - 1) + Square(q)
            && Residual(p, lo, hi, a, c) == Residual(p, lo, hi - 1, a, c) + Gap(a, c, i, q)
  {
    hide Square, Times, Gap;
  }

  lemma UnfoldEmpty(p: seq<int>, lo: nat, a: real, c: real)
    requires lo <= |p|
    ensures SumX(lo, lo) == SumXX(lo, lo) == SumY(p, lo, lo) == SumXY(p, lo, lo) == SumYY(p, lo, lo) == 0.0
    ensures Residual(p, lo, lo, a, c) == 0.0
  {
  }

  lemma {:induction false} ResidualExpanded(p: seq<int>, lo: nat, hi: nat, a: real, c: real)
    requires lo <= hi <= |p|
    ensures Residual(p, lo, hi, a, c)
         == Expanded((hi - lo) as real, SumX(lo, hi), SumY(p, lo, hi), SumXX(lo, hi), SumXY(p, lo, hi),
                     SumYY(p, lo, hi), a, c)
  {
    hide *;
    if lo == hi {
      UnfoldEmpty(p, lo, a, c);
      ExpandedEmpty(a, c);
    } else {
      ResidualExpanded(p, lo, hi - 1, a, c);
      UnfoldSums(p, lo, hi, a, c);
      ExpandedStep((hi - 1 - lo) as real, SumX(lo, hi - 1), SumY(p, lo, hi - 1), SumXX(lo, hi - 1),
                   SumXY(p, lo, hi - 1), SumYY(p, lo, hi - 1), a, c, (hi - 1) as real, p[hi - 1] as real);
      assert (hi - 1 - lo) as real + 1.0 == (hi - lo) as real;
    }
  }

  // What the squared residuals exceed their minimum by, scaled by n times the determinant.
  ghost function Excess(d: real, m: real, n: real, x: real, y: real, a: real, c: real): real {
    d * Square(n * c - (y - a * x)) + Square(a * d - m)
  }

  ghost function Scaled(d: real, n: real, f: real): real {
    d * (n * f)
  }

  ghost function Constant(d: real, m: real, n: real, y: real, yy: real): real {
    d * (n * yy - y * y) - m * m
  }

  // The products that occur when the squares are multiplied out.
  datatype Products = Products(ncnc: real, y2: real, a2x2: real, ncy: real, ncax: real, axy: real,
                               nyy: real, anxy: real, a2nxx: real)

  ghost function ProductsOf(n: real, x: real, y: real, xx: real, xy: real, yy: real, a: real, c: real): Products {
    Products(n * n * c * c, y * y, a * a * x * x, n * c * y, n * c * a * x, a * x * y,
             n * yy, a * n * xy, a * a * n * xx)
  }

  lemma SquareTerms(n: real, x: real, y: real, xx: real, xy: real, yy: real, a: real, c: real)
    ensures var p := ProductsOf(n, x, y, xx, xy, yy, a, c);
            Square(n * c - (y - a * x)) == p.ncnc + p.y2 + p.a2x2 - 2.0 * p.ncy + 2.0 * p.ncax - 2.0 * p.axy
  {
  }

  lemma NumeratorTerms(n: real, x: real, y: real, xx: real, xy: real, yy: real, a: real, c: real)
    ensures var p := ProductsOf(n, x, y, xx, xy, yy, a, c);
            2.0 * Times(a, Numerator(n, x, y, xy)) == 2.0 * p.anxy - 2.0 * p.axy
  {
  }

  lemma DeterminantTerms(n: real, x: real, y: real, xx: real, xy: real, yy: real, a: real, c: real)
    ensures var p := ProductsOf(n, x, y, xx, xy, yy, a, c);
            Times(Square(a), Determinant(n, x, xx)) == p.a2nxx - p.a2x2
  {
  }

  lemma ExpandedTerms(n: real, x: real, y: real, xx: real, xy: real, yy: real, a: real, c: real)
    ensures var p := ProductsOf(n, x, y, xx, xy, yy, a, c);
            Times(n, Expanded(n, x, y, xx, xy, yy, a, c))
            == p.nyy - 2.0 * p.anxy - 2.0 * p.ncy + p.a2nxx + 2.0 * p.ncax + p.ncnc
  {
  }

  lemma ConstantTerms(n: real, x: real, y: real, xx: real, xy: real, yy: real, a: real, c: real)
    ensures var p := ProductsOf(n, x, y, xx, xy, yy, a, c); Times(n, yy) - Square(y) == p.nyy - p.y2
  {
  }

  lemma CompleteSquares(n: real, x: real, y: real, xx: real, xy: real, yy: real, a: real, c: real)
    ensures var d, m := Determinant(n, x, xx), Numerator(n, x, y, xy);
            Scaled(d, n, Expanded(n, x, y, xx, xy, yy, a, c))
            == Excess(d, m, n, x, y, a, c) + Constant(d, m, n, y, yy)
  {
    hide *;
    var d, m, e := Determinant(n, x, xx), Numerator(n, x, y, xy), Expanded(n, x, y, xx, xy, yy, a, c);
    SquareTerms(n, x, y, xx, xy, yy, a, c);
    NumeratorTerms(n, x, y, xx, xy, yy, a, c);
    DeterminantTerms(n, x, y, xx, xy, yy, a, c);
    ExpandedTerms(n, x, y, xx, xy, yy, a, c);
    ConstantTerms(n, x, y, xx, xy, yy, a, c);
    var f, s, k := Times(n, e), Square(n * c - (y - a * x)), Times(n, yy) - Square(y);
    ScaledParts(d, m, n, x, y, yy, a, c, e, f, s, k);
    Distribute(d, f, s, k, a, m);
  }

  lemma ScaledParts(d: real, m: real, n: real, x: real, y: real, yy: real, a: real, c: real, e: real,
                    f: real, s: real, k: real)
    requires f == Times(n, e) && s == Square(n * c - (y - a * x)) && k == Times(n, yy) - Square(y)
    ensures Scaled(d, n, e) == Times(d, f)
    ensures Excess(d, m, n, x, y, a, c) == Times(d, s) + Square(a * d - m)
    ensures Constant(d, m, n, y, yy) == Times(d, k) - Square(m)
  {
  }

  lemma Distribute(d: real, f: real, s: real, k: real, a: real, m: real)
    requires f == s + k - 2.0 * Times(a, m) + Times(Square(a), d)
    ensures Times(d, f) == Times(d, s) + Square(a * d - m) + (Times(d, k) - Square(m))
  {
    assert Times(d, f) == d * s + d * k - d * (2.0 * a * m) + d * (a * a * d);
    assert Square(a * d - m) == d * (a * a * d) - d * (2.0 * a * m) + m * m;
  }

  ghost predicate BestLine(d: real, m: real, n: real, x: real, y: real, a: real, c: real)
    requires d != 0.0 && n != 0.0
  {
    a == m / d && c == (y - a * x) / n
  }

  lemma BestLineIs(p: seq<int>, lo: nat, hi: nat)
    requires lo <= hi <= |p| && hi - lo >= 2
    ensures var n, x, y := (hi - lo) as real, SumX(lo, hi), SumY(p, lo, hi);
            var d := Determinant(n, x, SumXX(lo, hi));
            d > 0.0 && BestLine(d, Numerator(n, x, y, SumXY(p, lo, hi)), n, x, y,
                                Slope(p, lo, hi), Intercept(p, lo, hi))
  {
    DeterminantValue(lo, hi);
    hide Determinant, Numerator, SumX, SumY, SumXX, SumXY;
  }

  lemma ExcessBounds(d: real, m: real, n: real, x: real, y: real, a: real, c: real, a0: real, c0: real)
    requires d > 0.0 && n > 0.0 && BestLine(d, m, n, x, y, a0, c0)
    ensures Excess(d, m, n, x, y, a0, c0) == 0.0 <= Excess(d, m, n, x, y, a, c)
    ensures a != a0 ==> Excess(d, m, n, x, y, a, c) > 0.0
  {
    SquareSign(n * c - (y - a * x));
    SquareSign(a * d - m);
    assert a0 * d == m && n * c0 == y - a0 * x;
    if a != a0 {
      assert a * d - m == (a - a0) * d != 0.0;
    }
    hide Square;
    assert d * Square(n * c - (y - a * x)) >= 0.0;
  }

  lemma SquareSign(t: real)
    ensures Square(t) >= 0.0 && (t != 0.0 ==> Square(t) > 0.0) && (t == 0.0 ==> Square(t) == 0.0)
  {
    if t > 0.0 {
      PositiveSquare(t);
    } else if t < 0.0 {
      PositiveSquare(-t);
      assert Square(-t) == Square(t);
    }
  }

  lemma PositiveProduct(s: real, t: real)
    requires s > 0.0 && t > 0.0
    ensures Times(s, t) > 0.0
  {
  }

  lemma PositiveSquare(t: real)
    requires t > 0.0
    ensures Square(t) > 0.0
  {
    PositiveProduct(t, t);
  }

  lemma CompareScaled(d: real, n: real, f: real, g: real, ef: real, eg: real, k: real)
    requires d > 0.0 && n > 0.0 && Scaled(d, n, f) == ef + k && Scaled(d, n, g) == eg + k
    ensures ef <= eg ==> f <= g
    ensures ef < eg ==> f < g
  {
    if f > g {
      assert n * f > n * g;
      assert d * (n * f) > d * (n * g);
    }
    if f == g {
      assert d * (n * f) == d * (n * g);
    }
  }

  // No line fits two or more rows better than the one of the computed slope, and no other slope as well.
  lemma LeastSquares(p: seq<int>, lo: nat, hi: nat, a: real, c: real)
    requires lo <= hi <= |p| && hi - lo >= 2
    ensures Residual(p, lo, hi, Slope(p, lo, hi), Intercept(p, lo, hi)) <= Residual(p, lo, hi, a, c)
    ensures a != Slope(p, lo, hi) ==>
      Residual(p, lo, hi, Slope(p, lo, hi), Intercept(p, lo, hi)) < Residual(p, lo, hi, a, c)
  {
    DeterminantValue(lo, hi);
    var n, x, y, xx := (hi - lo) as real, SumX(lo, hi), SumY(p, lo, hi), SumXX(lo, hi);
    var xy, yy := SumXY(p, lo, hi), SumYY(p, lo, hi);
    var d, m := Determinant(n, x, xx), Numerator(n, x, y, xy);
    var a0, c0 := Slope(p, lo, hi), Intercept(p, lo, hi);
    BestLineIs(p, lo, hi);
    hide *;
    ExcessBounds(d, m, n, x, y, a, c, a0, c0);
    ResidualExpanded(p, lo, hi, a, c);
    ResidualExpanded(p, lo, hi, a0, c0);
    CompleteSquares(n, x, y, xx, xy, yy, a, c);
    CompleteSquares(n, x, y, xx, xy, yy, a0, c0);
    CompareScaled(d, n, Residual(p, lo, hi, a0, c0), Residual(p, lo, hi, a, c),
                  Excess(d, m, n, x, y, a0, c0), Excess(d, m, n, x, y, a, c), Constant(d, m, n, y, yy));
  }

  // A line that is exactly straight is recovered exactly.
  lemma ExactLine(p: seq<int>, lo: nat, hi: nat, a: real, c: real)
    requires lo <= hi <= |p| && hi - lo >= 2
    requires forall i :: lo <= i < hi ==> p[i] as real == a * i as real + c
    ensures Slope(p, lo, hi) == a
  {
    ExactResidual(p, lo, hi, a, c);
    NonNegative(p, lo, hi, Slope(p, lo, hi), Intercept(p, lo, hi));
    LeastSquares(p, lo, hi, a, c);
  }

  lemma {:induction false} ExactResidual(p: seq<int>, lo: nat, hi: nat, a: real, c: real)
    requires lo <= hi <= |p|
    requires forall i :: lo <= i < hi ==> p[i] as real == a * i as real + c
    ensures Residual(p, lo, hi, a, c) == 0.0
  {
    if lo < hi {
      ExactResidual(p, lo, hi - 1, a, c);
    }
  }

  lemma GapSign(a: real, c: real, i: real, q: real)
    ensures Gap(a, c, i, q) >= 0.0
  {
    var e := q - (a * i + c);
    assert e * e >= 0.0;
  }

  lemma {:induction false} NonNegative(p: seq<int>, lo: nat, hi: nat, a: real, c: real)
    requires lo <= hi <= |p|
    ensures Residual(p, lo, hi, a, c) >= 0.0
  {
    if lo < hi {
      NonNegative(p, lo, hi - 1, a, c);
      GapSign(a, c, (hi - 1) as real, p[hi - 1] as real);
    }
  }

  class SlopeSolver {
    var resultLast: real

    constructor ()
      ensures resultLast == 0.0
    {
      resultLast := 0.0;
    }

    // A single row keeps the slope of the last call. Rows are counted in a byte.
    method SolveSlope(begin: nat, end: nat, p: array<int>) returns (result: real)
      requires begin <= p.Length && end <= p.Length && begin < 256 && end < 256
      modifies this
      ensures begin == end ==> result == 0.0 && resultLast == old(resultLast)
      ensures begin == end + 1 || end == begin + 1 ==> result == resultLast == old(resultLast)
      ensures begin + 2 <= end ==> result == resultLast == Slope(p[..], begin, end)
      ensures end + 2 <= begin ==> result == resultLast == Slope(p[..], end, begin)
    {
      if begin == end {
        return 0.0;
      }
      var lo, hi := begin, end;
      if begin > end {
        lo, hi := end, begin;
      }
      DeterminantValue(lo, hi);
      ghost var s := p[..];
      SlopeIs(s, lo, hi);
      hide *;
      UnfoldEmpty(s, lo, 0.0, 0.0);
      var xsum, ysum, xysum, x2sum := 0.0, 0.0, 0.0, 0.0;
      for i := lo to hi
        invariant xsum == SumX(lo, i) && ysum == SumY(s, lo, i)
        invariant xysum == SumXY(s, lo, i) && x2sum == SumXX(lo, i) && resultLast == old(resultLast)
      {
        UnfoldSums(s, lo, i + 1, 0.0, 0.0);
        xsum := xsum + i as real;
        ysum := ysum + p[i] as real;
        xysum := xysum + Times(i as real, p[i] as real);
        x2sum := x2sum + Square(i as real);
      }
      if Determinant((hi - lo) as real, xsum, x2sum) != 0.0 {
        result := Numerator((hi - lo) as real, xsum, ysum, xysum) / Determinant((hi - lo) as real, xsum, x2sum);
        resultLast := result;
      } else {
        result := resultLast;
      }
    }
  }

  lemma SlopeIs(p: seq<int>, lo: nat, hi: nat)
    requires lo <= hi <= |p|
    ensures hi - lo >= 2 ==>
      var n := (hi - lo) as real;
      && Determinant(n, SumX(lo, hi), SumXX(lo, hi)) != 0.0
      && Slope(p, lo, hi) == Numerator(n, SumX(lo, hi), SumY(p, lo, hi), SumXY(p, lo, hi))
                             / Determinant(n, SumX(lo, hi), SumXX(lo, hi))
  {
    DeterminantValue(lo, hi);
    hide Determinant, Numerator, SumX, SumY, SumXX, SumXY;
  }
}
