/** Distance to an image row by interpolation in a calibration table. */
module RowDistance {

  // Rows and distances alternate, as in the firmware's table.
  function Row(table: seq<int>, k: nat): int
    requires 2 * k + 1 < |table|
  {
    table[2 * k]
  }

  function Dis(table: seq<int>, k: nat): int
    requires 2 * k + 1 < |table|
  {
    table[2 * k + 1]
  }

  // n knots whose rows increase while their distances decrease.
  ghost predicate Monotone(table: seq<int>, n: nat) {
    && |table| == 2 * n && n >= 2
    && (forall j, k :: 0 <= j < k < n ==> Row(table, j) < Row(table, k))
    && (forall j, k :: 0 <= j < k < n ==> Dis(table, j) > Dis(table, k))
  }

  const CAR_TABLE: seq<int> := [
    0, 200, 30, 146, 36, 111, 42, 85, 48, 71, 54, 59, 60, 51, 66, 44, 72, 37,
    78, 33, 84, 30, 90, 27, 96, 24, 102, 22, 108, 19, 114, 18, 120, 13]

  // Knots 0..k step the right way.
  predicate Steps(table: seq<int>, k: nat)
    requires 2 * k + 1 < |table|
  {
    k == 0 || (table[2 * k - 2] < table[2 * k] && table[2 * k - 1] > table[2 * k + 1] && Steps(table, k - 1))
  }

  lemma {:induction false} StepsChain(table: seq<int>, j: nat, k: nat)
    requires j < k && 2 * k + 1 < |table| && Steps(table, k)
    ensures Steps(table, k - 1) && Row(table, j) < Row(table, k) && Dis(table, j) > Dis(table, k)
  {
    if j < k - 1 {
      StepsChain(table, j, k - 1);
    }
  }

  lemma {:induction false} StepsDown(table: seq<int>, j: nat, k: nat)
    requires j <= k && 2 * k + 1 < |table| && Steps(table, k)
    ensures Steps(table, j)
  {
    if j < k {
      StepsDown(table, j, k - 1);
    }
  }

  lemma KnotsMonotone(table: seq<int>, n: nat)
    requires |table| == 2 * n && n >= 2
    requires forall j, k :: 0 <= j < k < n ==> Row(table, j) < Row(table, k) && Dis(table, j) > Dis(table, k)
    ensures Monotone(table, n)
  {
  }

  lemma CarSteps()
    ensures |CAR_TABLE| == 34 && Steps(CAR_TABLE, 16)
  {
    var t := CAR_TABLE;
    assert Steps(t, 4);
    assert Steps(t, 8);
    assert Steps(t, 12);
  }

  lemma CarTableMonotone()
    ensures Monotone(CAR_TABLE, 17)
  {
    CarSteps();
    hide *;
    var t := CAR_TABLE;
    forall j, k | 0 <= j < k < 17 ensures Row(t, j) < Row(t, k) && Dis(t, j) > Dis(t, k) {
      StepsDown(t, k, 16);
      StepsChain(t, j, k);
    }
    KnotsMonotone(t, 17);
  }

  // Value at row t of the straight line through knots k - 1 and k.
  function Line(table: seq<int>, k: nat, t: int): real
    requires 1 <= k && 2 * k + 1 < |table| && Row(table, k - 1) != Row(table, k)
  {
    Dis(table, k - 1) as real
    + ((t - Row(table, k - 1)) as real / (Row(table, k) - Row(table, k - 1)) as real)
      * (Dis(table, k) - Dis(table, k - 1)) as real
  }

  // The first knot beyond row t, from the k-th on.
  function Segment(table: seq<int>, n: nat, t: int, k: nat): (s: nat)
    requires Monotone(table, n) && 1 <= k < n && t < Row(table, n - 1)
    ensures k <= s < n && t < Row(table, s)
    ensures k < s ==> Row(table, s - 1) <= t
    decreases n - k
  {
    if t < Row(table, k) then k else Segment(table, n, t, k + 1)
  }

  function Distance(table: seq<int>, n: nat, t: int): real
    requires Monotone(table, n) && t < Row(table, n - 1)
  {
    Line(table, Segment(table, n, t, 1), t)
  }

  // The loop runs one knot past the table: inside tells that it answered before looking there, which
  // it does exactly for rows above the last knot's. The model stops where the firmware would read on.
  method RowToDistance(table: array<int>, n: nat, targetRow: int) returns (inside: bool, d: real)
    requires Monotone(table[..], n)
    ensures inside <==> targetRow < Row(table[..], n - 1)
    ensures inside ==> d == Distance(table[..], n, targetRow)
    ensures inside ==> exists k :: OnLine(table[..], k, targetRow, d)
  {
    hide Line, Distance, OnLine, Segment, Row, Dis;
    ghost var s := table[..];
    var i := 1;
    while i <= n
      invariant 1 <= i <= n
      invariant i < n && targetRow < Row(s, n - 1) ==> Segment(s, n, targetRow, 1) == Segment(s, n, targetRow, i)
      invariant i == n ==> targetRow >= Row(s, n - 1)
    {
      if i == n {
        return false, 0.0;
      }
      KnotAt(s, n, i, targetRow);
      hide Monotone;
      var curRow, curDis := table[2 * i], table[2 * i + 1];
      var preRow, preDis := table[2 * (i - 1)], table[2 * (i - 1) + 1];
      if targetRow < curRow {
        DistanceOnLine(s, n, targetRow);
        DistanceValue(s, n, i, targetRow);
        var radio := (targetRow - preRow) as real / (curRow - preRow) as real;
        return true, preDis as real + radio * (curDis - preDis) as real;
      }
      i := i + 1;
    }
    return false, 0.0;
  }

  lemma KnotAt(s: seq<int>, n: nat, i: nat, t: int)
    requires Monotone(s, n) && 1 <= i < n
    ensures s[2 * i] == Row(s, i) && s[2 * i + 1] == Dis(s, i)
    ensures s[2 * (i - 1)] == Row(s, i - 1) && s[2 * (i - 1) + 1] == Dis(s, i - 1)
    ensures Row(s, i - 1) < Row(s, i) <= Row(s, n - 1)
    ensures t < Row(s, n - 1) ==> Segment(s, n, t, i) == if t < Row(s, i) then i else Segment(s, n, t, i + 1)
  {
  }

  lemma DistanceValue(s: seq<int>, n: nat, k: nat, t: int)
    requires Monotone(s, n) && 1 <= k < n && t < Row(s, n - 1) && Segment(s, n, t, 1) == k
    ensures Row(s, k) != Row(s, k - 1)
    ensures Distance(s, n, t)
         == Dis(s, k - 1) as real
            + ((t - Row(s, k - 1)) as real / (Row(s, k) - Row(s, k - 1)) as real) * (Dis(s, k) - Dis(s, k - 1)) as real
  {
  }

  // A line through two knots with falling distances falls, and hits both.
  lemma LineFalls(p: real, q: real, t: real, u: real, dp: real, dq: real)
    requires p < q && dp > dq
    ensures dp + ((p - p) / (q - p)) * (dq - dp) == dp && dp + ((q - p) / (q - p)) * (dq - dp) == dq
    ensures t < u ==> dp + ((t - p) / (q - p)) * (dq - dp) > dp + ((u - p) / (q - p)) * (dq - dp)
  {
    if t < u {
      var x, y := (t - p) / (q - p), (u - p) / (q - p);
      assert (y - x) * (q - p) == u - t;
      assert y > x;
      assert (y - x) * (dp - dq) > 0.0;
    }
  }

  lemma LineMonotone(table: seq<int>, n: nat, k: nat, t: int, u: int)
    requires Monotone(table, n) && 1 <= k < n
    ensures Line(table, k, Row(table, k - 1)) == Dis(table, k - 1) as real
    ensures Line(table, k, Row(table, k)) == Dis(table, k) as real
    ensures t < u ==> Line(table, k, t) > Line(table, k, u)
  {
    var p, q := Row(table, k - 1), Row(table, k);
    var dp, dq := Dis(table, k - 1), Dis(table, k);
    assert p < q && dp > dq;
    LineFalls(p as real, q as real, t as real, u as real, dp as real, dq as real);
  }

  // At a knot's row the answer is the knot's distance.
  lemma AtKnots(table: seq<int>, n: nat, k: nat)
    requires Monotone(table, n) && k < n - 1
    ensures Row(table, k) < Row(table, n - 1) && Distance(table, n, Row(table, k)) == Dis(table, k) as real
  {
    var s := Segment(table, n, Row(table, k), 1);
    assert s == k + 1;
    LineMonotone(table, n, s, 0, 0);
  }

  // Between two knots the answer lies between their distances; before the first it exceeds them all.
  lemma BetweenKnots(table: seq<int>, n: nat, t: int)
    requires Monotone(table, n) && t < Row(table, n - 1)
    ensures var k := Segment(table, n, t, 1);
            && Dis(table, k) as real < Distance(table, n, t)
            && (Row(table, 0) <= t ==> Row(table, k - 1) <= t && Distance(table, n, t) <= Dis(table, k - 1) as real)
            && (t < Row(table, 0) ==> k == 1 && Distance(table, n, t) > Dis(table, 0) as real)
  {
    var k := Segment(table, n, t, 1);
    LineMonotone(table, n, k, t, Row(table, k));
    LineMonotone(table, n, k, t, Row(table, k - 1));
    LineMonotone(table, n, k, Row(table, k - 1), t);
  }

  // d is on the straight line between knots k - 1 and k, which enclose row t; rows above the first knot
  // continue the first line.
  ghost predicate OnLine(table: seq<int>, k: int, t: int, d: real) {
    && 1 <= k && 2 * k + 1 < |table|
    && t < table[2 * k] && (k > 1 ==> table[2 * k - 2] <= t)
    && (table[2 * k] - table[2 * k - 2]) as real * (table[2 * k - 1] as real - d)
       == (t - table[2 * k - 2]) as real * (table[2 * k - 1] - table[2 * k + 1]) as real
  }

  lemma DistanceOnLine(table: seq<int>, n: nat, t: int)
    requires Monotone(table, n) && t < Row(table, n - 1)
    ensures exists k :: OnLine(table, k, t, Distance(table, n, t))
  {
    var k := Segment(table, n, t, 1);
    var d := Distance(table, n, t);
    var p, q, dp, dq := table[2 * k - 2], table[2 * k], table[2 * k - 1], table[2 * k + 1];
    assert p < q by {
      assert Row(table, k - 1) < Row(table, k);
    }
    assert d == dp as real + ((t - p) as real / (q - p) as real) * (dq - dp) as real;
    Proportion((t - p) as real, (q - p) as real, dp as real, dq as real, (dq - dp) as real, d);
    assert OnLine(table, k, t, d);
  }

  lemma Proportion(x: real, y: real, dp: real, dq: real, fall: real, d: real)
    requires y != 0.0 && fall == dq - dp && d == dp + (x / y) * fall
    ensures y * (dp - d) == x * (dp - dq)
  {
    assert y * (x / y) == x;
    assert y * ((x / y) * fall) == x * fall;
  }

  // Rows further down the image are strictly nearer, also across knots.
  lemma StrictlyDecreasing(table: seq<int>, n: nat, t: int, u: int)
    requires Monotone(table, n) && t < u < Row(table, n - 1)
    ensures Distance(table, n, t) > Distance(table, n, u)
  {
    var j, k := Segment(table, n, t, 1), Segment(table, n, u, 1);
    if j == k {
      LineMonotone(table, n, k, t, u);
    } else {
      assert j < k;
      BetweenKnots(table, n, t);
      BetweenKnots(table, n, u);
      assert Row(table, 0) <= u;
      assert Dis(table, j) >= Dis(table, k - 1);
    }
  }
}
