/** Midline repair at a fork: hug the left edge or the right edge. */
module ForkPatch {
  import opened Screen

  const LAST_COLUMN := WIDTH - 1

  datatype Lines = Lines(mid: seq<int>, left: seq<int>, right: seq<int>)

  ghost predicate Full(a: Lines) {
    |a.mid| == |a.left| == |a.right| == HEIGHT
  }

  function Abs(x: int): int {
    if x < 0 then -x else x
  }

  // The midline of row i when keeping left: from the edge if it was found or is near, else drifting.
  // A jump of more than 15 columns from the row below is refused.
  function LeftRow(mid: seq<int>, edge: seq<int>, flag: seq<int>, halfWidth: seq<int>, i: nat): int
    requires |mid| == |edge| == |flag| == |halfWidth| == HEIGHT && i + 1 < HEIGHT
  {
    var c := if flag[i] == 1 || i > 110 then edge[i] + halfWidth[i] else mid[i + 1] - 2;
    if Abs(c - mid[i + 1]) > 15 then mid[i + 1] else c
  }

  // Rows i down to 11; the scan ends in the row where the midline leaves the image.
  function LeftScan(mid: seq<int>, edge: seq<int>, flag: seq<int>, halfWidth: seq<int>, i: nat, end: int): (seq<int>, int)
    requires |mid| == |edge| == |flag| == |halfWidth| == HEIGHT && i + 1 < HEIGHT
    decreases i
  {
    if i <= 10 then (mid, end) else
      var v := LeftRow(mid, edge, flag, halfWidth, i);
      if v <= 0 then (mid[i := 0], i) else LeftScan(mid[i := v], edge, flag, halfWidth, i - 1, end)
  }

  function RightRow(mid: seq<int>, edge: seq<int>, flag: seq<int>, halfWidth: seq<int>, i: nat): int
    requires |mid| == |edge| == |flag| == |halfWidth| == HEIGHT && i + 1 < HEIGHT
  {
    var c := if flag[i] == 1 || i > 110 then edge[i] - halfWidth[i] else mid[i + 1] + 2;
    if Abs(c - mid[i + 1]) > 15 then mid[i + 1] else c
  }

  function RightScan(mid: seq<int>, edge: seq<int>, flag: seq<int>, halfWidth: seq<int>, i: nat, end: int): (seq<int>, int)
    requires |mid| == |edge| == |flag| == |halfWidth| == HEIGHT && i + 1 < HEIGHT
    decreases i
  {
    if i <= 10 then (mid, end) else
      var v := RightRow(mid, edge, flag, halfWidth, i);
      if v >= LAST_COLUMN then (mid[i := LAST_COLUMN], i)
      else RightScan(mid[i := v], edge, flag, halfWidth, i - 1, end)
  }

  // Rows end down to 1 set to v.
  function Filled(s: seq<int>, end: int, v: int): (r: seq<int>)
    ensures |r| == |s|
  {
    seq(|s|, k requires 0 <= k < |s| => if 1 <= k <= end then v else s[k])
  }

  lemma {:induction false} ScanSize(mid: seq<int>, edge: seq<int>, flag: seq<int>, halfWidth: seq<int>, i: nat, end: int)
    requires |mid| == |edge| == |flag| == |halfWidth| == HEIGHT && i + 1 < HEIGHT
    ensures |LeftScan(mid, edge, flag, halfWidth, i, end).0| == HEIGHT
    ensures |RightScan(mid, edge, flag, halfWidth, i, end).0| == HEIGHT
    decreases i
  {
    if i > 10 {
      ScanSize(mid[i := LeftRow(mid, edge, flag, halfWidth, i)], edge, flag, halfWidth, i - 1, end);
      ScanSize(mid[i := RightRow(mid, edge, flag, halfWidth, i)], edge, flag, halfWidth, i - 1, end);
    }
  }

  function LeftPatch(a: Lines, flag: seq<int>, halfWidth: seq<int>, topPoint: int): (Lines, int)
    requires |a.mid| == |a.left| == |a.right| == |flag| == |halfWidth| == HEIGHT
  {
    var (m, e) := LeftScan(a.mid, a.left, flag, halfWidth, 115, topPoint);
    (Lines(Filled(m, e, 0), Filled(a.left, e, 0), Filled(a.right, e, 0)), e)
  }

  function RightPatch(a: Lines, flag: seq<int>, halfWidth: seq<int>, topPoint: int): (Lines, int)
    requires |a.mid| == |a.left| == |a.right| == |flag| == |halfWidth| == HEIGHT
  {
    var (m, e) := RightScan(a.mid, a.right, flag, halfWidth, 115, topPoint);
    (Lines(Filled(m, e, LAST_COLUMN), Filled(a.left, e, LAST_COLUMN), Filled(a.right, e, LAST_COLUMN)), e)
  }

  // ---------------------------------------------------------------------------------------
  // The loops
  // ---------------------------------------------------------------------------------------

  method FillRows(line: array<int>, end: int, v: int)
    requires line.Length == HEIGHT && end < HEIGHT
    modifies line
    ensures line[..] == Filled(old(line[..]), end, v)
  {
    ghost var was := line[..];
    var i := end;
    while i > 0
      invariant i <= end && (end > 0 ==> 0 <= i)
      invariant forall k :: 0 <= k < HEIGHT ==> line[k] == if i < k <= end && 1 <= k then v else was[k]
    {
      line[i] := v;
      i := i - 1;
    }
  }

  lemma LeftScanStep(mid: seq<int>, edge: seq<int>, flag: seq<int>, halfWidth: seq<int>, i: nat, end: int)
    requires |mid| == |edge| == |flag| == |halfWidth| == HEIGHT && i + 1 < HEIGHT
    ensures i <= 10 ==> LeftScan(mid, edge, flag, halfWidth, i, end) == (mid, end)
    ensures i > 10 ==>
              var v := LeftRow(mid, edge, flag, halfWidth, i);
              LeftScan(mid, edge, flag, halfWidth, i, end)
              == if v <= 0 then (mid[i := 0], i) else LeftScan(mid[i := v], edge, flag, halfWidth, i - 1, end)
  {
  }

  method LForkPatch(midline: array<int>, leftline: array<int>, rightline: array<int>,
                    leftlineflag: array<int>, halfWidth: array<int>, topPoint: int) returns (endRow: int)
    requires midline.Length == leftline.Length == rightline.Length == leftlineflag.Length == halfWidth.Length == HEIGHT
    requires midline != leftline && midline != rightline && leftline != rightline
    requires leftlineflag !in {midline, leftline, rightline} && halfWidth !in {midline, leftline, rightline}
    requires topPoint < HEIGHT
    modifies midline, leftline, rightline
    ensures (Lines(midline[..], leftline[..], rightline[..]), endRow)
         == LeftPatch(old(Lines(midline[..], leftline[..], rightline[..])), leftlineflag[..], halfWidth[..], topPoint)
    ensures exists m, stop :: Patched(true, old(Lines(midline[..], leftline[..], rightline[..])), leftlineflag[..],
                                      halfWidth[..], topPoint, Lines(midline[..], leftline[..], rightline[..]), endRow,
                                      m, stop)
  {
    hide Filled, LeftScan, Patched;
    ghost var m, l, r := midline[..], leftline[..], rightline[..];
    ghost var f, hw := leftlineflag[..], halfWidth[..];
    ghost var goal := LeftScan(m, l, f, hw, 115, topPoint);
    endRow := topPoint;
    var i := 115;
    while i > 10
      invariant 10 <= i <= 115 && endRow == topPoint
      invariant leftline[..] == l && rightline[..] == r && leftlineflag[..] == f && halfWidth[..] == hw
      invariant goal == LeftScan(midline[..], l, f, hw, i, topPoint)
    {
      ghost var before := midline[..];
      if leftlineflag[i] == 1 || i > 110 {
        midline[i] := leftline[i] + halfWidth[i];
      } else {
        midline[i] := midline[i + 1] - 2;
      }
      if Abs(midline[i] - midline[i + 1]) > 15 {
        midline[i] := midline[i + 1];
      }
      assert midline[..] == before[i := LeftRow(before, l, f, hw, i)];
      LeftScanStep(before, l, f, hw, i, topPoint);
      if midline[i] <= 0 {
        midline[i] := 0;
        endRow := i;
        assert midline[..] == before[i := 0];
        break;
      }
      i := i - 1;
    }
    if i == 10 {
      LeftScanStep(midline[..], l, f, hw, 10, topPoint);
    }
    assert (midline[..], endRow) == goal;
    FillRows(leftline, endRow, 0);
    FillRows(rightline, endRow, 0);
    FillRows(midline, endRow, 0);
    LeftPatchDraws(Lines(m, l, r), f, hw, topPoint);
  }

  lemma RightScanStep(mid: seq<int>, edge: seq<int>, flag: seq<int>, halfWidth: seq<int>, i: nat, end: int)
    requires |mid| == |edge| == |flag| == |halfWidth| == HEIGHT && i + 1 < HEIGHT
    ensures i <= 10 ==> RightScan(mid, edge, flag, halfWidth, i, end) == (mid, end)
    ensures i > 10 ==>
              var v := RightRow(mid, edge, flag, halfWidth, i);
              RightScan(mid, edge, flag, halfWidth, i, end)
              == if v >= LAST_COLUMN then (mid[i := LAST_COLUMN], i)
                 else RightScan(mid[i := v], edge, flag, halfWidth, i - 1, end)
  {
  }

  method RForkPatch(midline: array<int>, leftline: array<int>, rightline: array<int>,
                    rightlineflag: array<int>, halfWidth: array<int>, topPoint: int) returns (endRow: int)
    requires midline.Length == leftline.Length == rightline.Length == rightlineflag.Length == halfWidth.Length == HEIGHT
    requires midline != leftline && midline != rightline && leftline != rightline
    requires rightlineflag !in {midline, leftline, rightline} && halfWidth !in {midline, leftline, rightline}
    requires topPoint < HEIGHT
    modifies midline, leftline, rightline
    ensures (Lines(midline[..], leftline[..], rightline[..]), endRow)
         == RightPatch(old(Lines(midline[..], leftline[..], rightline[..])), rightlineflag[..], halfWidth[..], topPoint)
    ensures exists m, stop :: Patched(false, old(Lines(midline[..], leftline[..], rightline[..])), rightlineflag[..],
                                      halfWidth[..], topPoint, Lines(midline[..], leftline[..], rightline[..]), endRow,
                                      m, stop)
  {
    hide Filled, RightScan, Patched;
    ghost var m, l, r := midline[..], leftline[..], rightline[..];
    ghost var f, hw := rightlineflag[..], halfWidth[..];
    ghost var goal := RightScan(m, r, f, hw, 115, topPoint);
    endRow := topPoint;
    var i := 115;
    while i > 10
      invariant 10 <= i <= 115 && endRow == topPoint
      invariant leftline[..] == l && rightline[..] == r && rightlineflag[..] == f && halfWidth[..] == hw
      invariant goal == RightScan(midline[..], r, f, hw, i, topPoint)
    {
      ghost var before := midline[..];
      if rightlineflag[i] == 1 || i > 110 {
        midline[i] := rightline[i] - halfWidth[i];
      } else {
        midline[i] := midline[i + 1] + 2;
      }
      if Abs(midline[i] - midline[i + 1]) > 15 {
        midline[i] := midline[i + 1];
      }
      assert midline[..] == before[i := RightRow(before, r, f, hw, i)];
      RightScanStep(before, r, f, hw, i, topPoint);
      if midline[i] >= LAST_COLUMN {
        midline[i] := LAST_COLUMN;
        endRow := i;
        assert midline[..] == before[i := LAST_COLUMN];
        break;
      }
      i := i - 1;
    }
    if i == 10 {
      RightScanStep(midline[..], r, f, hw, 10, topPoint);
    }
    assert (midline[..], endRow) == goal;
    FillRows(leftline, endRow, LAST_COLUMN);
    FillRows(rightline, endRow, LAST_COLUMN);
    FillRows(midline, endRow, LAST_COLUMN);
    RightPatchDraws(Lines(m, l, r), f, hw, topPoint);
  }

  // ---------------------------------------------------------------------------------------
  // Left and right are mirror images
  // ---------------------------------------------------------------------------------------

  function Flip(s: seq<int>): (r: seq<int>)
    ensures |r| == |s|
  {
    seq(|s|, k requires 0 <= k < |s| => LAST_COLUMN - s[k])
  }

  function Mirror(a: Lines): Lines {
    Lines(Flip(a.mid), Flip(a.right), Flip(a.left))
  }

  lemma {:induction false} MirrorScan(mid: seq<int>, edge: seq<int>, flag: seq<int>, halfWidth: seq<int>, i: nat, end: int)
    requires |mid| == |edge| == |flag| == |halfWidth| == HEIGHT && i + 1 < HEIGHT
    ensures RightScan(Flip(mid), Flip(edge), flag, halfWidth, i, end)
         == (Flip(LeftScan(mid, edge, flag, halfWidth, i, end).0), LeftScan(mid, edge, flag, halfWidth, i, end).1)
    decreases i
  {
    if i > 10 {
      var v := LeftRow(mid, edge, flag, halfWidth, i);
      assert RightRow(Flip(mid), Flip(edge), flag, halfWidth, i) == LAST_COLUMN - v;
      if v <= 0 {
        assert Flip(mid)[i := LAST_COLUMN] == Flip(mid[i := 0]);
      } else {
        assert Flip(mid)[i := LAST_COLUMN - v] == Flip(mid[i := v]);
        MirrorScan(mid[i := v], edge, flag, halfWidth, i - 1, end);
      }
    }
  }

  // Patching the mirror image to the right is the mirror image of patching to the left.
  lemma PatchesMirror(a: Lines, flag: seq<int>, halfWidth: seq<int>, topPoint: int)
    requires Full(a) && |flag| == |halfWidth| == HEIGHT
    ensures RightPatch(Mirror(a), flag, halfWidth, topPoint)
         == (Mirror(LeftPatch(a, flag, halfWidth, topPoint).0), LeftPatch(a, flag, halfWidth, topPoint).1)
  {
    MirrorScan(a.mid, a.left, flag, halfWidth, 115, topPoint);
    var (m, e) := LeftScan(a.mid, a.left, flag, halfWidth, 115, topPoint);
    FillFlips(m, e);
    FillFlips(a.left, e);
    FillFlips(a.right, e);
  }

  lemma FillFlips(s: seq<int>, end: int)
    ensures Filled(Flip(s), end, LAST_COLUMN) == Flip(Filled(s, end, 0))
  {
  }

  // ---------------------------------------------------------------------------------------
  // Steps from row to row
  // ---------------------------------------------------------------------------------------

  lemma {:induction false} LeftScanSteps(mid: seq<int>, edge: seq<int>, flag: seq<int>, halfWidth: seq<int>,
                                         i: nat, end: int)
    requires |mid| == |edge| == |flag| == |halfWidth| == HEIGHT && i + 1 < HEIGHT
    ensures var (m, e) := LeftScan(mid, edge, flag, halfWidth, i, end);
            && |m| == HEIGHT
            && (forall k :: i < k < HEIGHT ==> m[k] == mid[k])
            && (10 < e <= i || e == end)
            && (forall k :: 10 < k <= i && e < k ==> Abs(m[k] - m[k + 1]) <= 15 && m[k] > 0)
    decreases i
  {
    if i > 10 {
      var v := LeftRow(mid, edge, flag, halfWidth, i);
      assert Abs(v - mid[i + 1]) <= 15;
      if v > 0 {
        LeftScanSteps(mid[i := v], edge, flag, halfWidth, i - 1, end);
      }
    }
  }

  // Above the end row, and from row 115 on, neighbouring rows of the patched midline differ by at
  // most 15 columns and stay right of column 0; from the end row down all is 0.
  lemma LeftPatchSteps(a: Lines, flag: seq<int>, halfWidth: seq<int>, topPoint: int)
    requires Full(a) && |flag| == |halfWidth| == HEIGHT && topPoint < HEIGHT
    ensures var (b, e) := LeftPatch(a, flag, halfWidth, topPoint);
            && Full(b) && (e == topPoint || 10 < e <= 115)
            && (forall k :: 10 < k <= 115 && e < k ==> Abs(b.mid[k] - b.mid[k + 1]) <= 15 && b.mid[k] > 0)
            && (forall k :: 1 <= k <= e ==> b.mid[k] == b.left[k] == b.right[k] == 0)
            && (forall k :: 0 <= k < HEIGHT && e < k ==> b.left[k] == a.left[k] && b.right[k] == a.right[k])
            && (forall k :: 115 < k < HEIGHT && e < k ==> b.mid[k] == a.mid[k])
  {
    LeftScanSteps(a.mid, a.left, flag, halfWidth, 115, topPoint);
  }

  lemma MirrorTwice(a: Lines)
    requires Full(a)
    ensures Full(Mirror(a)) && Mirror(Mirror(a)) == a
  {
    assert Flip(Flip(a.mid)) == a.mid && Flip(Flip(a.left)) == a.left && Flip(Flip(a.right)) == a.right;
  }

  // The same on the other side: neighbouring rows differ by at most 15 columns and stay left of the
  // last one; from the end row down all is in the last column.
  lemma RightPatchSteps(a: Lines, flag: seq<int>, halfWidth: seq<int>, topPoint: int)
    requires Full(a) && |flag| == |halfWidth| == HEIGHT && topPoint < HEIGHT
    ensures var (b, e) := RightPatch(a, flag, halfWidth, topPoint);
            && Full(b) && (e == topPoint || 10 < e <= 115)
            && (forall k :: 10 < k <= 115 && e < k ==> Abs(b.mid[k] - b.mid[k + 1]) <= 15 && b.mid[k] < LAST_COLUMN)
            && (forall k :: 1 <= k <= e ==> b.mid[k] == b.left[k] == b.right[k] == LAST_COLUMN)
            && (forall k :: 0 <= k < HEIGHT && e < k ==> b.left[k] == a.left[k] && b.right[k] == a.right[k])
            && (forall k :: 115 < k < HEIGHT && e < k ==> b.mid[k] == a.mid[k])
  {
    hide LeftPatch, RightPatch;
    MirrorTwice(a);
    LeftPatchSteps(Mirror(a), flag, halfWidth, topPoint);
    PatchesMirror(Mirror(a), flag, halfWidth, topPoint);
  }

  // ---------------------------------------------------------------------------------------
  // What the patched midline is, row by row
  // ---------------------------------------------------------------------------------------

  // The column of row k, from the column below it. Keeping left, it is half a road width right of the
  // left edge where that was found or is near, and 2 columns further left elsewhere; keeping right, the
  // other way round. If that is more than 15 columns away, it stays above the column below.
  function Wanted(left: bool, edge: seq<int>, flag: seq<int>, halfWidth: seq<int>, k: nat, below: int): int
    requires |edge| == |flag| == |halfWidth| == 120 && k < 120
  {
    var seen := flag[k] == 1 || k > 110;
    var w := if left then (if seen then edge[k] + halfWidth[k] else below - 2)
             else if seen then edge[k] - halfWidth[k] else below + 2;
    if -15 <= w - below <= 15 then w else below
  }

  predicate Outside(left: bool, column: int) {
    if left then column <= 0 else column >= 159
  }

  // m is the midline drawn from row 115 up: every row is as wanted from the row below it, up to the first
  // that leaves the image, or up to row 11. Other rows are as they were.
  ghost predicate Drawn(left: bool, mid: seq<int>, edge: seq<int>, flag: seq<int>, halfWidth: seq<int>,
                        m: seq<int>, stop: int)
    requires |mid| == |edge| == |flag| == |halfWidth| == |m| == 120
  {
    && 10 <= stop <= 115
    && (forall k :: stop < k <= 115 ==>
          m[k] == Wanted(left, edge, flag, halfWidth, k, m[k + 1]) && !Outside(left, m[k]))
    && (stop > 10 ==> Outside(left, Wanted(left, edge, flag, halfWidth, stop, m[stop + 1])))
    && (forall k :: 0 <= k < 120 && (k < stop || k <= 10 || k > 115) ==> m[k] == mid[k])
  }

  // Rows 1 to e of a line moved to the border, the others kept.
  predicate Blanked(line: seq<int>, was: seq<int>, e: int, border: int)
    requires |line| == |was| == 120
  {
    forall k :: 0 <= k < 120 ==> line[k] == if 1 <= k <= e then border else was[k]
  }

  // The patch of lines a gives lines b and end row e: the drawn midline, ending where it left the image
  // or at the road's top, and all three lines at the border from there up.
  ghost predicate Patched(left: bool, a: Lines, flag: seq<int>, halfWidth: seq<int>, topPoint: int, b: Lines, e: int,
                          m: seq<int>, stop: int)
  {
    var border := if left then 0 else 159;
    && |a.mid| == |a.left| == |a.right| == |flag| == |halfWidth| == |b.mid| == |b.left| == |b.right| == |m| == 120
    && Drawn(left, a.mid, if left then a.left else a.right, flag, halfWidth, m, stop)
    && e == (if stop > 10 then stop else topPoint)
    && Blanked(b.mid, m, e, border) && Blanked(b.left, a.left, e, border) && Blanked(b.right, a.right, e, border)
  }

  lemma {:induction false} LeftScanDraws(mid: seq<int>, edge: seq<int>, flag: seq<int>, halfWidth: seq<int>,
                                         i: nat, end: int) returns (m: seq<int>, stop: int)
    requires |mid| == |edge| == |flag| == |halfWidth| == HEIGHT && 10 <= i <= 115
    ensures |m| == HEIGHT && 10 <= stop <= i
    ensures forall k :: stop < k <= i ==> m[k] == Wanted(true, edge, flag, halfWidth, k, m[k + 1]) && m[k] > 0
    ensures stop > 10 ==> Wanted(true, edge, flag, halfWidth, stop, m[stop + 1]) <= 0
    ensures forall k :: 0 <= k < HEIGHT && (k < stop || k <= 10 || k > i) ==> m[k] == mid[k]
    ensures LeftScan(mid, edge, flag, halfWidth, i, end)
         == if stop > 10 then (m[stop := 0], stop) else (m, end)
    decreases i
  {
    LeftScanStep(mid, edge, flag, halfWidth, i, end);
    hide LeftScan;
    if i == 10 {
      m, stop := mid, 10;
    } else {
      var v := LeftRow(mid, edge, flag, halfWidth, i);
      assert v == Wanted(true, edge, flag, halfWidth, i, mid[i + 1]);
      hide LeftRow, Wanted;
      if v <= 0 {
        m, stop := mid, i;
      } else {
        m, stop := LeftScanDraws(mid[i := v], edge, flag, halfWidth, i - 1, end);
      }
    }
  }

  lemma {:induction false} RightScanDraws(mid: seq<int>, edge: seq<int>, flag: seq<int>, halfWidth: seq<int>,
                                          i: nat, end: int) returns (m: seq<int>, stop: int)
    requires |mid| == |edge| == |flag| == |halfWidth| == HEIGHT && 10 <= i <= 115
    ensures |m| == HEIGHT && 10 <= stop <= i
    ensures forall k :: stop < k <= i ==> m[k] == Wanted(false, edge, flag, halfWidth, k, m[k + 1]) && m[k] < 159
    ensures stop > 10 ==> Wanted(false, edge, flag, halfWidth, stop, m[stop + 1]) >= 159
    ensures forall k :: 0 <= k < HEIGHT && (k < stop || k <= 10 || k > i) ==> m[k] == mid[k]
    ensures RightScan(mid, edge, flag, halfWidth, i, end)
         == if stop > 10 then (m[stop := 159], stop) else (m, end)
    decreases i
  {
    RightScanStep(mid, edge, flag, halfWidth, i, end);
    hide RightScan;
    if i == 10 {
      m, stop := mid, 10;
    } else {
      var v := RightRow(mid, edge, flag, halfWidth, i);
      assert v == Wanted(false, edge, flag, halfWidth, i, mid[i + 1]);
      hide RightRow, Wanted;
      if v >= LAST_COLUMN {
        m, stop := mid, i;
      } else {
        m, stop := RightScanDraws(mid[i := v], edge, flag, halfWidth, i - 1, end);
      }
    }
  }

  // The patch draws that midline, whatever the lines, the flags and the half-width table are.
  lemma LeftPatchDraws(a: Lines, flag: seq<int>, halfWidth: seq<int>, topPoint: int)
    requires Full(a) && |flag| == |halfWidth| == HEIGHT
    ensures var (b, e) := LeftPatch(a, flag, halfWidth, topPoint);
            exists m, stop :: Patched(true, a, flag, halfWidth, topPoint, b, e, m, stop)
  {
    hide LeftScan, Wanted;
    var m, stop := LeftScanDraws(a.mid, a.left, flag, halfWidth, 115, topPoint);
    var (b, e) := LeftPatch(a, flag, halfWidth, topPoint);
    assert Patched(true, a, flag, halfWidth, topPoint, b, e, m, stop);
  }

  lemma RightPatchDraws(a: Lines, flag: seq<int>, halfWidth: seq<int>, topPoint: int)
    requires Full(a) && |flag| == |halfWidth| == HEIGHT
    ensures var (b, e) := RightPatch(a, flag, halfWidth, topPoint);
            exists m, stop :: Patched(false, a, flag, halfWidth, topPoint, b, e, m, stop)
  {
    hide RightScan, Wanted;
    var m, stop := RightScanDraws(a.mid, a.right, flag, halfWidth, 115, topPoint);
    var (b, e) := RightPatch(a, flag, halfWidth, topPoint);
    assert Patched(false, a, flag, halfWidth, topPoint, b, e, m, stop);
  }
}
