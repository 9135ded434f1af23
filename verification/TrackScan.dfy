/**
 * The bottom-up scan of the binary image: every row is searched for its two edges from the column
 * that the row below suggests.
 */
module TrackScan {
  import opened Screen

  // One scanned row, and the column from which the next row is searched.
  datatype Row = Row(left: int, right: int, mid: int, width: int, leftFlag: bool, rightFlag: bool, seed: int)

  // What the fork state contributes: whether a fork is under way, and its two directions.
  datatype Fork = Fork(active: bool, dir1: int, dir2: int)

  function Pixels(img: seq<int>, i: nat): (row: seq<int>)
    requires |img| == HEIGHT * WIDTH && i < HEIGHT
    ensures |row| == WIDTH
  {
    img[WIDTH * i..WIDTH * i + WIDTH]
  }

  // White, white, black: going left from j, and going right from j.
  predicate LeftPattern(row: seq<int>, j: int)
    requires |row| == WIDTH && 2 <= j < WIDTH
  {
    row[j] != 0 && row[j - 1] != 0 && row[j - 2] == 0
  }

  predicate RightPattern(row: seq<int>, j: int)
    requires |row| == WIDTH && 0 <= j < WIDTH - 2
  {
    row[j] != 0 && row[j + 1] != 0 && row[j + 2] == 0
  }

  // The pattern nearest to the seed on either side, or -1.
  function NearestLeft(row: seq<int>, j: int): (r: int)
    requires |row| == WIDTH && j < WIDTH
    ensures r == -1 <==> forall m :: 3 <= m <= j ==> !LeftPattern(row, m)
    ensures r != -1 ==> 3 <= r <= j && LeftPattern(row, r) && forall m :: r < m <= j ==> !LeftPattern(row, m)
  {
    if j <= 2 then -1 else if LeftPattern(row, j) then j else NearestLeft(row, j - 1)
  }

  function NearestRight(row: seq<int>, j: int): (r: int)
    requires |row| == WIDTH && 0 <= j
    ensures r == -1 <==> forall m :: j <= m <= 156 ==> !RightPattern(row, m)
    ensures r != -1 ==> j <= r <= 156 && RightPattern(row, r) && forall m :: j <= m < r ==> !RightPattern(row, m)
    decreases WIDTH - j
  {
    if j >= 157 then -1 else if RightPattern(row, j) then j else NearestRight(row, j + 1)
  }

  // The midline of a row from its edges; gap tells that both edges were lost some rows below.
  function Middle(i: nat, left: int, right: int, leftFlag: bool, rightFlag: bool, below: Row, gap: bool): int {
    if leftFlag && rightFlag then (left + right) / 2
    else if rightFlag then
      if i < 99 && right <= below.right && gap then below.mid else (left + right) / 2
    else if leftFlag then
      if i < 99 && left >= below.left && gap then below.mid else (left + right) / 2
    else if i == START then 80 else below.mid
  }

  function NextSeed(mid: int, width: int, fork: Fork): int {
    if fork.active && (fork.dir1 == 1 || fork.dir2 == 0) then Limit(mid + width / 3)
    else if fork.active && (fork.dir1 == 0 || fork.dir2 == 0) then Limit(mid - width / 3)
    else Limit(mid)
  }

  // The edges of a row with patterns found at jl and jr, -1 for none.
  function Edges(jl: int, jr: int): Row {
    Row(if jl != -1 then jl - 1 else 0, if jr != -1 then jr + 1 else 159, 80, 0, jl != -1, jr != -1, 0)
  }

  // The row with a lost edge at the border, and with its midline, width and seed.
  function Finish(i: nat, r: Row, below: Row, gap: bool, fork: Fork): Row {
    var left, right := if r.leftFlag then r.left else 0, if r.rightFlag then r.right else 159;
    var mid := Limit(Middle(i, left, right, r.leftFlag, r.rightFlag, below, gap));
    Row(left, right, mid, right - left, r.leftFlag, r.rightFlag, NextSeed(mid, right - left, fork))
  }

  function Complete(i: nat, jl: int, jr: int, below: Row, gap: bool, fork: Fork): Row {
    Finish(i, Edges(jl, jr), below, gap, fork)
  }

  function ScanRow(row: seq<int>, i: nat, seed: int, below: Row, gap: bool, fork: Fork): (r: Row)
    requires |row| == WIDTH && 0 <= seed < WIDTH
    ensures 0 <= r.seed < WIDTH
  {
    Complete(i, NearestLeft(row, seed), NearestRight(row, seed), below, gap, fork)
  }

  predicate BothLost(r: Row) {
    !r.leftFlag && !r.rightFlag
  }

  // ---------------------------------------------------------------------------------------
  // The scan as a recursion over rows
  // ---------------------------------------------------------------------------------------

  // Rows i to 118, from the top one down.
  ghost function Scan(img: seq<int>, seed: int, fork: Fork, i: nat): (rows: seq<Row>)
    requires |img| == HEIGHT * WIDTH && 0 <= seed < WIDTH && i <= START + 1
    ensures |rows| == START + 1 - i
    ensures rows != [] ==> 0 <= rows[0].seed < WIDTH
    decreases START + 1 - i
  {
    if i > START then []
    else
      var below := Scan(img, seed, fork, i + 1);
      [TopRow(img, seed, fork, i, below)] + below
  }

  ghost function TopRow(img: seq<int>, seed: int, fork: Fork, i: nat, below: seq<Row>): (r: Row)
    requires |img| == HEIGHT * WIDTH && 0 <= seed < WIDTH && i <= START && |below| == START - i
    requires below != [] ==> 0 <= below[0].seed < WIDTH
    ensures 0 <= r.seed < WIDTH
  {
    if i == START then ScanRow(Pixels(img, i), i, seed, Row(0, 0, 0, 0, false, false, 0), false, fork)
    else ScanRow(Pixels(img, i), i, below[0].seed, below[0], Gap(below, i), fork)
  }

  // Both edges were lost 8, 11 or 15 rows below row i.
  ghost function Gap(below: seq<Row>, i: nat): bool
    requires |below| == START - i
  {
    i < 99 && (BothLost(below[7]) || BothLost(below[10]) || BothLost(below[14]))
  }

  // Row k of the rows i to 118 has the flag.
  ghost predicate FlaggedAt(rows: seq<Row>, i: nat, k: int, left: bool)
    requires |rows| == START + 1 - i && i <= k <= START
  {
    Flagged(rows[k - i], left)
  }

  // The lowest row, from row 118 up to row i, that satisfies the flag; 0 if none does.
  ghost function LowestFlagged(rows: seq<Row>, left: bool, i: nat): (r: nat)
    requires |rows| == START + 1 - i && 1 <= i <= START + 1
    ensures r != 0 ==> i <= r <= START && FlaggedAt(rows, i, r, left)
    ensures forall k :: i <= k <= START && k > r ==> !FlaggedAt(rows, i, k, left)
    decreases START + 1 - i
  {
    if i > START then 0
    else
      var r := LowestFlagged(rows[1..], left, i + 1);
      assert forall k :: i < k <= START ==> FlaggedAt(rows, i, k, left) == FlaggedAt(rows[1..], i + 1, k, left);
      if r != 0 then r else if Flagged(rows[0], left) then i else 0
  }

  predicate Flagged(r: Row, left: bool) {
    if left then r.leftFlag else r.rightFlag
  }

  lemma LowestStep(r: Row, below: seq<Row>, left: bool, i: nat)
    requires |below| == START - i && 1 <= i <= START
    ensures LowestFlagged([r] + below, left, i)
         == var l := LowestFlagged(below, left, i + 1); if l != 0 then l else if Flagged(r, left) then i else 0
  {
    assert ([r] + below)[1..] == below;
  }

  // ---------------------------------------------------------------------------------------
  // What every row satisfies
  // ---------------------------------------------------------------------------------------

  // Edges are in order and inside the image, and so are the midline and the next seed.
  predicate InImage(r: Row) {
    && 0 <= r.left < r.right <= 159 && r.width == r.right - r.left
    && 0 <= r.mid <= 159 && 0 <= r.seed <= 159
    && (!r.leftFlag ==> r.left == 0) && (!r.rightFlag ==> r.right == 159)
  }

  // A row's edges are the patterns nearest to its seed, on either side of it.
  ghost predicate EdgesNearest(row: seq<int>, seed: int, r: Row)
    requires |row| == WIDTH && 0 <= seed < WIDTH
  {
    && (r.leftFlag <==> exists m :: 3 <= m <= seed && LeftPattern(row, m))
    && (r.leftFlag ==> 3 <= r.left + 1 <= seed && LeftPattern(row, r.left + 1)
                       && forall m :: r.left + 1 < m <= seed ==> !LeftPattern(row, m))
    && (r.rightFlag <==> exists m :: seed <= m <= 156 && RightPattern(row, m))
    && (r.rightFlag ==> seed <= r.right - 1 <= 156 && RightPattern(row, r.right - 1)
                        && forall m :: seed <= m < r.right - 1 ==> !RightPattern(row, m))
  }

  lemma ScanRowSound(row: seq<int>, i: nat, seed: int, below: Row, gap: bool, fork: Fork)
    requires |row| == WIDTH && 0 <= seed < WIDTH
    ensures var r := ScanRow(row, i, seed, below, gap, fork); InImage(r) && EdgesNearest(row, seed, r)
  {
    hide Complete, LeftPattern, RightPattern, InImage;
    CompleteSound(i, NearestLeft(row, seed), NearestRight(row, seed), seed, below, gap, fork);
  }

  // A row completed from patterns on either side of the seed.
  lemma CompleteSound(i: nat, jl: int, jr: int, seed: int, below: Row, gap: bool, fork: Fork)
    requires 0 <= seed < WIDTH && (jl == -1 || 3 <= jl <= seed) && (jr == -1 || seed <= jr <= 156)
    ensures var r := Complete(i, jl, jr, below, gap, fork);
            && InImage(r) && r.leftFlag == (jl != -1) && r.rightFlag == (jr != -1)
            && (jl != -1 ==> r.left == jl - 1) && (jr != -1 ==> r.right == jr + 1)
  {
    hide Middle;
  }

  ghost function SeedOf(rows: seq<Row>, seed: int, k: nat): int
    requires k < |rows|
  {
    if k + 1 < |rows| then rows[k + 1].seed else seed
  }

  // Every scanned row is in order, its edges are the ones nearest to the column that the row below
  // it suggested, and that column is the row below's midline outside forks.
  lemma {:induction false} RowsSound(img: seq<int>, seed: int, fork: Fork, i: nat, k: nat)
    requires |img| == HEIGHT * WIDTH && 0 <= seed < WIDTH && i <= k <= START
    ensures var rows := Scan(img, seed, fork, i);
            && InImage(rows[k - i]) && 0 <= SeedOf(rows, seed, k - i) < WIDTH
            && EdgesNearest(Pixels(img, k), SeedOf(rows, seed, k - i), rows[k - i])
            && (!fork.active && k < START ==> SeedOf(rows, seed, k - i) == rows[k + 1 - i].mid)
    decreases START - i
  {
    hide Pixels, ScanRow, EdgesNearest, InImage;
    var below := Scan(img, seed, fork, i + 1);
    var rows := Scan(img, seed, fork, i);
    assert rows[1..] == below;
    if i < k {
      RowsSound(img, seed, fork, i + 1, k);
      assert rows[k - i] == below[k - (i + 1)] && SeedOf(rows, seed, k - i) == SeedOf(below, seed, k - (i + 1));
    } else if i == START {
      ScanRowSound(Pixels(img, i), i, seed, Row(0, 0, 0, 0, false, false, 0), false, fork);
    } else {
      ScanRowSound(Pixels(img, i), i, below[0].seed, below[0], Gap(below, i), fork);
      SeedIsMid(img, seed, fork, i + 1);
    }
  }

  lemma SeedIsMid(img: seq<int>, seed: int, fork: Fork, i: nat)
    requires |img| == HEIGHT * WIDTH && 0 <= seed < WIDTH && i <= START
    ensures !fork.active ==> Scan(img, seed, fork, i)[0].seed == Scan(img, seed, fork, i)[0].mid
  {
  }

  // ---------------------------------------------------------------------------------------
  // Every row in terms of the pixels, the row below it, and the fork
  // ---------------------------------------------------------------------------------------

  // The pixel in column j of row k.
  ghost function Dot(img: seq<int>, k: nat, j: nat): int
    requires |img| == 120 * 160 && k < 120 && j < 160
  {
    img[160 * k + j]
  }

  // The left edge is just outside the first white, white, black found going left from column s, and is
  // flagged if there is one; the right edge likewise. A lost edge is put at the border.
  ghost predicate EdgeLaw(img: seq<int>, k: nat, s: int, r: Row)
    requires |img| == 120 * 160 && k < 120 && 0 <= s < 160
  {
    && (if r.leftFlag then
          && 2 <= r.left < s
          && Dot(img, k, r.left + 1) != 0 && Dot(img, k, r.left) != 0 && Dot(img, k, r.left - 1) == 0
        else r.left == 0)
    && (forall m :: 3 <= m <= s && Dot(img, k, m) != 0 && Dot(img, k, m - 1) != 0 && Dot(img, k, m - 2) == 0 ==>
          r.leftFlag && m <= r.left + 1)
    && (if r.rightFlag then
          && s < r.right <= 157
          && Dot(img, k, r.right - 1) != 0 && Dot(img, k, r.right) != 0 && Dot(img, k, r.right + 1) == 0
        else r.right == 159)
    && (forall m :: s <= m <= 156 && Dot(img, k, m) != 0 && Dot(img, k, m + 1) != 0 && Dot(img, k, m + 2) == 0 ==>
          r.rightFlag && r.right - 1 <= m)
  }

  predicate Halfway(r: Row) {
    2 * r.mid <= r.left + r.right <= 2 * r.mid + 1
  }

  // The midline is halfway between the edges; with one edge lost it goes on straight up if the other
  // one closes in above a gap in both; with both lost it goes on straight up, from column 80.
  predicate MidLaw(k: nat, r: Row, below: Row, gap: bool) {
    && (r.leftFlag && r.rightFlag ==> Halfway(r))
    && (r.leftFlag && !r.rightFlag ==> if gap && r.left >= below.left then r.mid == below.mid else Halfway(r))
    && (!r.leftFlag && r.rightFlag ==> if gap && r.right <= below.right then r.mid == below.mid else Halfway(r))
    && (!r.leftFlag && !r.rightFlag ==> r.mid == if k == 118 then 80 else below.mid)
  }

  // The next row is searched from the midline, or in a fork from a third of the width to one side.
  predicate SeedLaw(r: Row, fork: Fork) {
    var x := if fork.active && (fork.dir1 == 1 || fork.dir2 == 0) then r.mid + (r.right - r.left) / 3
             else if fork.active && fork.dir1 == 0 then r.mid - (r.right - r.left) / 3
             else r.mid;
    r.seed == if x < 0 then 0 else if x > 159 then 159 else x
  }

  // Both edges were lost in the row 8, 11 or 15 below the j-th.
  ghost predicate LostBelow(rows: seq<Row>, j: nat)
    requires j + 15 < |rows|
  {
    || (!rows[j + 8].leftFlag && !rows[j + 8].rightFlag)
    || (!rows[j + 11].leftFlag && !rows[j + 11].rightFlag)
    || (!rows[j + 15].leftFlag && !rows[j + 15].rightFlag)
  }

  // All this holds of every row of the scan of any image.
  lemma ScanLaw(img: seq<int>, seed: int, fork: Fork, i: nat, k: nat)
    requires |img| == HEIGHT * WIDTH && 0 <= seed < WIDTH && 1 <= i <= k <= START
    ensures var rows := Scan(img, seed, fork, i);
            var r, s := rows[k - i], if k == START then seed else rows[k + 1 - i].seed;
            && 0 <= s < WIDTH && EdgeLaw(img, k, s, r) && SeedLaw(r, fork)
            && 0 <= r.mid <= 159 && r.width == r.right - r.left
            && MidLaw(k, r, if k == START then r else rows[k + 1 - i], k < 99 && LostBelow(rows, k - i))
  {
    hide EdgeLaw, SeedLaw, MidLaw, Scan, TopRow, ScanRow, Pixels;
    ScanSuffix(img, seed, fork, i, k);
    var rows, top := Scan(img, seed, fork, i), Scan(img, seed, fork, k);
    TopLaw(img, seed, fork, k);
    assert forall j :: 0 <= j < |top| ==> top[j] == rows[k - i + j];
  }

  lemma {:induction false} ScanSuffix(img: seq<int>, seed: int, fork: Fork, i: nat, k: nat)
    requires |img| == HEIGHT * WIDTH && 0 <= seed < WIDTH && i <= k <= START + 1
    ensures Scan(img, seed, fork, i)[k - i..] == Scan(img, seed, fork, k)
    decreases k - i
  {
    hide TopRow;
    if i < k {
      ScanSuffix(img, seed, fork, i + 1, k);
      assert Scan(img, seed, fork, i)[1..] == Scan(img, seed, fork, i + 1);
      assert Scan(img, seed, fork, i)[k - i..] == Scan(img, seed, fork, i)[1..][k - i - 1..];
    }
  }

  lemma TopLaw(img: seq<int>, seed: int, fork: Fork, k: nat)
    requires |img| == HEIGHT * WIDTH && 0 <= seed < WIDTH && 1 <= k <= START
    ensures var rows := Scan(img, seed, fork, k);
            var r, s := rows[0], if k == START then seed else rows[1].seed;
            && 0 <= s < WIDTH && EdgeLaw(img, k, s, r) && SeedLaw(r, fork)
            && 0 <= r.mid <= 159 && r.width == r.right - r.left
            && MidLaw(k, r, if k == START then r else rows[1], k < 99 && LostBelow(rows, 0))
  {
    hide EdgeLaw, SeedLaw, MidLaw, ScanRow, Pixels, InImage, EdgesNearest, TopRow;
    var below := Scan(img, seed, fork, k + 1);
    var rows := Scan(img, seed, fork, k);
    assert rows == [rows[0]] + below && rows[0] == TopRow(img, seed, fork, k, below);
    TopRowIs(img, seed, fork, k, below);
    if k == START {
      RowLaw(img, k, seed, Row(0, 0, 0, 0, false, false, 0), false, false, fork);
      BottomMid(rows[0], Row(0, 0, 0, 0, false, false, 0));
    } else {
      RowsSound(img, seed, fork, k + 1, k + 1);
      InImageIs(below[0]);
      var near := k < 99 && LostBelow(rows, 0);
      assert k < 99 ==> Gap(below, k) == LostBelow(rows, 0);
      RowLaw(img, k, below[0].seed, below[0], Gap(below, k), near, fork);
    }
  }

  lemma InImageIs(r: Row)
    requires InImage(r)
    ensures 0 <= r.mid <= 159
  {
  }

  // In the bottom row nothing below is looked at.
  lemma BottomMid(r: Row, below: Row)
    requires MidLaw(START, r, below, false)
    ensures MidLaw(START, r, r, false)
  {
  }

  lemma RowLaw(img: seq<int>, k: nat, s: int, below: Row, gap: bool, near: bool, fork: Fork)
    requires near == (k < 99 && gap)
    requires |img| == HEIGHT * WIDTH && 1 <= k <= START && 0 <= s < WIDTH
    requires k < START ==> 0 <= below.mid <= 159
    ensures var r := ScanRow(Pixels(img, k), k, s, below, gap, fork);
            EdgeLaw(img, k, s, r) && MidLaw(k, r, below, near) && SeedLaw(r, fork)
            && 0 <= r.mid <= 159 && r.width == r.right - r.left
  {
    hide EdgeLaw, MidLaw, SeedLaw, Complete, Pixels, LeftPattern, RightPattern, NearestLeft, NearestRight;
    var jl, jr := NearestLeft(Pixels(img, k), s), NearestRight(Pixels(img, k), s);
    var r := Complete(k, jl, jr, below, gap, fork);
    assert r == ScanRow(Pixels(img, k), k, s, below, gap, fork);
    CompletedLaw(k, jl, jr, s, below, gap, near, fork);
    NearestLaw(img, k, s, r);
  }

  lemma CompletedLaw(k: nat, jl: int, jr: int, s: int, below: Row, gap: bool, near: bool, fork: Fork)
    requires near == (k < 99 && gap)
    requires 1 <= k <= START && 0 <= s < WIDTH && (jl == -1 || 3 <= jl <= s) && (jr == -1 || s <= jr <= 156)
    requires k < START ==> 0 <= below.mid <= 159
    ensures var r := Complete(k, jl, jr, below, gap, fork);
            && MidLaw(k, r, below, near) && SeedLaw(r, fork) && 0 <= r.mid <= 159 && r.width == r.right - r.left
            && r.leftFlag == (jl != -1) && r.left == (if jl != -1 then jl - 1 else 0)
            && r.rightFlag == (jr != -1) && r.right == (if jr != -1 then jr + 1 else 159)
  {
  }

  lemma NearestLaw(img: seq<int>, k: nat, s: int, r: Row)
    requires |img| == HEIGHT * WIDTH && 1 <= k <= START && 0 <= s < WIDTH
    requires var jl := NearestLeft(Pixels(img, k), s);
             r.leftFlag == (jl != -1) && r.left == if jl != -1 then jl - 1 else 0
    requires var jr := NearestRight(Pixels(img, k), s);
             r.rightFlag == (jr != -1) && r.right == if jr != -1 then jr + 1 else 159
    ensures EdgeLaw(img, k, s, r)
  {
    hide NearestLeft, NearestRight, Pixels, LeftPattern, RightPattern, Dot;
    LeftNearestLaw(img, k, s, NearestLeft(Pixels(img, k), s));
    RightNearestLaw(img, k, s, NearestRight(Pixels(img, k), s));
  }

  lemma LeftNearestLaw(img: seq<int>, k: nat, s: int, jl: int)
    requires |img| == HEIGHT * WIDTH && k < HEIGHT && 0 <= s < WIDTH && jl == NearestLeft(Pixels(img, k), s)
    ensures jl != -1 ==> 3 <= jl <= s && Dot(img, k, jl) != 0 && Dot(img, k, jl - 1) != 0 && Dot(img, k, jl - 2) == 0
    ensures forall m :: 3 <= m <= s && Dot(img, k, m) != 0 && Dot(img, k, m - 1) != 0 && Dot(img, k, m - 2) == 0 ==>
              jl != -1 && m <= jl
  {
    hide NearestLeft, Pixels, LeftPattern, Dot;
    forall m | 3 <= m <= s && Dot(img, k, m) != 0 && Dot(img, k, m - 1) != 0 && Dot(img, k, m - 2) == 0
      ensures jl != -1 && m <= jl
    {
      LeftIs(img, k, m);
    }
    if jl != -1 {
      LeftIs(img, k, jl);
    }
  }

  lemma RightNearestLaw(img: seq<int>, k: nat, s: int, jr: int)
    requires |img| == HEIGHT * WIDTH && k < HEIGHT && 0 <= s < WIDTH && jr == NearestRight(Pixels(img, k), s)
    ensures jr != -1 ==>
              s <= jr <= 156 && Dot(img, k, jr) != 0 && Dot(img, k, jr + 1) != 0 && Dot(img, k, jr + 2) == 0
    ensures forall m :: s <= m <= 156 && Dot(img, k, m) != 0 && Dot(img, k, m + 1) != 0 && Dot(img, k, m + 2) == 0 ==>
              jr != -1 && jr <= m
  {
    hide NearestRight, Pixels, RightPattern, Dot;
    forall m | s <= m <= 156 && Dot(img, k, m) != 0 && Dot(img, k, m + 1) != 0 && Dot(img, k, m + 2) == 0
      ensures jr != -1 && jr <= m
    {
      RightIs(img, k, m);
    }
    if jr != -1 {
      RightIs(img, k, jr);
    }
  }

  lemma LeftIs(img: seq<int>, k: nat, m: int)
    requires |img| == HEIGHT * WIDTH && k < HEIGHT && 3 <= m < WIDTH
    ensures LeftPattern(Pixels(img, k), m)
            <==> Dot(img, k, m) != 0 && Dot(img, k, m - 1) != 0 && Dot(img, k, m - 2) == 0
  {
    DotIs(img, k, m);
    DotIs(img, k, m - 1);
    DotIs(img, k, m - 2);
    hide Dot, Pixels;
  }

  lemma RightIs(img: seq<int>, k: nat, m: int)
    requires |img| == HEIGHT * WIDTH && k < HEIGHT && 0 <= m < WIDTH - 2
    ensures RightPattern(Pixels(img, k), m)
            <==> Dot(img, k, m) != 0 && Dot(img, k, m + 1) != 0 && Dot(img, k, m + 2) == 0
  {
    DotIs(img, k, m);
    DotIs(img, k, m + 1);
    DotIs(img, k, m + 2);
    hide Dot, Pixels;
  }

  lemma DotIs(img: seq<int>, k: nat, j: nat)
    requires |img| == HEIGHT * WIDTH && k < HEIGHT && j < WIDTH
    ensures Pixels(img, k)[j] == Dot(img, k, j)
  {
  }

  // ---------------------------------------------------------------------------------------
  // The loops
  // ---------------------------------------------------------------------------------------

  class Track {
    const rows: array<Row>
    var columnStart: int
    var leftStartRow: int
    var rightStartRow: int

    constructor ()
      ensures fresh(rows) && rows.Length == HEIGHT && columnStart == 80
    {
      rows := new Row[HEIGHT](_ => Row(0, 0, 0, 0, false, false, 0));
      columnStart, leftStartRow, rightStartRow := 80, 0, 0;
    }

    ghost function State(): (s: TrackState)
      reads this, rows
    {
      TrackState(rows[..], columnStart, leftStartRow, rightStartRow)
    }

    method SearchLeft(img: array<int>, i: nat, k: int) returns (r: int)
      requires img.Length == HEIGHT * WIDTH && i < HEIGHT && k < WIDTH
      ensures r == NearestLeft(Pixels(img[..], i), k)
    {
      ghost var row := Pixels(img[..], i);
      var j := k;
      while j > 2
        invariant j <= k && NearestLeft(row, k) == NearestLeft(row, j)
      {
        assert row[j] == img[WIDTH * i + j] && row[j - 1] == img[WIDTH * i + j - 1] && row[j - 2] == img[WIDTH * i + j - 2];
        if img[WIDTH * i + j] != 0 && img[WIDTH * i + j - 1] != 0 && img[WIDTH * i + j - 2] == 0 {
          return j;
        }
        j := j - 1;
      }
      return -1;
    }

    method SearchRight(img: array<int>, i: nat, k: int) returns (r: int)
      requires img.Length == HEIGHT * WIDTH && i < HEIGHT && 0 <= k
      ensures r == NearestRight(Pixels(img[..], i), k)
    {
      ghost var row := Pixels(img[..], i);
      var j := k;
      while j < 157
        invariant k <= j && NearestRight(row, k) == NearestRight(row, j)
      {
        assert row[j] == img[WIDTH * i + j] && row[j + 1] == img[WIDTH * i + j + 1] && row[j + 2] == img[WIDTH * i + j + 2];
        if img[WIDTH * i + j] != 0 && img[WIDTH * i + j + 1] != 0 && img[WIDTH * i + j + 2] == 0 {
          return j;
        }
        j := j + 1;
      }
      return -1;
    }

    // The edges of row i, a lost one at the border, and the midline they give.
    method MidlineOf(i: nat) returns (left: int, right: int, mid: int)
      requires rows.Length == HEIGHT && 0 < i <= START
      ensures left == (if rows[i].leftFlag then rows[i].left else 0)
      ensures right == (if rows[i].rightFlag then rows[i].right else 159)
      ensures mid == Middle(i, left, right, rows[i].leftFlag, rows[i].rightFlag, rows[i + 1], GapIn(rows[..], i))
      ensures MidLaw(i, rows[i].(left := left, right := right, mid := mid), rows[i + 1],
                     i < 99 && LostBelow(rows[..], i))
    {
      left, right := rows[i].left, rows[i].right;
      if rows[i].leftFlag && rows[i].rightFlag {
        mid := (left + right) / 2;
      } else if !rows[i].leftFlag && rows[i].rightFlag {
        left := 0;
        mid := (left + right) / 2;
        if i < 99 && right <= rows[i + 1].right
           && (BothLost(rows[i + 8]) || BothLost(rows[i + 11]) || BothLost(rows[i + 15])) {
          mid := rows[i + 1].mid;
        }
      } else if rows[i].leftFlag && !rows[i].rightFlag {
        right := 159;
        mid := (left + right) / 2;
        if i < 99 && left >= rows[i + 1].left
           && (BothLost(rows[i + 8]) || BothLost(rows[i + 11]) || BothLost(rows[i + 15])) {
          mid := rows[i + 1].mid;
        }
      } else {
        left, right := 0, 159;
        if i == START {
          mid := 80;
        } else {
          mid := rows[i + 1].mid;
        }
      }
    }

    // Completes row i, whose edges are known, with its midline, its width and the next seed.
    method MidlineProc2(i: nat, fork: Fork)
      requires rows.Length == HEIGHT && 0 < i <= START
      modifies this`columnStart, rows
      ensures rows[..] == old(rows[..][i := Finish(i, rows[i], rows[i + 1], GapIn(rows[..], i), fork)])
      ensures columnStart == rows[i].seed && SeedLaw(rows[i], fork)
      ensures 0 <= rows[i].mid <= 159 && rows[i].width == rows[i].right - rows[i].left
    {
      hide GapIn, Middle, MidLaw;
      var left, right, mid := MidlineOf(i);
      mid := Limit(mid);
      var width := right - left;
      columnStart := mid;
      if fork.active && (fork.dir1 == 0 || fork.dir2 == 0) {
        columnStart := mid - width / 3;
      }
      if fork.active && (fork.dir1 == 1 || fork.dir2 == 0) {
        columnStart := mid + width / 3;
      }
      columnStart := Limit(columnStart);
      rows[i] := Row(left, right, mid, width, rows[i].leftFlag, rows[i].rightFlag, columnStart);
    }

    // Searches row i from the column that the row below left, and completes it.
    method ScanOneRow(img: array<int>, i: nat, fork: Fork)
      requires rows.Length == HEIGHT && img.Length == HEIGHT * WIDTH && 0 < i <= START && 0 <= columnStart < WIDTH
      modifies this, rows
      ensures OneRow(old(State()), State(), img[..], i, fork)
    {
      hide NearestLeft, NearestRight, Pixels, Finish, GapIn, SeedLaw;
      ghost var was := rows[..];
      var k := columnStart;
      rows[i] := Row(0, 159, 80, 0, false, false, 0);
      var jl := SearchLeft(img, i, k);
      if jl != -1 {
        if leftStartRow == 0 {
          leftStartRow := i;
        }
        rows[i] := rows[i].(left := jl - 1, leftFlag := true);
      }
      var jr := SearchRight(img, i, k);
      if jr != -1 {
        if rightStartRow == 0 {
          rightStartRow := i;
        }
        rows[i] := rows[i].(right := jr + 1, rightFlag := true);
      }
      assert rows[..] == was[i := Edges(jl, jr)];
      MidlineProc2(i, fork);
      GapBelow(was, Edges(jl, jr), i);
    }

    // Scans the rows 118 to 1 one after the other.
    method ScanDown(img: array<int>, ghost seed: int, fork: Fork)
      requires rows.Length == HEIGHT && img.Length == HEIGHT * WIDTH && 0 <= columnStart < WIDTH && 0 <= seed < WIDTH
      requires ScannedTo(State(), img[..], seed, fork, START + 1)
      modifies this, rows
      ensures ScannedTo(State(), img[..], seed, fork, 1)
    {
      hide OneRow, ScannedTo;
      ghost var s := img[..];
      var i: nat := START;
      while i > 0
        invariant i <= START && img[..] == s && 0 <= columnStart < WIDTH
        invariant ScannedTo(State(), s, seed, fork, i + 1)
      {
        ghost var was := State();
        ScanOneRow(img, i, fork);
        ScanStep(was, State(), s, seed, fork, i);
        i := i - 1;
      }
    }

    // Scans the image; a pending reset starts from the middle column.
    method FindTrackGray(img: array<int>, reset: bool, fork: Fork)
      requires rows.Length == HEIGHT && img.Length == HEIGHT * WIDTH && 0 <= columnStart < WIDTH
      modifies this, rows
      ensures Scanned(State(), img[..], if reset then 80 else old(columnStart), fork)
      ensures AllLawful(img[..], rows[..], if reset then 80 else old(columnStart), fork)
      ensures columnStart == rows[START].mid
      ensures FirstUp(rows[..], true, leftStartRow) && FirstUp(rows[..], false, rightStartRow)
    {
      if reset {
        columnStart := 80;
      }
      ghost var seed := columnStart;
      leftStartRow, rightStartRow := 0, 0;
      ScanStarts(State(), img[..], seed, fork);
      hide OneRow, ScannedTo, Scanned, AllLawful, FirstUp;
      ScanDown(img, seed, fork);
      ScanEnds(State(), img[..], seed, fork);
      columnStart := rows[START].mid;
      ScannedLaw(State(), img[..], seed, fork);
    }
  }

  // The rows and the scalars of a track.
  datatype TrackState = TrackState(rows: seq<Row>, columnStart: int, leftStartRow: int, rightStartRow: int)

  // What scanning row i does.
  ghost predicate OneRow(was: TrackState, now: TrackState, img: seq<int>, i: nat, fork: Fork)
    requires |was.rows| == |now.rows| == HEIGHT && |img| == HEIGHT * WIDTH
    requires 1 <= i <= START && 0 <= was.columnStart < WIDTH
  {
    var jl, jr := NearestLeft(Pixels(img, i), was.columnStart), NearestRight(Pixels(img, i), was.columnStart);
    && (forall k :: 0 <= k < HEIGHT && k != i ==> now.rows[k] == was.rows[k])
    && Completed(was.rows, now.rows[i], i, jl, jr, fork)
    && now.columnStart == now.rows[i].seed
    && now.leftStartRow == (if was.leftStartRow == 0 && jl != -1 then i else was.leftStartRow)
    && now.rightStartRow == (if was.rightStartRow == 0 && jr != -1 then i else was.rightStartRow)
  }

  // Rows i to 118 are scanned.
  ghost predicate ScannedTo(t: TrackState, img: seq<int>, seed: int, fork: Fork, i: nat)
    requires |img| == HEIGHT * WIDTH && 0 <= seed < WIDTH && |t.rows| == HEIGHT && 1 <= i <= START + 1
  {
    var scan := Scan(img, seed, fork, i);
    && t.rows[i..START + 1] == scan && t.columnStart == (if scan == [] then seed else scan[0].seed)
    && t.leftStartRow == LowestFlagged(scan, true, i)
    && t.rightStartRow == LowestFlagged(scan, false, i)
  }

  // The whole image is scanned: every row, the two start rows, and the seed of the next image.
  ghost predicate Scanned(t: TrackState, img: seq<int>, seed: int, fork: Fork)
    requires |img| == HEIGHT * WIDTH && 0 <= seed < WIDTH && |t.rows| == HEIGHT
  {
    var scan := Scan(img, seed, fork, 1);
    && t.rows[1..START + 1] == scan && t.columnStart == scan[START - 1].mid
    && t.leftStartRow == LowestFlagged(scan, true, 1)
    && t.rightStartRow == LowestFlagged(scan, false, 1)
  }

  lemma ScanStarts(t: TrackState, img: seq<int>, seed: int, fork: Fork)
    requires |img| == HEIGHT * WIDTH && 0 <= seed < WIDTH && |t.rows| == HEIGHT
    requires t.columnStart == seed && t.leftStartRow == t.rightStartRow == 0
    ensures ScannedTo(t, img, seed, fork, START + 1)
  {
  }

  lemma ScanStep(was: TrackState, now: TrackState, img: seq<int>, seed: int, fork: Fork, i: nat)
    requires |was.rows| == |now.rows| == HEIGHT && |img| == HEIGHT * WIDTH && 0 <= seed < WIDTH
    requires 1 <= i <= START && 0 <= was.columnStart < WIDTH
    requires ScannedTo(was, img, seed, fork, i + 1) && OneRow(was, now, img, i, fork)
    ensures ScannedTo(now, img, seed, fork, i) && 0 <= now.columnStart < WIDTH
  {
    hide Scan, LowestFlagged, Pixels, NearestLeft, NearestRight, Completed, Flagged;
    var below, r := Scan(img, seed, fork, i + 1), now.rows[i];
    RowDone(img, seed, fork, i, below, was.rows, r);
    LowestStep(r, below, true, i);
    LowestStep(r, below, false, i);
    SliceStep(was.rows, now.rows, i, below);
  }

  lemma ScanEnds(t: TrackState, img: seq<int>, seed: int, fork: Fork)
    requires |img| == HEIGHT * WIDTH && 0 <= seed < WIDTH && |t.rows| == HEIGHT
    requires ScannedTo(t, img, seed, fork, 1)
    ensures Scanned(t.(columnStart := t.rows[START].mid), img, seed, fork)
  {
    hide Scan, LowestFlagged;
    assert t.rows[START] == t.rows[1..START + 1][START - 1];
  }

  // Row k of the 120 rows is as the pixels, the row below it and the fork make it.
  ghost predicate Lawful(img: seq<int>, rows: seq<Row>, seed: int, fork: Fork, k: nat)
    requires |img| == 120 * 160 && |rows| == 120 && 1 <= k <= 118
  {
    var r, s := rows[k], if k == 118 then seed else rows[k + 1].seed;
    && 0 <= s < 160 && EdgeLaw(img, k, s, r) && SeedLaw(r, fork) && 0 <= r.mid <= 159 && r.width == r.right - r.left
    && MidLaw(k, r, if k == 118 then r else rows[k + 1], k < 99 && LostBelow(rows, k))
  }

  ghost predicate AllLawful(img: seq<int>, rows: seq<Row>, seed: int, fork: Fork)
    requires |img| == 120 * 160 && |rows| == 120
  {
    forall k :: 1 <= k <= 118 ==> Lawful(img, rows, seed, fork, k)
  }

  // The lowest row with that edge, or 0 for none.
  predicate FirstUp(rows: seq<Row>, left: bool, row: int)
    requires |rows| == 120
  {
    && 0 <= row <= 118
    && (row != 0 ==> if left then rows[row].leftFlag else rows[row].rightFlag)
    && forall k :: row < k <= 118 ==> if left then !rows[k].leftFlag else !rows[k].rightFlag
  }

  lemma ScannedLaw(t: TrackState, img: seq<int>, seed: int, fork: Fork)
    requires |img| == HEIGHT * WIDTH && 0 <= seed < WIDTH && |t.rows| == HEIGHT && Scanned(t, img, seed, fork)
    ensures AllLawful(img, t.rows, seed, fork)
    ensures FirstUp(t.rows, true, t.leftStartRow) && FirstUp(t.rows, false, t.rightStartRow)
  {
    forall k | 1 <= k <= START ensures Lawful(img, t.rows, seed, fork, k) {
      ScannedRow(t, img, seed, fork, k);
    }
    FirstUpIs(t.rows, Scan(img, seed, fork, 1), true);
    FirstUpIs(t.rows, Scan(img, seed, fork, 1), false);
    hide Scan, LowestFlagged, FirstUp, Lawful;
  }

  lemma ScannedRow(t: TrackState, img: seq<int>, seed: int, fork: Fork, k: nat)
    requires |img| == HEIGHT * WIDTH && 0 <= seed < WIDTH && |t.rows| == HEIGHT && 1 <= k <= START
    requires Scanned(t, img, seed, fork)
    ensures Lawful(img, t.rows, seed, fork, k)
  {
    hide Scan, LowestFlagged, EdgeLaw, SeedLaw, MidLaw;
    ScanLaw(img, seed, fork, 1, k);
    var scan := Scan(img, seed, fork, 1);
    assert forall j :: 1 <= j <= START ==> t.rows[j] == scan[j - 1];
  }

  lemma FirstUpIs(rows: seq<Row>, scan: seq<Row>, left: bool)
    requires |rows| == HEIGHT && |scan| == START && rows[1..START + 1] == scan
    ensures FirstUp(rows, left, LowestFlagged(scan, left, 1))
  {
    hide LowestFlagged;
    var row := LowestFlagged(scan, left, 1);
    assert forall j :: 1 <= j <= START ==> rows[j] == scan[j - 1];
    assert row != 0 ==> FlaggedAt(scan, 1, row, left);
    forall k | row < k <= 118 ensures if left then !rows[k].leftFlag else !rows[k].rightFlag {
      assert !FlaggedAt(scan, 1, k, left);
    }
  }

  ghost predicate GapIn(rows: seq<Row>, i: nat)
    requires |rows| == HEIGHT && 1 <= i <= START
  {
    i < 99 && (BothLost(rows[i + 8]) || BothLost(rows[i + 11]) || BothLost(rows[i + 15]))
  }

  // The gap lies below row i.
  lemma GapBelow(rows: seq<Row>, r: Row, i: nat)
    requires |rows| == HEIGHT && 1 <= i <= START
    ensures GapIn(rows[i := r], i) == GapIn(rows, i)
  {
  }

  // Row r, with the patterns searched at jl and jr, completed from the rows below row i.
  ghost predicate Completed(rows: seq<Row>, r: Row, i: nat, jl: int, jr: int, fork: Fork)
    requires |rows| == HEIGHT && 1 <= i <= START
  {
    r == Complete(i, jl, jr, rows[i + 1], GapIn(rows, i), fork)
  }

  lemma SliceStep(was: seq<Row>, now: seq<Row>, i: nat, below: seq<Row>)
    requires |was| == |now| == HEIGHT && 1 <= i <= START && was[i + 1..START + 1] == below
    requires forall k :: 0 <= k < HEIGHT && k != i ==> now[k] == was[k]
    ensures now[i..START + 1] == [now[i]] + below
  {
    assert now[i + 1..START + 1] == was[i + 1..START + 1];
  }

  // A completed row is the next row of the scan.
  lemma RowDone(img: seq<int>, seed: int, fork: Fork, i: nat, below: seq<Row>, rows: seq<Row>, r: Row)
    requires |img| == HEIGHT * WIDTH && 0 <= seed < WIDTH && 1 <= i <= START && |rows| == HEIGHT
    requires |below| == START - i && below == Scan(img, seed, fork, i + 1) && rows[i + 1..START + 1] == below
    requires var k := if i == START then seed else below[0].seed;
             Completed(rows, r, i, NearestLeft(Pixels(img, i), k), NearestRight(Pixels(img, i), k), fork)
    ensures Scan(img, seed, fork, i) == [r] + below && 0 <= r.seed < WIDTH
    ensures var k := if i == START then seed else below[0].seed;
            && Flagged(r, true) == (NearestLeft(Pixels(img, i), k) != -1)
            && Flagged(r, false) == (NearestRight(Pixels(img, i), k) != -1)
  {
    hide Pixels, TopRow, Completed, ScanRow, NearestLeft, NearestRight;
    CompletedFlags(rows, r, i, NearestLeft(Pixels(img, i), if i == START then seed else below[0].seed),
                   NearestRight(Pixels(img, i), if i == START then seed else below[0].seed), fork);
    if i == START {
      CompletedIsScanned(Pixels(img, i), i, seed, rows, Row(0, 0, 0, 0, false, false, 0), false, fork, r);
    } else {
      GapAt(rows, below, i);
      CompletedIsScanned(Pixels(img, i), i, below[0].seed, rows, below[0], Gap(below, i), fork, r);
    }
    TopRowIs(img, seed, fork, i, below);
  }

  lemma TopRowIs(img: seq<int>, seed: int, fork: Fork, i: nat, below: seq<Row>)
    requires |img| == HEIGHT * WIDTH && 0 <= seed < WIDTH && i <= START && |below| == START - i
    requires below != [] ==> 0 <= below[0].seed < WIDTH
    ensures i == START ==>
      TopRow(img, seed, fork, i, below)
      == ScanRow(Pixels(img, i), i, seed, Row(0, 0, 0, 0, false, false, 0), false, fork)
    ensures i < START ==>
      TopRow(img, seed, fork, i, below)
      == ScanRow(Pixels(img, i), i, below[0].seed, below[0], Gap(below, i), fork)
  {
    hide Pixels, ScanRow, Gap;
  }

  lemma CompletedFlags(rows: seq<Row>, r: Row, i: nat, jl: int, jr: int, fork: Fork)
    requires |rows| == HEIGHT && 1 <= i <= START && Completed(rows, r, i, jl, jr, fork)
    ensures Flagged(r, true) == (jl != -1) && Flagged(r, false) == (jr != -1)
  {
  }

  lemma GapAt(rows: seq<Row>, below: seq<Row>, i: nat)
    requires |rows| == HEIGHT && 1 <= i < START && |below| == START - i && rows[i + 1..START + 1] == below
    ensures rows[i + 1] == below[0]
    ensures Gap(below, i) == GapIn(rows, i)
  {
    assert rows[i + 1] == below[0];
    if i < 99 {
      assert rows[i + 8] == below[7] && rows[i + 11] == below[10] && rows[i + 15] == below[14];
    }
  }

  // The bottom row is completed without looking at the row below it.
  lemma BottomRow(jl: int, jr: int, below: Row, below': Row, fork: Fork)
    ensures Complete(START, jl, jr, below, false, fork) == Complete(START, jl, jr, below', false, fork)
  {
  }

  lemma CompletedIsScanned(row: seq<int>, i: nat, seed: int, rows: seq<Row>, below: Row, gap: bool, fork: Fork, r: Row)
    requires |row| == WIDTH && 0 <= seed < WIDTH && |rows| == HEIGHT && 1 <= i <= START
    requires Completed(rows, r, i, NearestLeft(row, seed), NearestRight(row, seed), fork)
    requires i < START ==> below == rows[i + 1]
    requires gap == GapIn(rows, i)
    ensures r == ScanRow(row, i, seed, below, gap, fork)
  {
    hide NearestLeft, NearestRight, Complete;
    BottomRow(NearestLeft(row, seed), NearestRight(row, seed), below, rows[i + 1], fork);
  }
}
