/** Edge tracing: each row looks near the column where the row below found the edge. */
module EdgeTrace {
  import opened Screen

  // A picture has the columns -1 to 160 of every row; a column just outside a row reads the buffer's
  // neighbouring cell.
  type Picture = seq<seq<int>>

  ghost predicate Sized(px: Picture) {
    |px| == HEIGHT && forall i :: 0 <= i < HEIGHT ==> |px[i]| == WIDTH + 2
  }

  ghost function Cell(img: seq<int>, k: int): int {
    if 0 <= k < |img| then img[k] else 0
  }

  ghost function Flat(img: seq<int>): (px: Picture)
    ensures Sized(px)
  {
    seq(HEIGHT, i requires 0 <= i < HEIGHT =>
      seq(WIDTH + 2, c requires 0 <= c < WIDTH + 2 => Cell(img, WIDTH * i + c - 1)))
  }

  datatype Edge = Edge(col: int, found: bool)

  // The columns of row i with a black pixel whose neighbour towards the road is white.
  ghost function LeftMarks(px: Picture, i: nat): (m: seq<bool>)
    requires Sized(px) && i < HEIGHT
    ensures |m| == WIDTH
    ensures forall j :: 0 <= j < WIDTH ==> (m[j] <==> px[i][j + 2] != 0 && px[i][j + 1] == 0)
  {
    seq(WIDTH, j requires 0 <= j < WIDTH => px[i][j + 2] != 0 && px[i][j + 1] == 0)
  }

  ghost function RightMarks(px: Picture, i: nat): (m: seq<bool>)
    requires Sized(px) && i < HEIGHT
    ensures |m| == WIDTH
    ensures forall j :: 0 <= j < WIDTH ==> (m[j] <==> px[i][j] != 0 && px[i][j + 1] == 0)
  {
    seq(WIDTH, j requires 0 <= j < WIDTH => px[i][j] != 0 && px[i][j + 1] == 0)
  }

  // The first marked column from j up to hi, and from j down to lo; -1 if there is none.
  ghost function Up(mark: seq<bool>, j: int, hi: int): (r: int)
    requires 0 <= j && hi < |mark|
    ensures if r < 0 then r == -1 && forall k :: j <= k <= hi ==> !mark[k]
            else j <= r <= hi && mark[r] && forall k :: j <= k < r ==> !mark[k]
    decreases hi - j
  {
    if j > hi then -1 else if mark[j] then j else Up(mark, j + 1, hi)
  }

  ghost function Down(mark: seq<bool>, j: int, lo: int): (r: int)
    requires 0 <= lo && j < |mark|
    ensures if r < 0 then r == -1 && forall k :: lo <= k <= j ==> !mark[k]
            else lo <= r <= j && mark[r] && forall k :: r < k <= j ==> !mark[k]
    decreases j - lo
  {
    if j < lo then -1 else if mark[j] then j else Down(mark, j - 1, lo)
  }

  ghost function LeftStep(px: Picture, i: nat, prev: int, outer: bool): Edge
    requires Sized(px) && i < HEIGHT
  {
    var lo, hi := Limit(prev - 6), Limit(prev + 6);
    var j := if outer then Up(LeftMarks(px, i), lo, hi) else Down(LeftMarks(px, i), hi, lo);
    if j < 0 then Edge(0, false) else Edge(j - 1, true)
  }

  ghost function RightStep(px: Picture, i: nat, prev: int, outer: bool): Edge
    requires Sized(px) && i < HEIGHT
  {
    var lo, hi := Limit(prev - 6), Limit(prev + 6);
    var j := if outer then Down(RightMarks(px, i), hi, lo) else Up(RightMarks(px, i), lo, hi);
    if j < 0 then Edge(159, false) else Edge(j + 1, true)
  }

  // The edge in row i, traced from the seed in row 118.
  ghost function LeftTrace(px: Picture, seed: Edge, outer: bool, i: nat): Edge
    requires Sized(px)
    decreases START - i
  {
    if i >= START then seed else LeftStep(px, i, LeftTrace(px, seed, outer, i + 1).col, outer)
  }

  ghost function RightTrace(px: Picture, seed: Edge, outer: bool, i: nat): Edge
    requires Sized(px)
    decreases START - i
  {
    if i >= START then seed else RightStep(px, i, RightTrace(px, seed, outer, i + 1).col, outer)
  }

  ghost function Trace(px: Picture, seed: Edge, left: bool, outer: bool, i: nat): Edge
    requires Sized(px)
  {
    if left then LeftTrace(px, seed, outer, i) else RightTrace(px, seed, outer, i)
  }

  // ---------------------------------------------------------------------------------------
  // The loops
  // ---------------------------------------------------------------------------------------

  // Rows i..118 of the tagged line hold the trace.
  ghost predicate Traced(line: seq<int>, flag: seq<int>, img: seq<int>, seed: Edge, left: bool, outer: bool, i: int) {
    && |line| == |flag| == HEIGHT && i <= START
    && forall k: nat :: i <= k <= START ==>
         var e := Trace(Flat(img), seed, left, outer, k);
         line[k] == e.col && (k < START ==> flag[k] == if e.found then 1 else 0)
  }

  lemma MarkAt(s: seq<int>, i: int, j: int)
    requires |s| == HEIGHT * WIDTH && 1 <= i < START && 0 <= j <= 159
    ensures 0 < WIDTH * i + j < |s| - 1
    ensures LeftMarks(Flat(s), i)[j] <==> s[WIDTH * i + j + 1] != 0 && s[WIDTH * i + j] == 0
    ensures RightMarks(Flat(s), i)[j] <==> s[WIDTH * i + j - 1] != 0 && s[WIDTH * i + j] == 0
  {
    var row := Flat(s)[i];
    assert row[j] == Cell(s, WIDTH * i + j - 1) && row[j + 1] == Cell(s, WIDTH * i + j)
        && row[j + 2] == Cell(s, WIDTH * i + j + 1);
  }

  method FirstLeftMarkUp(img: array<int>, i: int, lo: int, hi: int) returns (r: int)
    requires img.Length == HEIGHT * WIDTH && 1 <= i < START && 0 <= lo <= hi <= 159
    ensures r == Up(LeftMarks(Flat(img[..]), i), lo, hi)
  {
    ghost var s, mark := img[..], LeftMarks(Flat(img[..]), i);
    hide Flat, LeftMarks, RightMarks;
    var j := lo;
    while j <= hi
      invariant lo <= j <= hi + 1 && Up(mark, lo, hi) == Up(mark, j, hi)
    {
      MarkAt(s, i, j);
      if img[WIDTH * i + j + 1] != 0 && img[WIDTH * i + j] == 0 {
        return j;
      }
      j := j + 1;
    }
    return -1;
  }

  method FirstLeftMarkDown(img: array<int>, i: int, hi: int, lo: int) returns (r: int)
    requires img.Length == HEIGHT * WIDTH && 1 <= i < START && 0 <= lo <= hi <= 159
    ensures r == Down(LeftMarks(Flat(img[..]), i), hi, lo)
  {
    ghost var s, mark := img[..], LeftMarks(Flat(img[..]), i);
    hide Flat, LeftMarks, RightMarks;
    var j := hi;
    while j >= lo
      invariant lo - 1 <= j <= hi && Down(mark, hi, lo) == Down(mark, j, lo)
    {
      MarkAt(s, i, j);
      if img[WIDTH * i + j + 1] != 0 && img[WIDTH * i + j] == 0 {
        return j;
      }
      j := j - 1;
    }
    return -1;
  }

  method FirstRightMarkUp(img: array<int>, i: int, lo: int, hi: int) returns (r: int)
    requires img.Length == HEIGHT * WIDTH && 1 <= i < START && 0 <= lo <= hi <= 159
    ensures r == Up(RightMarks(Flat(img[..]), i), lo, hi)
  {
    ghost var s, mark := img[..], RightMarks(Flat(img[..]), i);
    hide Flat, LeftMarks, RightMarks;
    var j := lo;
    while j <= hi
      invariant lo <= j <= hi + 1 && Up(mark, lo, hi) == Up(mark, j, hi)
    {
      MarkAt(s, i, j);
      if img[WIDTH * i + j - 1] != 0 && img[WIDTH * i + j] == 0 {
        return j;
      }
      j := j + 1;
    }
    return -1;
  }

  method FirstRightMarkDown(img: array<int>, i: int, hi: int, lo: int) returns (r: int)
    requires img.Length == HEIGHT * WIDTH && 1 <= i < START && 0 <= lo <= hi <= 159
    ensures r == Down(RightMarks(Flat(img[..]), i), hi, lo)
  {
    ghost var s, mark := img[..], RightMarks(Flat(img[..]), i);
    hide Flat, LeftMarks, RightMarks;
    var j := hi;
    while j >= lo
      invariant lo - 1 <= j <= hi && Down(mark, hi, lo) == Down(mark, j, lo)
    {
      MarkAt(s, i, j);
      if img[WIDTH * i + j - 1] != 0 && img[WIDTH * i + j] == 0 {
        return j;
      }
      j := j - 1;
    }
    return -1;
  }

  // Row i of the trace is one step from the row below it.
  lemma TraceStep(line: seq<int>, flag: seq<int>, img: seq<int>, seed: Edge, left: bool, outer: bool, i: int)
    requires 0 < i < START && Traced(line, flag, img, seed, left, outer, i + 1)
    ensures Trace(Flat(img), seed, left, outer, i)
         == if left then LeftStep(Flat(img), i, line[i + 1], outer) else RightStep(Flat(img), i, line[i + 1], outer)
  {
    hide LeftStep, RightStep;
    var k: nat := i + 1;
    assert line[k] == Trace(Flat(img), seed, left, outer, k).col;
  }

  lemma TraceNext(line: seq<int>, flag: seq<int>, img: seq<int>, seed: Edge, left: bool, outer: bool, i: int)
    requires 0 < i < START && Traced(line, flag, img, seed, left, outer, i + 1)
    requires var e := Trace(Flat(img), seed, left, outer, i);
             line[i] == e.col && flag[i] == if e.found then 1 else 0
    ensures Traced(line, flag, img, seed, left, outer, i)
  {
    hide Trace;
  }

  lemma TracedElsewhere(line: seq<int>, flag: seq<int>, line': seq<int>, flag': seq<int>, img: seq<int>, seed: Edge,
                        left: bool, outer: bool, i: int)
    requires 0 < i < START && Traced(line, flag, img, seed, left, outer, i + 1)
    requires |line'| == |flag'| == HEIGHT && line'[i + 1..] == line[i + 1..] && flag'[i + 1..] == flag[i + 1..]
    ensures Traced(line', flag', img, seed, left, outer, i + 1)
  {
    hide Trace;
    forall k: nat | i < k <= START ensures line'[k] == line[k] && flag'[k] == flag[k] {
      assert line'[k] == line'[i + 1..][k - i - 1] && flag'[k] == flag'[i + 1..][k - i - 1];
    }
  }

  // ---------------------------------------------------------------------------------------
  // The edge followed, in terms of the pixels and the column below
  // ---------------------------------------------------------------------------------------

  // A black pixel with a white one towards the road: to its right at a left edge, to its left at a right one.
  ghost predicate EdgeAt(img: seq<int>, left: bool, i: nat, j: int)
    requires |img| == 120 * 160 && 1 <= i < 118
  {
    0 <= j <= 159 && img[160 * i + j] == 0 && img[if left then 160 * i + j + 1 else 160 * i + j - 1] != 0
  }

  // Within 6 columns of p, or the column at the border if p is further than that outside the image.
  predicate InReach(p: int, j: int) {
    && 0 <= j <= 159
    && (p - 6 <= j || (p - 6 > 159 && j == 159))
    && (j <= p + 6 || (p + 6 < 0 && j == 0))
  }

  // From column p in the row below, row i has an edge exactly if there is one within reach, and it is
  // just outside the outermost or the innermost one; without one it is at the border.
  ghost predicate Follows(img: seq<int>, left: bool, outer: bool, p: int, col: int, found: bool, i: nat)
    requires |img| == 120 * 160 && 1 <= i < 118
  {
    var j := if left then col + 1 else col - 1;
    if found then
      && EdgeAt(img, left, i, j) && InReach(p, j)
      && forall k :: EdgeAt(img, left, i, k) && InReach(p, k) ==> if left == outer then j <= k else k <= j
    else
      && col == (if left then 0 else 159)
      && forall k :: !(EdgeAt(img, left, i, k) && InReach(p, k))
  }

  lemma ReachIs(p: int, j: int)
    ensures InReach(p, j) <==> Limit(p - 6) <= j <= Limit(p + 6)
    ensures 0 <= Limit(p - 6) <= Limit(p + 6) <= 159
  {
  }

  lemma MarkIs(s: seq<int>, left: bool, i: nat, j: int)
    requires |s| == HEIGHT * WIDTH && 1 <= i < START && 0 <= j <= 159
    ensures (if left then LeftMarks(Flat(s), i)[j] else RightMarks(Flat(s), i)[j]) <==> EdgeAt(s, left, i, j)
  {
    MarkAt(s, i, j);
    hide LeftMarks, RightMarks, Flat;
  }

  lemma StepFollows(s: seq<int>, left: bool, outer: bool, p: int, i: nat)
    requires |s| == HEIGHT * WIDTH && 1 <= i < START
    ensures var e := if left then LeftStep(Flat(s), i, p, outer) else RightStep(Flat(s), i, p, outer);
            Follows(s, left, outer, p, e.col, e.found, i)
  {
    hide Flat, LeftMarks, RightMarks, EdgeAt, InReach, Limit, Up, Down;
    forall j ensures InReach(p, j) <==> Limit(p - 6) <= j <= Limit(p + 6) {
      ReachIs(p, j);
    }
    ReachIs(p, 0);
    forall j | 0 <= j <= 159
      ensures (if left then LeftMarks(Flat(s), i)[j] else RightMarks(Flat(s), i)[j]) <==> EdgeAt(s, left, i, j)
    {
      MarkIs(s, left, i, j);
    }
  }

  lemma TraceFollows(s: seq<int>, seed: Edge, left: bool, outer: bool, i: nat)
    requires |s| == HEIGHT * WIDTH && 1 <= i < START
    ensures var below, e := Trace(Flat(s), seed, left, outer, i + 1), Trace(Flat(s), seed, left, outer, i);
            Follows(s, left, outer, below.col, e.col, e.found, i)
  {
    hide Flat, LeftStep, RightStep, Follows;
    StepFollows(s, left, outer, Trace(Flat(s), seed, left, outer, i + 1).col, i);
  }

  // Every row above the start row follows the one below it.
  ghost predicate AllFollow(img: seq<int>, line: seq<int>, flag: seq<int>, left: bool, outer: bool)
    requires |img| == 120 * 160 && |line| == |flag| == 120
  {
    forall i: nat :: 1 <= i < 118 ==>
      0 <= flag[i] <= 1 && Follows(img, left, outer, line[i + 1], line[i], flag[i] == 1, i)
  }

  lemma TracedFollows(line: seq<int>, flag: seq<int>, s: seq<int>, seed: Edge, left: bool, outer: bool)
    requires |s| == HEIGHT * WIDTH && Traced(line, flag, s, seed, left, outer, 1)
    ensures AllFollow(s, line, flag, left, outer) && line[START] == seed.col
  {
    hide Flat, Follows;
    forall i: nat | 1 <= i < 118
      ensures 0 <= flag[i] <= 1 && Follows(s, left, outer, line[i + 1], line[i], flag[i] == 1, i)
    {
      TraceFollows(s, seed, left, outer, i);
      var k: nat := i + 1;
      assert line[k] == Trace(Flat(s), seed, left, outer, k).col;
      hide Trace;
    }
    StartIs(Flat(s), seed, left, outer);
    hide Trace;
  }

  lemma StartIs(px: Picture, seed: Edge, left: bool, outer: bool)
    requires Sized(px)
    ensures Trace(px, seed, left, outer, START) == seed
  {
  }

  method FindLEdgeFromOutter(img: array<int>, seedLine: array<int>, seedFlag: array<int>,
                             line: array<int>, flag: array<int>)
    requires img.Length == HEIGHT * WIDTH
    requires seedLine.Length == seedFlag.Length == line.Length == flag.Length == HEIGHT
    requires line != flag && line !in {img, seedLine, seedFlag} && flag !in {img, seedLine, seedFlag}
    modifies line, flag
    ensures var seed := Edge(seedLine[START], seedFlag[START] == 1);
            Traced(line[..], flag[..], img[..], seed, true, true, 1)
    ensures line[START] == seedLine[START] && AllFollow(img[..], line[..], flag[..], true, true)
    ensures flag[START] == seedFlag[START]
  {
    ghost var s, px := img[..], Flat(img[..]);
    ghost var seed := Edge(seedLine[START], seedFlag[START] == 1);
    line[START] := seedLine[START];
    flag[START] := seedFlag[START];
    var i := START - 1;
    while i > 0
      invariant 0 <= i < START && img[..] == s && flag[START] == seedFlag[START]
      invariant Traced(line[..], flag[..], s, seed, true, true, i + 1)
    {
      var k1, k2 := Limit(line[i + 1] + 6), Limit(line[i + 1] - 6);
      ghost var was, wasFlag := line[..], flag[..];
      TraceStep(line[..], flag[..], s, seed, true, true, i);
      line[i], flag[i] := 0, 0;
      var j := FirstLeftMarkUp(img, i, k2, k1);
      if j >= 0 {
        line[i], flag[i] := j - 1, 1;
      }
      TracedElsewhere(was, wasFlag, line[..], flag[..], s, seed, true, true, i);
      TraceNext(line[..], flag[..], s, seed, true, true, i);
      i := i - 1;
    }
    TracedFollows(line[..], flag[..], s, seed, true, true);
  }

  method FindREdgeFromOutter(img: array<int>, seedLine: array<int>, seedFlag: array<int>,
                             line: array<int>, flag: array<int>)
    requires img.Length == HEIGHT * WIDTH
    requires seedLine.Length == seedFlag.Length == line.Length == flag.Length == HEIGHT
    requires line != flag && line !in {img, seedLine, seedFlag} && flag !in {img, seedLine, seedFlag}
    modifies line, flag
    ensures var seed := Edge(seedLine[START], seedFlag[START] == 1);
            Traced(line[..], flag[..], img[..], seed, false, true, 1)
    ensures line[START] == seedLine[START] && AllFollow(img[..], line[..], flag[..], false, true)
    ensures flag[START] == seedFlag[START]
  {
    ghost var s, px := img[..], Flat(img[..]);
    ghost var seed := Edge(seedLine[START], seedFlag[START] == 1);
    line[START] := seedLine[START];
    flag[START] := seedFlag[START];
    var i := START - 1;
    while i > 0
      invariant 0 <= i < START && img[..] == s && flag[START] == seedFlag[START]
      invariant Traced(line[..], flag[..], s, seed, false, true, i + 1)
    {
      var k1, k2 := Limit(line[i + 1] + 6), Limit(line[i + 1] - 6);
      ghost var was, wasFlag := line[..], flag[..];
      TraceStep(line[..], flag[..], s, seed, false, true, i);
      line[i], flag[i] := 159, 0;
      var j := FirstRightMarkDown(img, i, k1, k2);
      if j >= 0 {
        line[i], flag[i] := j + 1, 1;
      }
      TracedElsewhere(was, wasFlag, line[..], flag[..], s, seed, false, true, i);
      TraceNext(line[..], flag[..], s, seed, false, true, i);
      i := i - 1;
    }
    TracedFollows(line[..], flag[..], s, seed, false, true);
  }

  method FindLEdgeFromInner(img: array<int>, seedLine: array<int>, seedFlag: array<int>,
                             line: array<int>, flag: array<int>)
    requires img.Length == HEIGHT * WIDTH
    requires seedLine.Length == seedFlag.Length == line.Length == flag.Length == HEIGHT
    requires line != flag && line !in {img, seedLine, seedFlag} && flag !in {img, seedLine, seedFlag}
    modifies line, flag
    ensures var seed := Edge(seedLine[START], seedFlag[START] == 1);
            Traced(line[..], flag[..], img[..], seed, true, false, 1)
    ensures line[START] == seedLine[START] && AllFollow(img[..], line[..], flag[..], true, false)
    ensures flag[START] == seedFlag[START]
  {
    ghost var s, px := img[..], Flat(img[..]);
    ghost var seed := Edge(seedLine[START], seedFlag[START] == 1);
    line[START] := seedLine[START];
    flag[START] := seedFlag[START];
    var i := START - 1;
    while i > 0
      invariant 0 <= i < START && img[..] == s && flag[START] == seedFlag[START]
      invariant Traced(line[..], flag[..], s, seed, true, false, i + 1)
    {
      var k1, k2 := Limit(line[i + 1] + 6), Limit(line[i + 1] - 6);
      ghost var was, wasFlag := line[..], flag[..];
      TraceStep(line[..], flag[..], s, seed, true, false, i);
      line[i], flag[i] := 0, 0;
      var j := FirstLeftMarkDown(img, i, k1, k2);
      if j >= 0 {
        line[i], flag[i] := j - 1, 1;
      }
      TracedElsewhere(was, wasFlag, line[..], flag[..], s, seed, true, false, i);
      TraceNext(line[..], flag[..], s, seed, true, false, i);
      i := i - 1;
    }
    TracedFollows(line[..], flag[..], s, seed, true, false);
  }

  method FindREdgeFromInner(img: array<int>, seedLine: array<int>, seedFlag: array<int>,
                             line: array<int>, flag: array<int>)
    requires img.Length == HEIGHT * WIDTH
    requires seedLine.Length == seedFlag.Length == line.Length == flag.Length == HEIGHT
    requires line != flag && line !in {img, seedLine, seedFlag} && flag !in {img, seedLine, seedFlag}
    modifies line, flag
    ensures var seed := Edge(seedLine[START], seedFlag[START] == 1);
            Traced(line[..], flag[..], img[..], seed, false, false, 1)
    ensures line[START] == seedLine[START] && AllFollow(img[..], line[..], flag[..], false, false)
    ensures flag[START] == seedFlag[START]
  {
    ghost var s, px := img[..], Flat(img[..]);
    ghost var seed := Edge(seedLine[START], seedFlag[START] == 1);
    line[START] := seedLine[START];
    flag[START] := seedFlag[START];
    var i := START - 1;
    while i > 0
      invariant 0 <= i < START && img[..] == s && flag[START] == seedFlag[START]
      invariant Traced(line[..], flag[..], s, seed, false, false, i + 1)
    {
      var k1, k2 := Limit(line[i + 1] + 6), Limit(line[i + 1] - 6);
      ghost var was, wasFlag := line[..], flag[..];
      TraceStep(line[..], flag[..], s, seed, false, false, i);
      line[i], flag[i] := 159, 0;
      var j := FirstRightMarkUp(img, i, k2, k1);
      if j >= 0 {
        line[i], flag[i] := j + 1, 1;
      }
      TracedElsewhere(was, wasFlag, line[..], flag[..], s, seed, false, false, i);
      TraceNext(line[..], flag[..], s, seed, false, false, i);
      i := i - 1;
    }
    TracedFollows(line[..], flag[..], s, seed, false, false);
  }

  // ---------------------------------------------------------------------------------------
  // Outer and inner trace
  // ---------------------------------------------------------------------------------------

  // From ordered columns, an outer and an inner step find ordered columns.
  lemma StepsOrdered(px: Picture, i: nat, outerPrev: int, innerPrev: int)
    requires Sized(px) && i < HEIGHT && outerPrev <= innerPrev
    ensures var o, n := LeftStep(px, i, outerPrev, true), LeftStep(px, i, innerPrev, false);
            o.found && n.found ==> o.col <= n.col
  {
  }

  // As long as both traces keep the edge, the outer one is nowhere to the right of the inner one.
  lemma {:induction false} OuterLeftOfInner(px: Picture, seed: Edge, i: nat)
    requires Sized(px) && i <= START
    requires forall k: nat :: i <= k < START ==>
      LeftTrace(px, seed, true, k).found && LeftTrace(px, seed, false, k).found
    ensures LeftTrace(px, seed, true, i).col <= LeftTrace(px, seed, false, i).col
    decreases START - i
  {
    if i < START {
      OuterLeftOfInner(px, seed, i + 1);
      StepsOrdered(px, i, LeftTrace(px, seed, true, i + 1).col, LeftTrace(px, seed, false, i + 1).col);
      assert LeftTrace(px, seed, true, i).found && LeftTrace(px, seed, false, i).found;
    }
  }

  // From a seed inside the image, every traced column is at most one outside it, and a row that
  // keeps the edge moves it between 7 columns left and 5 columns right.
  lemma {:induction false} LeftStepRange(px: Picture, seed: Edge, outer: bool, i: nat)
    requires Sized(px) && i <= START && 0 <= seed.col <= 159
    ensures -1 <= LeftTrace(px, seed, outer, i).col <= 159
    ensures i < START && LeftTrace(px, seed, outer, i).found ==>
      -7 <= LeftTrace(px, seed, outer, i).col - LeftTrace(px, seed, outer, i + 1).col <= 5
    decreases START - i
  {
    if i < START {
      LeftStepRange(px, seed, outer, i + 1);
      OneStepRange(px, i, LeftTrace(px, seed, outer, i + 1).col, outer);
      hide LeftStep;
    }
  }

  lemma OneStepRange(px: Picture, i: nat, prev: int, outer: bool)
    requires Sized(px) && i < HEIGHT && -1 <= prev <= 159
    ensures var e := LeftStep(px, i, prev, outer);
            if e.found then -1 <= e.col <= 158 && -7 <= e.col - prev <= 5 else e.col == 0
  {
  }

  // ---------------------------------------------------------------------------------------
  // Right traces are left traces of the mirrored picture
  // ---------------------------------------------------------------------------------------

  ghost function Mirrored(px: Picture): (r: Picture)
    requires Sized(px)
    ensures Sized(r) && forall i, c :: 0 <= i < HEIGHT && 0 <= c < WIDTH + 2 ==> r[i][c] == px[i][WIDTH + 1 - c]
  {
    seq(HEIGHT, i requires 0 <= i < HEIGHT =>
      seq(WIDTH + 2, c requires 0 <= c < WIDTH + 2 => px[i][WIDTH + 1 - c]))
  }

  ghost function Opposite(j: int): int {
    if j < 0 then -1 else 159 - j
  }

  ghost predicate Flipped(m: seq<bool>, n: seq<bool>) {
    |m| == |n| == WIDTH && forall k :: 0 <= k < WIDTH ==> m[k] == n[159 - k]
  }

  lemma {:induction false} SearchMirrors(m: seq<bool>, n: seq<bool>, j: int, lo: int)
    requires Flipped(m, n) && 0 <= lo && j <= 159
    ensures Down(m, j, lo) == Opposite(Up(n, 159 - j, 159 - lo))
    decreases j - lo
  {
    if j >= lo && !m[j] {
      assert !n[159 - j];
      SearchMirrors(m, n, j - 1, lo);
    }
  }

  lemma StepMirrors(px: Picture, i: nat, prev: int, outer: bool)
    requires Sized(px) && i < HEIGHT
    ensures var r, l := RightStep(px, i, prev, outer), LeftStep(Mirrored(px), i, 159 - prev, outer);
            r == Edge(159 - l.col, l.found)
  {
    hide Sized, LeftMarks, RightMarks, Mirrored, Limit, Flipped, Up, Down;
    MarksFlip(px, i);
    WindowMirrors(prev);
    var right, left := RightMarks(px, i), LeftMarks(Mirrored(px), i);
    if outer {
      SearchMirrors(right, left, Limit(prev + 6), Limit(prev - 6));
    } else {
      SearchMirrors(left, right, 159 - Limit(prev - 6), 159 - Limit(prev + 6));
    }
  }

  // The window of columns searched around a column.
  lemma WindowMirrors(prev: int)
    ensures Limit(159 - prev - 6) == 159 - Limit(prev + 6) && Limit(159 - prev + 6) == 159 - Limit(prev - 6)
    ensures 0 <= Limit(prev - 6) <= Limit(prev + 6) <= 159
  {
  }

  lemma MarksFlip(px: Picture, i: nat)
    requires Sized(px) && i < HEIGHT
    ensures Flipped(RightMarks(px, i), LeftMarks(Mirrored(px), i))
    ensures Flipped(LeftMarks(Mirrored(px), i), RightMarks(px, i))
  {
  }

  lemma {:induction false} RightTraceMirrors(px: Picture, seed: Edge, outer: bool, i: nat)
    requires Sized(px)
    ensures var l := LeftTrace(Mirrored(px), Edge(159 - seed.col, seed.found), outer, i);
            RightTrace(px, seed, outer, i) == Edge(159 - l.col, l.found)
    decreases START - i
  {
    hide LeftStep, RightStep, Mirrored, Sized;
    if i < START {
      RightTraceMirrors(px, seed, outer, i + 1);
      StepMirrors(px, i, RightTrace(px, seed, outer, i + 1).col, outer);
    }
  }

  lemma OuterRightOfInner(px: Picture, seed: Edge, i: nat)
    requires Sized(px) && i <= START
    requires forall k: nat :: i <= k < START ==>
      RightTrace(px, seed, true, k).found && RightTrace(px, seed, false, k).found
    ensures RightTrace(px, seed, true, i).col >= RightTrace(px, seed, false, i).col
  {
    var flipped, mirror := Mirrored(px), Edge(159 - seed.col, seed.found);
    forall k: nat | i <= k <= START
      ensures RightTrace(px, seed, true, k).found == LeftTrace(flipped, mirror, true, k).found
      ensures RightTrace(px, seed, false, k).found == LeftTrace(flipped, mirror, false, k).found
    {
      RightTraceMirrors(px, seed, true, k);
      RightTraceMirrors(px, seed, false, k);
    }
    RightTraceMirrors(px, seed, true, i);
    RightTraceMirrors(px, seed, false, i);
    OuterLeftOfInner(flipped, mirror, i);
  }

  lemma RightStepRange(px: Picture, seed: Edge, outer: bool, i: nat)
    requires Sized(px) && i <= START && 0 <= seed.col <= 159
    ensures 0 <= RightTrace(px, seed, outer, i).col <= 160
    ensures i < START && RightTrace(px, seed, outer, i).found ==>
      -5 <= RightTrace(px, seed, outer, i).col - RightTrace(px, seed, outer, i + 1).col <= 7
  {
    hide LeftTrace, RightTrace, Mirrored, Sized;
    RightTraceMirrors(px, seed, outer, i);
    LeftStepRange(Mirrored(px), Edge(159 - seed.col, seed.found), outer, i);
    if i < START {
      RightTraceMirrors(px, seed, outer, i + 1);
    }
  }
}
