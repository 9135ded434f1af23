/** Chain-code tracing of the outer boundary of a black region on a white background. */
module Boundary {

  datatype Point = Point(x: int, y: int)

  // Eight directions, starting at one step left and one row on and turning from there.
  function Dx(d: int): int {
    if d == 0 || d == 6 || d == 7 then -1 else if d == 1 || d == 5 then 0 else 1
  }

  function Dy(d: int): int {
    if d == 0 || d == 1 || d == 2 then 1 else if d == 3 || d == 7 then 0 else -1
  }

  function Move(p: Point, d: int): Point {
    Point(p.x + Dx(d), p.y + Dy(d))
  }

  // A direction turned by k eighths.
  function Turn(d: int, k: int): int {
    (d + k) % 8
  }

  // A boundary step: from a black point to the black neighbour in the given direction.
  datatype Step = Step(at: Point, dir: int)

  // Where the search for the next step starts after a step: two eighths back.
  function Back(d: int): int {
    Turn(d, 6)
  }

  // The number of white neighbours met from direction b on, from the k-th on; 8 if all are white.
  function Probes(black: set<Point>, p: Point, b: int, k: nat): (m: nat)
    requires k <= 8
    ensures k <= m <= 8
    ensures forall j :: k <= j < m ==> Move(p, Turn(b, j)) !in black
    ensures m < 8 ==> Move(p, Turn(b, m)) in black
    decreases 8 - k
  {
    if k == 8 then 8 else if Move(p, Turn(b, k)) in black then k else Probes(black, p, b, k + 1)
  }

  predicate HasNeighbour(black: set<Point>, p: Point) {
    exists d :: 0 <= d < 8 && Move(p, d) in black
  }

  // Eight probes find a black neighbour exactly if there is one.
  lemma ProbesIff(black: set<Point>, p: Point, b: int)
    requires 0 <= b < 8
    ensures Probes(black, p, b, 0) < 8 <==> HasNeighbour(black, p)
  {
    hide Move, Turn, Probes;
    var m := Probes(black, p, b, 0);
    if m < 8 {
      TurnTurn(b, 0, m);
      assert Move(p, Turn(b, m)) in black;
    }
    if HasNeighbour(black, p) {
      var d :| 0 <= d < 8 && Move(p, d) in black;
      ProbesFind(black, p, b, d);
    }
  }

  lemma ProbesFind(black: set<Point>, p: Point, b: int, d: int)
    requires 0 <= b < 8 && 0 <= d < 8 && Move(p, d) in black
    ensures Probes(black, p, b, 0) < 8
  {
    hide Move, Turn, Probes;
    var j := if d >= b then d - b else d - b + 8;
    TurnTo(b, d, j);
  }

  lemma TurnTo(b: int, d: int, j: int)
    requires 0 <= b < 8 && 0 <= d < 8 && j == if d >= b then d - b else d - b + 8
    ensures Turn(b, j) == d && 0 <= j < 8
  {
  }

  // ---------------------------------------------------------------------------------------
  // Steps along the boundary
  // ---------------------------------------------------------------------------------------

  // The neighbour just before the direction taken is white, and so is the one before it when the
  // direction is not diagonal.
  ghost predicate Valid(black: set<Point>, s: Step) {
    && 0 <= s.dir < 8 && s.at in black && Move(s.at, s.dir) in black
    && Move(s.at, Turn(s.dir, 7)) !in black
    && (s.dir % 2 == 1 ==> Move(s.at, Turn(s.dir, 6)) !in black)
  }

  // The step that follows: searched at the point reached, from two eighths back.
  ghost function Next(black: set<Point>, s: Step): Step {
    var q := Move(s.at, s.dir);
    Step(q, Turn(Back(s.dir), Probes(black, q, Back(s.dir), 0)))
  }

  // The white neighbours around a step, seen from the point it reaches.
  lemma SeenFromNext(p: Point, d: int)
    requires 0 <= d < 8
    ensures var q := Move(p, d);
            && Move(q, Turn(d, 4)) == p
            && (d % 2 == 0 ==> Move(p, Turn(d, 7)) == Move(q, Turn(d, 5)))
            && (d % 2 == 1 ==> Move(p, Turn(d, 7)) == Move(q, Turn(d, 6)) && Move(p, Turn(d, 6)) == Move(q, Turn(d, 5)))
  {
  }

  lemma TurnTurn(d: int, j: int, k: int)
    ensures Turn(Turn(d, j), k) == Turn(d, j + k) && Turn(d, k + 8) == Turn(d, k) && 0 <= Turn(d, k) < 8
    ensures Turn(d, k) % 2 == (d + k) % 2
  {
  }

  // Turning both by the same amount.
  lemma TurnBoth(d: int, j: int, e: int, k: int, more: int)
    requires Turn(d, j) == Turn(e, k)
    ensures Turn(d, j + more) == Turn(e, k + more)
  {
  }

  lemma TurnCancels(d: int, e: int, k: int)
    requires 0 <= d < 8 && 0 <= e < 8 && Turn(d, k) == Turn(e, k)
    ensures d == e
  {
  }

  // At the point reached, the way back is black, and so some direction is found; a step that is not
  // diagonal is not followed by one straight from where the search starts.
  lemma WayBack(black: set<Point>, s: Step)
    requires Valid(black, s)
    ensures var q := Move(s.at, s.dir);
            && Move(q, Turn(s.dir, 4)) == s.at && Probes(black, q, Back(s.dir), 0) < 8
            && (s.dir % 2 == 1 ==> Probes(black, q, Back(s.dir), 0) > 0)
  {
    var d, q := s.dir, Move(s.at, s.dir);
    SeenFromNext(s.at, d);
    hide Move, Turn;
    TurnTurn(d, 6, 6);
    TurnTurn(d, 0, 4);
    assert Turn(Back(d), 6) == Turn(d, 4);
    TurnTurn(d, 6, 0);
    assert Turn(Back(d), 0) == Turn(d, 6);
  }

  lemma FirstWhite(black: set<Point>, s: Step)
    requires Valid(black, s)
    ensures Move(Move(s.at, s.dir), Turn(s.dir, 5)) !in black
  {
    SeenFromNext(s.at, s.dir);
    hide Move, Turn;
  }

  // At the point reached, everything from just after the way back up to the step found is white.
  lemma WhiteArc(black: set<Point>, s: Step, j: int)
    requires Valid(black, s) && 5 <= j < 6 + Probes(black, Move(s.at, s.dir), Back(s.dir), 0)
    ensures Move(Move(s.at, s.dir), Turn(s.dir, j)) !in black
  {
    hide Move, Turn, Valid, Probes;
    if j == 5 {
      FirstWhite(black, s);
    } else {
      TurnTurn(s.dir, 6, j - 6);
    }
  }

  lemma NextValid(black: set<Point>, s: Step)
    requires Valid(black, s)
    ensures Valid(black, Next(black, s)) && Next(black, s).at == Move(s.at, s.dir)
  {
    hide Move, Turn, Probes;
    WayBack(black, s);
    var d, q := s.dir, Move(s.at, s.dir);
    var m := Probes(black, q, Back(d), 0);
    WhiteArc(black, s, m + 5);
    if m >= 1 { WhiteArc(black, s, m + 4); }
    TurnTurn(d, 6, m);
    TurnTurn(d, 0, 6 + m);
    TurnTurn(d, 6 + m, 7);
    TurnTurn(d, 6 + m, 6);
    TurnTurn(d, 0, m + 5);
    TurnTurn(d, 0, m + 4);
    Parity(d, m);
  }

  lemma Parity(d: int, m: nat)
    ensures (d + (6 + m)) % 2 == 1 && m == 0 ==> d % 2 == 1
  {
  }

  // Seen from the point reached, the way back is black and the arc searched after it is white.
  ghost predicate Arrives(black: set<Point>, q: Point, d: int, m: nat) {
    && 0 <= d < 8 && Move(q, Turn(d, 4)) in black
    && forall j :: 5 <= j < 6 + m ==> Move(q, Turn(d, j)) !in black
  }

  lemma StepArrives(black: set<Point>, s: Step)
    requires Valid(black, s)
    ensures Arrives(black, Move(s.at, s.dir), s.dir, Probes(black, Move(s.at, s.dir), Back(s.dir), 0))
  {
    WayBack(black, s);
    var m := Probes(black, Move(s.at, s.dir), Back(s.dir), 0);
    forall j | 5 <= j < 6 + m ensures Move(Move(s.at, s.dir), Turn(s.dir, j)) !in black {
      WhiteArc(black, s, j);
    }
    hide Move, Turn, Probes, Back;
  }

  lemma NotLonger(black: set<Point>, q: Point, d: int, m: nat, e: int, n: nat)
    requires Arrives(black, q, d, m) && Arrives(black, q, e, n) && Turn(d, 6 + m) == Turn(e, 6 + n)
    ensures n <= m
  {
    hide Move, Turn;
    TurnBoth(d, 6 + m, e, 6 + n, -2 - m);
    assert Turn(d, 4) == Turn(e, 4 + n - m);
  }

  lemma ValidParts(black: set<Point>, s: Step)
    requires Valid(black, s)
    ensures 0 <= s.dir < 8 && s.at in black
  {
  }

  // The way back is the first black neighbour met when turning the other way, so no two steps
  // have the same successor.
  lemma NextInjective(black: set<Point>, s: Step, t: Step)
    requires Valid(black, s) && Valid(black, t) && Next(black, s) == Next(black, t)
    ensures s == t
  {
    hide *;
    NextParts(black, s);
    NextParts(black, t);
    var q := Move(s.at, s.dir);
    var m, n := Probes(black, q, Back(s.dir), 0), Probes(black, q, Back(t.dir), 0);
    StepArrives(black, s);
    StepArrives(black, t);
    SameArrival(black, q, s.dir, m, t.dir, n);
    WayBack(black, s);
    WayBack(black, t);
  }

  lemma SameArrival(black: set<Point>, q: Point, d: int, m: nat, e: int, n: nat)
    requires Arrives(black, q, d, m) && Arrives(black, q, e, n) && Turn(d, 6 + m) == Turn(e, 6 + n)
    ensures d == e
  {
    NotLonger(black, q, d, m, e, n);
    NotLonger(black, q, e, n, d, m);
    TurnCancels(d, e, 6 + m);
  }

  lemma NextParts(black: set<Point>, s: Step)
    ensures var q := Move(s.at, s.dir);
            Next(black, s) == Step(q, Turn(s.dir, 6 + Probes(black, q, Back(s.dir), 0)))
  {
    hide Move, Turn, Probes;
    TurnTurn(s.dir, 6, Probes(black, Move(s.at, s.dir), Back(s.dir), 0));
  }

  // ---------------------------------------------------------------------------------------
  // Traces
  // ---------------------------------------------------------------------------------------

  // The first black point in row order.
  ghost predicate IsStart(black: set<Point>, p: Point) {
    p in black && forall q :: q in black ==> p.y < q.y || (p.y == q.y && p.x <= q.x)
  }

  // The first step from the start point is searched from direction 0.
  ghost function First(black: set<Point>, start: Point): Step {
    Step(start, Turn(0, Probes(black, start, 0, 0)))
  }

  lemma FirstStepValid(black: set<Point>, p: Point)
    requires IsStart(black, p) && Probes(black, p, 0, 0) < 8
    ensures Valid(black, First(black, p))
  {
    var m := Probes(black, p, 0, 0);
    assert Move(p, 7) !in black;
    if m >= 1 { assert Turn(0, m - 1) == Turn(m, 7); }
    if m >= 2 { assert Turn(0, m - 2) == Turn(m, 6); }
  }

  // Steps that follow each other from the first one and have not returned to the start in between.
  ghost predicate Trace(black: set<Point>, start: Point, steps: seq<Step>) {
    && (forall k :: 0 <= k < |steps| ==> Valid(black, steps[k]))
    && (steps != [] ==> steps[0] == First(black, start))
    && (forall k :: 0 < k < |steps| ==> steps[k] == Next(black, steps[k - 1]) && steps[k].at != start)
  }

  ghost predicate Distinct(steps: seq<Step>) {
    forall j, k :: 0 <= j < k < |steps| ==> steps[j] != steps[k]
  }

  // A trace repeats no step.
  lemma {:induction false} TraceDistinct(black: set<Point>, start: Point, steps: seq<Step>)
    requires Trace(black, start, steps)
    ensures Distinct(steps)
  {
    forall j, k | 0 <= j < k < |steps| ensures steps[j] != steps[k] {
      NoRepeat(black, start, steps, j, k);
    }
  }

  lemma {:induction false} NoRepeat(black: set<Point>, start: Point, steps: seq<Step>, j: nat, k: nat)
    requires Trace(black, start, steps) && j < k < |steps|
    ensures steps[j] != steps[k]
  {
    hide Valid, Next;
    if steps[j] == steps[k] && j > 0 {
      NextInjective(black, steps[j - 1], steps[k - 1]);
      NoRepeat(black, start, steps, j - 1, k - 1);
    }
  }

  ghost function AllSteps(black: set<Point>): set<Step> {
    set p, d | p in black && 0 <= d < 8 :: Step(p, d)
  }

  lemma {:induction false} AllStepsSize(black: set<Point>)
    ensures |AllSteps(black)| <= 8 * |black|
  {
    if black == {} {
      assert AllSteps(black) == {};
    } else {
      var p :| p in black;
      var rest := black - {p};
      AllStepsSize(rest);
      var here := {Step(p, 0), Step(p, 1), Step(p, 2), Step(p, 3), Step(p, 4), Step(p, 5), Step(p, 6), Step(p, 7)};
      assert AllSteps(black) == AllSteps(rest) + here;
    }
  }

  lemma {:induction false} DistinctSize(steps: seq<Step>, all: set<Step>)
    requires Distinct(steps) && forall k :: 0 <= k < |steps| ==> steps[k] in all
    ensures |steps| <= |all|
  {
    if steps != [] {
      var n := |steps| - 1;
      DistinctSize(steps[..n], all - {steps[n]});
    }
  }

  // A trace is never longer than eight steps per black point.
  lemma TraceBounded(black: set<Point>, start: Point, steps: seq<Step>)
    requires Trace(black, start, steps)
    ensures |steps| <= 8 * |black|
  {
    TraceDistinct(black, start, steps);
    AllStepsSize(black);
    DistinctSize(steps, AllSteps(black));
  }

  // ---------------------------------------------------------------------------------------
  // Replaying a chain code
  // ---------------------------------------------------------------------------------------

  // The points visited when following the codes from p, the last one included.
  function Replay(p: Point, codes: seq<int>): (r: seq<Point>)
    ensures |r| == |codes| + 1 && r[0] == p
    decreases |codes|
  {
    if codes == [] then [p] else [p] + Replay(Move(p, codes[0]), codes[1..])
  }

  function SumX(codes: seq<int>): int {
    if codes == [] then 0 else Dx(codes[0]) + SumX(codes[1..])
  }

  function SumY(codes: seq<int>): int {
    if codes == [] then 0 else Dy(codes[0]) + SumY(codes[1..])
  }

  lemma {:induction false} ReplayEnd(p: Point, codes: seq<int>)
    ensures Replay(p, codes)[|codes|] == Point(p.x + SumX(codes), p.y + SumY(codes))
    decreases |codes|
  {
    if codes != [] {
      ReplayEnd(Move(p, codes[0]), codes[1..]);
    }
  }

  lemma {:induction false} ReplayIs(points: seq<Point>, codes: seq<int>)
    requires |points| == |codes| + 1
    requires forall k :: 0 <= k < |codes| ==> points[k + 1] == Move(points[k], codes[k])
    ensures Replay(points[0], codes) == points
  {
    if codes != [] {
      assert forall k :: 0 <= k < |codes| - 1 ==> points[1..][k + 1] == Move(points[1..][k], codes[1..][k]);
      ReplayIs(points[1..], codes[1..]);
      assert points == [points[0]] + points[1..];
    }
  }

  ghost function Steps(points: seq<Point>, codes: seq<int>): (r: seq<Step>)
    requires |points| == |codes|
    ensures |r| == |points|
  {
    seq(|points|, k requires 0 <= k < |points| => Step(points[k], codes[k]))
  }

  // One of the four straight neighbours is white.
  ghost predicate OnEdge(black: set<Point>, p: Point) {
    exists d :: (d == 1 || d == 3 || d == 5 || d == 7) && Move(p, d) !in black
  }

  // A closed contour from the start: the recorded steps are the trace, every point is black and on the
  // edge of the region, and the codes replay to exactly the recorded points and back to the start,
  // which is not met in between.
  ghost predicate Contour(black: set<Point>, start: Point, points: seq<Point>, codes: seq<int>) {
    && |points| == |codes| > 0
    && Trace(black, start, Steps(points, codes))
    && Replay(start, codes) == points + [start]
    && (forall k :: 0 <= k < |codes| ==> 0 <= codes[k] < 8)
    && (forall p :: p in points ==> p in black && OnEdge(black, p))
    && (forall k :: 0 < k < |points| ==> points[k] != start)
  }

  lemma StepOnEdge(black: set<Point>, s: Step)
    requires Valid(black, s)
    ensures 0 <= s.dir < 8 && s.at in black && OnEdge(black, s.at)
  {
    var d := if s.dir % 2 == 1 then Turn(s.dir, 6) else Turn(s.dir, 7);
    assert Move(s.at, d) !in black && (d == 1 || d == 3 || d == 5 || d == 7);
  }

  // The direction vectors of a contour sum to zero.
  lemma ContourCloses(black: set<Point>, start: Point, points: seq<Point>, codes: seq<int>)
    requires Contour(black, start, points, codes)
    ensures SumX(codes) == 0 && SumY(codes) == 0
  {
    ReplayEnd(start, codes);
  }

  // ---------------------------------------------------------------------------------------
  // Once round
  // ---------------------------------------------------------------------------------------

  // Where a tracer that never stopped would be after n more steps.
  ghost function After(black: set<Point>, s: Step, n: nat): Step {
    if n == 0 then s else Next(black, After(black, s, n - 1))
  }

  // The trace has come to its first step again, not just to its first point.
  ghost predicate OnceRound(black: set<Point>, steps: seq<Step>)
    requires steps != []
  {
    Next(black, steps[|steps| - 1]) == steps[0]
  }

  ghost predicate HoldsOrbit(black: set<Point>, steps: seq<Step>)
    requires steps != []
  {
    forall n: nat :: After(black, steps[0], n) in steps
  }

  // A trace holds every step that a tracer that never stopped would take exactly if it comes to its
  // first step again.
  lemma OnceRoundIff(black: set<Point>, start: Point, steps: seq<Step>)
    requires Trace(black, start, steps) && steps != []
    ensures OnceRound(black, steps) <==> HoldsOrbit(black, steps)
  {
    hide Valid, Next, First, Trace;
    if OnceRound(black, steps) {
      forall n: nat ensures After(black, steps[0], n) in steps {
        Cycles(black, start, steps, n);
      }
      assert HoldsOrbit(black, steps);
    }
    if HoldsOrbit(black, steps) {
      NextIsFirst(black, start, steps);
    }
  }

  lemma {:induction false} AfterIs(black: set<Point>, start: Point, steps: seq<Step>, n: nat)
    requires Trace(black, start, steps) && n < |steps|
    ensures After(black, steps[0], n) == steps[n]
  {
    hide Valid, Next, First;
    if n > 0 {
      AfterIs(black, start, steps, n - 1);
    }
  }

  lemma {:induction false} Cycles(black: set<Point>, start: Point, steps: seq<Step>, n: nat)
    requires Trace(black, start, steps) && steps != [] && OnceRound(black, steps)
    ensures After(black, steps[0], n) in steps
  {
    hide Valid, Next, First;
    if n > 0 {
      Cycles(black, start, steps, n - 1);
      var k :| 0 <= k < |steps| && steps[k] == After(black, steps[0], n - 1);
      if k + 1 < |steps| {
        assert steps[k + 1] == After(black, steps[0], n);
      } else {
        assert steps[0] == After(black, steps[0], n);
      }
    }
  }

  // The step after the last is the first or none of them.
  lemma NextIsFirst(black: set<Point>, start: Point, steps: seq<Step>)
    requires Trace(black, start, steps) && steps != []
    requires HoldsOrbit(black, steps)
    ensures OnceRound(black, steps)
  {
    hide Valid, Next, First;
    var m := |steps| - 1;
    AfterIs(black, start, steps, m);
    assert After(black, steps[0], m + 1) in steps;
    var k :| 0 <= k < |steps| && steps[k] == Next(black, steps[m]);
    if k > 0 {
      NextInjective(black, steps[k - 1], steps[m]);
      NoRepeat(black, start, steps, k - 1, m);
    }
  }

  // The start point can be left in one way only, unless after a black neighbour to the lower left
  // and a white one below there is a black one to the lower right or to the right.
  ghost predicate OneWayOut(black: set<Point>, start: Point) {
    Move(start, 0) in black && Move(start, 1) !in black ==> Move(start, 2) !in black && Move(start, 3) !in black
  }

  lemma OnlyStepOut(black: set<Point>, start: Point, s: Step)
    requires IsStart(black, start) && OneWayOut(black, start) && Valid(black, s) && s.at == start
    ensures s == First(black, start)
  {
    NeighbourOfFirst(black, s);
    ProbesIff(black, start, 0);
    FirstStepValid(black, start);
    NotBack(black, start, s);
    NotBack(black, start, First(black, start));
    StraightOut(black, start, s);
    StraightOut(black, start, First(black, start));
    hide First, IsStart, Valid, HasNeighbour, Probes, Move;
  }

  // No step leads out of the start point upwards or to the left.
  lemma NotBack(black: set<Point>, start: Point, s: Step)
    requires IsStart(black, start) && Valid(black, s) && s.at == start
    ensures 0 <= s.dir <= 3
  {
    assert Move(start, s.dir) in black;
  }

  lemma StraightOut(black: set<Point>, start: Point, s: Step)
    requires Valid(black, s) && s.at == start && 0 <= s.dir <= 3
    ensures s.dir == 0 ==> Move(start, 0) in black
    ensures s.dir == 1 ==> Move(start, 1) in black && Move(start, 0) !in black
    ensures s.dir == 2 ==> Move(start, 2) in black && Move(start, 1) !in black
    ensures s.dir == 3 ==> Move(start, 3) in black && Move(start, 2) !in black && Move(start, 1) !in black
  {
    hide Move, Turn;
    TurnsBack();
  }

  lemma TurnsBack()
    ensures Turn(1, 7) == 0 && Turn(2, 7) == 1 && Turn(3, 7) == 2 && Turn(3, 6) == 1
  {
  }

  // So from such a start a closed contour goes once round.
  lemma GoesOnceRound(black: set<Point>, start: Point, points: seq<Point>, codes: seq<int>)
    requires IsStart(black, start) && OneWayOut(black, start) && Contour(black, start, points, codes)
    ensures OnceRound(black, Steps(points, codes))
  {
    var steps := Steps(points, codes);
    var last := steps[|steps| - 1];
    assert Valid(black, last) && steps[0] == First(black, start);
    ReplayLast(points, codes, start);
    NextValid(black, last);
    hide Valid, First, Next, IsStart, OneWayOut, Contour, Trace;
    OnlyStepOut(black, start, Next(black, last));
  }

  lemma ReplayLast(points: seq<Point>, codes: seq<int>, start: Point)
    requires |points| == |codes| > 0 && Replay(start, codes) == points + [start]
    ensures Move(points[|points| - 1], codes[|codes| - 1]) == start
  {
    var n := |codes| - 1;
    ReplayStep(start, codes, n);
    assert (points + [start])[n] == points[n] && (points + [start])[n + 1] == start;
  }

  lemma {:induction false} ReplayStep(p: Point, codes: seq<int>, k: nat)
    requires k < |codes|
    ensures Replay(p, codes)[k + 1] == Move(Replay(p, codes)[k], codes[k])
    decreases |codes|
  {
    if k > 0 {
      ReplayStep(Move(p, codes[0]), codes[1..], k - 1);
    }
  }

  // Without it the tracer may stop half-way: from p it goes to q and back, and stops without ever
  // having been at r, to which the next step would lead.
  lemma StopsHalfWay(black: set<Point>, p: Point, q: Point, r: Point)
    requires p == Point(2, 1) && q == Point(1, 2) && r == Point(3, 2) && black == {p, q, r}
    ensures IsStart(black, p) && Contour(black, p, [p, q], [0, 4]) && !OnceRound(black, Steps([p, q], [0, 4]))
    ensures Next(black, Step(q, 4)) == Step(p, 2) && Move(p, 2) == r
  {
    hide *;
    ThreeMoves(black, p, q, r);
    ThreePoints(black, p, q, r);
    FirstStepValid(black, p);
    NextValid(black, Step(p, 0));
    StepsOfTwo([p, q], [0, 4]);
    TraceOfTwo(black, p, Step(p, 0), Step(q, 4));
    TraceReplays(black, p, [Step(p, 0), Step(q, 4)], [p, q], [0, 4]);
    OnceRoundOfTwo(black, Step(p, 0), Step(q, 4));
  }

  lemma ThreeMoves(black: set<Point>, p: Point, q: Point, r: Point)
    requires p == Point(2, 1) && q == Point(1, 2) && r == Point(3, 2) && black == {p, q, r}
    ensures IsStart(black, p) && p != q && Move(p, 0) == q && Move(p, 2) == r && Move(q, 4) == p
    ensures forall j :: 0 <= j < 6 ==> Move(q, Turn(6, j)) !in black
    ensures Back(0) == 6 && Back(4) == 2 && Turn(0, 0) == 0 && Turn(6, 6) == 4 && Turn(2, 0) == 2
  {
    hide Turn, Back;
    TurnsOfThree();
    forall j | 0 <= j < 6 ensures Move(q, Turn(6, j)) !in black {
      NextToQ(black, Turn(6, j));
    }
  }

  lemma TurnsOfThree()
    ensures Back(0) == 6 && Back(4) == 2 && Turn(0, 0) == 0 && Turn(6, 6) == 4 && Turn(2, 0) == 2
    ensures forall j :: 0 <= j < 6 ==> Turn(6, j) == if j < 2 then 6 + j else j - 2
  {
  }

  lemma NextToQ(black: set<Point>, d: int)
    requires black == {Point(2, 1), Point(1, 2), Point(3, 2)} && (0 <= d <= 3 || 6 <= d <= 7)
    ensures Move(Point(1, 2), d) !in black
  {
  }

  lemma ThreePoints(black: set<Point>, p: Point, q: Point, r: Point)
    requires p == Point(2, 1) && q == Point(1, 2) && r == Point(3, 2) && black == {p, q, r}
    ensures Probes(black, p, 0, 0) == 0 && First(black, p) == Step(p, 0)
    ensures Next(black, Step(p, 0)) == Step(q, 4) && Next(black, Step(q, 4)) == Step(p, 2)
  {
    hide Move, Probes, Turn, Back, IsStart;
    ThreeMoves(black, p, q, r);
    FirstFound(black, p, 0, 0);
    FirstFound(black, q, 6, 6);
    FirstFound(black, p, 2, 0);
  }

  lemma StepsOfTwo(points: seq<Point>, codes: seq<int>)
    requires |points| == |codes| == 2
    ensures Steps(points, codes) == [Step(points[0], codes[0]), Step(points[1], codes[1])]
  {
  }

  lemma TraceOfTwo(black: set<Point>, start: Point, s0: Step, s1: Step)
    requires Valid(black, s0) && Valid(black, s1) && s0 == First(black, start) && s1 == Next(black, s0) && s1.at != start
    ensures Trace(black, start, [s0, s1])
  {
    hide Valid, First, Next;
  }

  lemma OnceRoundOfTwo(black: set<Point>, s0: Step, s1: Step)
    ensures OnceRound(black, [s0, s1]) <==> Next(black, s1) == s0
  {
  }

  lemma FirstFound(black: set<Point>, p: Point, b: int, m: nat)
    requires m < 8 && Move(p, Turn(b, m)) in black && forall j :: 0 <= j < m ==> Move(p, Turn(b, j)) !in black
    ensures Probes(black, p, b, 0) == m
  {
    hide Move, Turn, Probes;
    var n := Probes(black, p, b, 0);
    assert n > m ==> Move(p, Turn(b, m)) !in black;
    assert n < m ==> Move(p, Turn(b, n)) !in black;
  }

  lemma TraceReplays(black: set<Point>, start: Point, steps: seq<Step>, points: seq<Point>, codes: seq<int>)
    requires Trace(black, start, steps) && steps != [] && |points| == |codes| == |steps|
    requires forall k :: 0 <= k < |steps| ==> steps[k] == Step(points[k], codes[k])
    requires Move(steps[|steps| - 1].at, steps[|steps| - 1].dir) == start
    ensures Contour(black, start, points, codes)
  {
    hide Valid, Probes, Next, OnEdge;
    assert Steps(points, codes) == steps;
    forall k | 0 <= k < |codes| ensures 0 <= codes[k] < 8 && points[k] in black && OnEdge(black, points[k]) {
      StepOnEdge(black, steps[k]);
    }
    var all := points + [start];
    forall k | 0 <= k < |codes| ensures all[k + 1] == Move(all[k], codes[k]) {
      if k + 1 < |codes| {
        NextValid(black, steps[k]);
      }
    }
    ReplayIs(all, codes);
  }

  // ---------------------------------------------------------------------------------------
  // The tracer
  // ---------------------------------------------------------------------------------------

  // Closed: the contour returned to its start. Empty: no black pixel. Isolated: the first black
  // pixel has no black neighbour, and the firmware would turn for ever. Full: no room is left.
  datatype Outcome = Closed | Empty | Isolated | Full

  ghost function Blacks(bits: array2<int>): (black: set<Point>)
    reads bits
    ensures forall p :: p in black <==> 0 <= p.y < bits.Length0 && 0 <= p.x < bits.Length1 && bits[p.y, p.x] == 0
  {
    set y, x | 0 <= y < bits.Length0 && 0 <= x < bits.Length1 && bits[y, x] == 0 :: Point(x, y)
  }

  ghost predicate WhiteBorder(bits: array2<int>)
    reads bits
  {
    forall y, x | 0 <= y < bits.Length0 && 0 <= x < bits.Length1 ::
      y == 0 || x == 0 || y == bits.Length0 - 1 || x == bits.Length1 - 1 ==> bits[y, x] != 0
  }

  method FindStart(bits: array2<int>) returns (found: bool, start: Point)
    requires WhiteBorder(bits)
    ensures found <==> Blacks(bits) != {}
    ensures found ==> IsStart(Blacks(bits), start)
  {
    found, start := false, Point(0, 0);
    var j := 1;
    while j < bits.Length0 - 1 && !found
      invariant 1 <= j
      invariant found ==> IsStart(Blacks(bits), start)
      invariant !found ==> forall y, x :: 0 <= y < bits.Length0 && 0 <= x < bits.Length1 && y < j ==> bits[y, x] != 0
    {
      var i := 1;
      while i < bits.Length1 - 1 && !found
        invariant 1 <= i
        invariant found ==> IsStart(Blacks(bits), start)
        invariant !found ==> forall y, x | 0 <= y < bits.Length0 && 0 <= x < bits.Length1 ::
                               y < j || (y == j && x < i) ==> bits[y, x] != 0
      {
        if bits[j, i] == 0 {
          found, start := true, Point(i, j);
        }
        i := i + 1;
      }
      j := j + 1;
    }
    if !found {
      assert forall p :: p !in Blacks(bits);
    }
  }

  // A trace has been followed to the current point, from which the search goes on in direction b.
  ghost predicate Tracing(black: set<Point>, start: Point, steps: seq<Step>, current: Point, b: int) {
    && IsStart(black, start) && Trace(black, start, steps) && 0 <= b < 8
    && (if steps == [] then current == start && b == 0
        else current == Move(steps[|steps| - 1].at, steps[|steps| - 1].dir) && b == Back(steps[|steps| - 1].dir))
  }

  // The search at the end of a trace finds a step that continues it, unless the start point itself
  // has no black neighbour.
  lemma TraceGoesOn(black: set<Point>, start: Point, steps: seq<Step>, current: Point, b: int)
    requires Tracing(black, start, steps, current, b) && (steps == [] || current != start)
    ensures current in black && 0 <= b < 8
    ensures steps != [] ==> HasNeighbour(black, start)
    ensures Probes(black, current, b, 0) < 8 <==> HasNeighbour(black, start)
    ensures Probes(black, current, b, 0) < 8 ==>
              var d := Turn(b, Probes(black, current, b, 0));
              Tracing(black, start, steps + [Step(current, d)], Move(current, d), Back(d))
  {
    if steps == [] {
      ProbesIff(black, start, 0);
      FirstGoesOn(black, start);
    } else {
      NeighbourOfFirst(black, steps[0]);
      NextGoesOn(black, start, steps);
    }
  }

  lemma NeighbourOfFirst(black: set<Point>, s: Step)
    requires Valid(black, s)
    ensures HasNeighbour(black, s.at)
  {
  }

  lemma FirstGoesOn(black: set<Point>, start: Point)
    requires IsStart(black, start)
    ensures Probes(black, start, 0, 0) < 8 ==>
              var d := First(black, start).dir;
              Tracing(black, start, [] + [Step(start, d)], Move(start, d), Back(d))
  {
    if Probes(black, start, 0, 0) < 8 {
      FirstStepValid(black, start);
    }
    hide Move, Probes, IsStart;
  }

  lemma NextGoesOn(black: set<Point>, start: Point, steps: seq<Step>)
    requires IsStart(black, start) && Trace(black, start, steps) && steps != []
    requires Move(steps[|steps| - 1].at, steps[|steps| - 1].dir) != start
    ensures var s := Next(black, steps[|steps| - 1]);
            && s.at in black && Probes(black, s.at, Back(steps[|steps| - 1].dir), 0) < 8
            && Tracing(black, start, steps + [s], Move(s.at, s.dir), Back(s.dir))
  {
    hide Move, Probes, IsStart, Valid, Next, Turn, Trace;
    var s := Next(black, steps[|steps| - 1]);
    LastValid(black, start, steps);
    NextValid(black, steps[|steps| - 1]);
    WayBack(black, steps[|steps| - 1]);
    ValidParts(black, s);
    TraceAppend(black, start, steps, s);
    TurnTurn(s.dir, 0, 6);
  }

  lemma LastValid(black: set<Point>, start: Point, steps: seq<Step>)
    requires Trace(black, start, steps) && steps != []
    ensures Valid(black, steps[|steps| - 1])
  {
    hide Valid, Next, First;
  }

  lemma TraceAppend(black: set<Point>, start: Point, steps: seq<Step>, s: Step)
    requires Trace(black, start, steps) && Valid(black, s)
    requires if steps == [] then s == First(black, start) else s == Next(black, steps[|steps| - 1]) && s.at != start
    ensures Trace(black, start, steps + [s])
  {
    hide Valid, Next, First;
  }

  // The arrays hold the steps.
  ghost predicate Recorded(steps: seq<Step>, points: seq<Point>, codes: seq<int>) {
    |steps| <= |points| == |codes| && forall k :: 0 <= k < |steps| ==> steps[k] == Step(points[k], codes[k])
  }

  // What the tracer has done so far.
  ghost predicate Progress(black: set<Point>, start: Point, steps: seq<Step>, current: Point, b: int,
                           points: seq<Point>, codes: seq<int>) {
    Tracing(black, start, steps, current, b) && Recorded(steps, points, codes)
  }

  lemma ProgressStarts(black: set<Point>, start: Point, points: seq<Point>, codes: seq<int>)
    requires IsStart(black, start) && |points| == |codes|
    ensures Progress(black, start, [], start, 0, points, codes)
  {
  }

  lemma ProgressStep(black: set<Point>, start: Point, steps: seq<Step>, current: Point, b: int,
                     points: seq<Point>, codes: seq<int>)
    requires Progress(black, start, steps, current, b, points, codes)
    requires |steps| < |points| && (steps == [] || current != start)
    ensures current in black && 0 <= b < 8
    ensures steps != [] ==> HasNeighbour(black, start)
    ensures Probes(black, current, b, 0) < 8 <==> HasNeighbour(black, start)
    ensures Probes(black, current, b, 0) < 8 ==>
              var d := Turn(b, Probes(black, current, b, 0));
              && 0 <= d < 8
              && Progress(black, start, steps + [Step(current, d)],
                          Point(current.x + Dx(d), current.y + Dy(d)), MinusTwo(d),
                          points[|steps| := current], codes[|steps| := d])
  {
    hide *;
    ProgressIs(black, start, steps, current, b, points, codes);
    TraceGoesOn(black, start, steps, current, b);
    var d := Turn(b, Probes(black, current, b, 0));
    TurnTurn(b, 0, Probes(black, current, b, 0));
    AfterStep(current, d);
    RecordedStep(steps, points, codes, current, d);
    ProgressIs(black, start, steps + [Step(current, d)], Move(current, d), Back(d),
               points[|steps| := current], codes[|steps| := d]);
  }

  lemma ProgressIs(black: set<Point>, start: Point, steps: seq<Step>, current: Point, b: int,
                   points: seq<Point>, codes: seq<int>)
    ensures Progress(black, start, steps, current, b, points, codes)
            <==> Tracing(black, start, steps, current, b) && Recorded(steps, points, codes)
    ensures Recorded(steps, points, codes) ==> |steps| <= |points| == |codes|
  {
  }

  lemma RecordedStep(steps: seq<Step>, points: seq<Point>, codes: seq<int>, p: Point, d: int)
    requires Recorded(steps, points, codes) && |steps| < |points|
    ensures Recorded(steps + [Step(p, d)], points[|steps| := p], codes[|steps| := d])
  {
  }

  function MinusOne(d: int): int {
    if d - 1 == -1 then 7 else d - 1
  }

  function MinusTwo(d: int): int {
    MinusOne(MinusOne(d))
  }

  lemma ClosedContour(black: set<Point>, start: Point, steps: seq<Step>, b: int, points: seq<Point>, codes: seq<int>)
    requires Tracing(black, start, steps, start, b) && steps != [] && Recorded(steps, points, codes)
    ensures Contour(black, start, points[..|steps|], codes[..|steps|])
  {
    TraceReplays(black, start, steps, points[..|steps|], codes[..|steps|]);
  }

  // Black points lie inside the border, so their neighbours lie inside the image.
  lemma NeighbourAt(bits: array2<int>, p: Point, d: int)
    requires WhiteBorder(bits) && p in Blacks(bits)
    ensures 0 <= p.y + Dy(d) < bits.Length0 && 0 <= p.x + Dx(d) < bits.Length1
    ensures bits[p.y + Dy(d), p.x + Dx(d)] == 0 <==> Move(p, d) in Blacks(bits)
  {
  }

  lemma TurnNext(b: int, k: nat, d: int)
    requires 0 <= b < 8
    ensures Turn(b, 0) == b
    ensures d == Turn(b, k) ==> (if d + 1 == 8 then 0 else d + 1) == Turn(b, k + 1)
  {
  }

  // Two turns back, the counter wrapping at zero.
  lemma AfterStep(p: Point, d: int)
    requires 0 <= d < 8
    ensures Move(p, d) == Point(p.x + Dx(d), p.y + Dy(d)) && Back(d) == MinusTwo(d)
  {
  }

  // Probing neighbours from direction b on.
  method Search(bits: array2<int>, current: Point, b: int) returns (d: int, probes: nat)
    requires WhiteBorder(bits) && current in Blacks(bits) && 0 <= b < 8
    ensures probes == Probes(Blacks(bits), current, b, 0) && d == Turn(b, probes)
  {
    hide *;
    ghost var black := Blacks(bits);
    ghost var m := Probes(black, current, b, 0);
    d, probes := b, 0;
    TurnNext(b, 0, b);
    while probes < 8
      invariant 0 <= probes <= m && 0 <= d < 8 && d == Turn(b, probes)
      decreases 8 - probes
    {
      NeighbourAt(bits, current, d);
      TurnNext(b, probes, d);
      TurnTurn(b, 0, probes + 1);
      if bits[current.y + Dy(d), current.x + Dx(d)] == 0 {
        return;
      }
      d := d + 1;
      if d == 8 {
        d := 0;
      }
      probes := probes + 1;
    }
  }

  lemma ProgressEnds(black: set<Point>, start: Point, steps: seq<Step>, current: Point, b: int,
                     points: seq<Point>, codes: seq<int>)
    requires Progress(black, start, steps, current, b, points, codes)
    ensures |steps| <= 8 * |black| && |steps| <= |points| == |codes|
    ensures Trace(black, start, Steps(points[..|steps|], codes[..|steps|]))
    ensures steps != [] ==> HasNeighbour(black, start)
    ensures steps != [] && current == start ==> Contour(black, start, points[..|steps|], codes[..|steps|])
  {
    hide Trace, Contour, Valid, First, HasNeighbour, IsStart;
    TraceBounded(black, start, steps);
    assert Steps(points[..|steps|], codes[..|steps|]) == steps;
    if steps != [] {
      TraceHasNeighbour(black, start, steps);
    }
    if steps != [] && current == start {
      ClosedContour(black, start, steps, b, points, codes);
    }
  }

  lemma TraceHasNeighbour(black: set<Point>, start: Point, steps: seq<Step>)
    requires Trace(black, start, steps) && steps != []
    ensures HasNeighbour(black, start)
  {
    NeighbourOfFirst(black, steps[0]);
    hide Valid, HasNeighbour;
  }

  // Following the boundary from its start point until it closes or the arrays are full.
  method Follow(bits: array2<int>, nVerct: array<int>, coordinate: array<Point>, start: Point)
    returns (isolated: bool, closed: bool, index: nat, ghost steps: seq<Step>, ghost current: Point, ghost b: int)
    requires WhiteBorder(bits) && nVerct.Length == coordinate.Length && IsStart(Blacks(bits), start)
    requires nVerct as object != bits && coordinate as object != bits
    modifies nVerct, coordinate
    ensures index == |steps| <= nVerct.Length
    ensures Progress(Blacks(bits), start, steps, current, b, coordinate[..], nVerct[..])
    ensures closed <==> steps != [] && current == start
    ensures isolated ==> !HasNeighbour(Blacks(bits), start) && !closed && index < nVerct.Length
    ensures isolated || closed || index == nVerct.Length
  {
    hide *;
    var beginDirect, at := 0, start;
    index, isolated, closed, steps := 0, false, false, [];
    ProgressStarts(Blacks(bits), start, coordinate[..], nVerct[..]);
    while !closed && index < nVerct.Length
      invariant WhiteBorder(bits) && index == |steps| <= nVerct.Length
      invariant Progress(Blacks(bits), start, steps, at, beginDirect, coordinate[..], nVerct[..])
      invariant closed <==> steps != [] && at == start
      decreases nVerct.Length - index
    {
      ghost var points, codes := coordinate[..], nVerct[..];
      ProgressStep(Blacks(bits), start, steps, at, beginDirect, points, codes);
      var d, probes := Search(bits, at, beginDirect);
      if probes == 8 {
        isolated, current, b := true, at, beginDirect;
        return;
      }
      nVerct[index] := d;
      coordinate[index] := at;
      assert coordinate[..] == points[index := at] && nVerct[..] == codes[index := d];
      steps := steps + [Step(at, d)];
      index := index + 1;
      at := Point(at.x + Dx(d), at.y + Dy(d));
      closed := at == start;
      beginDirect := MinusTwo(d);
    }
    current, b := at, beginDirect;
  }

  method PickBoundary(bits: array2<int>, nVerct: array<int>, coordinate: array<Point>)
    returns (outcome: Outcome, start: Point, index: nat)
    requires WhiteBorder(bits) && nVerct.Length == coordinate.Length
    requires nVerct as object != bits && coordinate as object != bits
    modifies nVerct, coordinate
    ensures outcome == Empty <==> Blacks(bits) == {}
    ensures outcome != Empty ==> IsStart(Blacks(bits), start)
    ensures outcome == Isolated <==>
              Blacks(bits) != {} && !HasNeighbour(Blacks(bits), start) && nVerct.Length > 0
    ensures outcome == Closed ==> HasNeighbour(Blacks(bits), start)
    ensures nVerct.Length > 8 * |Blacks(bits)| ==>
              (outcome == Closed <==> Blacks(bits) != {} && HasNeighbour(Blacks(bits), start))
    ensures index <= nVerct.Length && (outcome == Full ==> index == nVerct.Length)
    ensures Trace(Blacks(bits), start, Steps(coordinate[..index], nVerct[..index]))
    ensures outcome == Closed ==> Contour(Blacks(bits), start, coordinate[..index], nVerct[..index])
  {
    var found;
    found, start := FindStart(bits);
    if !found {
      return Empty, start, 0;
    }
    assert Blacks(bits) != {};
    hide *;
    var isolated, closed;
    ghost var steps, current, b;
    isolated, closed, index, steps, current, b := Follow(bits, nVerct, coordinate, start);
    ProgressEnds(Blacks(bits), start, steps, current, b, coordinate[..], nVerct[..]);
    outcome := if isolated then Isolated else if closed then Closed else Full;
  }

  // A single black pixel is such an isolated start.
  lemma OnePixel(bits: array2<int>)
    requires bits.Length0 == bits.Length1 == 3 && WhiteBorder(bits) && bits[1, 1] == 0
    ensures Blacks(bits) == {Point(1, 1)} && IsStart(Blacks(bits), Point(1, 1))
    ensures !HasNeighbour(Blacks(bits), Point(1, 1))
  {
    forall p | p in Blacks(bits) ensures p == Point(1, 1) {
    }
    assert Point(1, 1) in Blacks(bits);
    assert Blacks(bits) == {Point(1, 1)};
    hide Blacks, WhiteBorder;
    forall d | 0 <= d < 8 ensures Move(Point(1, 1), d) != Point(1, 1) {
    }
  }
}
