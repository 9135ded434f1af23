/**
 * The per-frame element arbiter: ramp, start, tag, garage, fork and the two roundabouts share
 * enable flags, odometers and gyro angles, and several of them may advance within one frame.
 */
module Arbiter {
  import opened LineFlags

  datatype Enables = Enables(garage: bool, fork: bool, loop: bool, tag: bool, ramp: bool, start: bool)

  const ALL := Enables(true, true, true, true, true, true)
  const NONE := Enables(false, false, false, false, false, false)

  // The phase of every element, 0 for inactive.
  datatype Phases = Phases(ramp: int, start: int, tag: int, garage: int, fork: int, lLoop: int, rLoop: int)
  datatype Course = Course(enStart: bool, forkNum: int, fork1Dir: int, fork2Dir: int, turns: int, garageDis: real)
  datatype Odometers = Odometers(loopDist: real, forkDist: real, startDist: real, rampDist: real)
  datatype Gyro = Gyro(gyroY: real, gyroZ: real, startAngle: real)
  datatype Car = Car(en: Enables, phases: Phases, course: Course, odo: Odometers, gyro: Gyro)

  // What the world does before a frame and what the frame's detectors report.
  datatype Input = Input(
    reset: bool, eleEnable: bool, rampDet: bool, friutRegco: bool, pressStart: bool, tagDone: bool,
    travel: real, gyroY: real, gyroZ: real, startAngle: real,
    rampSeen: bool, tagSeen: bool, garageSeen: bool, forkSeen: bool, forkStill: bool,
    lLoopSeen: bool, rLoopSeen: bool,
    garageStartRow: int, garageDis: real, leftStartRow: int, rightStartRow: int,
    leftFlags: seq<int>, rightFlags: seq<int>)

  const INITIAL := Car(ALL, Phases(0, 0, 0, 0, 0, 0, 0), Course(false, 0, 0, 0, 0, 0.0),
                       Odometers(0.0, 0.0, 0.0, 0.0), Gyro(0.0, 0.0, 0.0))

  ghost predicate WellFormed(i: Input) {
    |i.leftFlags| == |i.rightFlags| == 120
  }

  function Abs(x: real): real {
    if x < 0.0 then -x else x
  }

  // ---------------------------------------------------------------------------------------
  // One frame, block by block
  // ---------------------------------------------------------------------------------------

  // Every odometer further by delta.
  function Advanced(c: Car, delta: real): Car {
    c.(odo := Odometers(c.odo.loopDist + delta, c.odo.forkDist + delta,
                        c.odo.startDist + delta, c.odo.rampDist + delta))
  }

  // Odometers advance, the gyro turns, the start button and the tag recogniser act.
  function World(c: Car, i: Input): Car {
    Advanced(c, i.travel).(gyro := Gyro(i.gyroY, i.gyroZ, i.startAngle),
                           course := c.course.(enStart := c.course.enStart || i.pressStart),
                           phases := c.phases.(tag := if i.tagDone && c.phases.tag == 1 then 2 else c.phases.tag))
  }

  function Reset(c: Car, i: Input): Car {
    if i.reset then
      c.(en := ALL, phases := Phases(0, 0, 0, 0, 0, 0, 0),
         course := c.course.(enStart := false, forkNum := 0, fork1Dir := 0, fork2Dir := 0))
    else c
  }

  // Each element sees its own globals and the shared ones it writes.
  datatype Ramp = Ramp(phase: int, dist: real, gyroY: real, en: Enables)
  datatype Start = Start(phase: int, dist: real, angle: real, armed: bool, gyroY: real, en: Enables)
  datatype Tag = Tag(phase: int, gyroY: real, en: Enables)
  datatype Garage = Garage(phase: int, dist: real, angle: real, gyroY: real, en: Enables)
  datatype Fork = Fork(phase: int, dist: real, num: int, gyroY: real, en: Enables)
  datatype Loop = Loop(phase: int, dist: real, gyroY: real, en: Enables)
  datatype Entry = Entry(left: int, right: int, dist: real, gyroZ: real, en: Enables)

  function RampSteps(r: Ramp, i: Input): Ramp {
    var r := if r.phase == 0 && i.rampSeen then Ramp(1, 0.0, 0.0, NONE.(ramp := true)) else r;
    var r := if r.phase == 1 && (Abs(r.gyroY) > 8.0 || r.dist > 50.0) then r.(phase := 2, dist := 0.0) else r;
    var r := if r.phase == 2 && (Abs(r.gyroY) <= 4.0 || r.dist > 50.0) then r.(phase := 3, dist := 0.0) else r;
    var r := if r.phase == 3 && (r.gyroY <= -8.0 || r.dist > 50.0) then r.(phase := 4, dist := 0.0) else r;
    if r.phase == 4 && (Abs(r.gyroY) <= 4.0 || r.dist > 50.0) then r.(phase := 0, dist := 0.0, en := ALL) else r
  }

  function RampBlock(c: Car, i: Input): Car {
    if !(c.en.ramp && i.rampDet) then c else
      var r := RampSteps(Ramp(c.phases.ramp, c.odo.rampDist, c.gyro.gyroY, c.en), i);
      c.(phases := c.phases.(ramp := r.phase), odo := c.odo.(rampDist := r.dist), gyro := c.gyro.(gyroY := r.gyroY),
         en := r.en)
  }

  // The flag tells that the frame ends here.
  function StartSteps(s: Start): (Start, bool) {
    var s := if s.phase == 0 then s.(phase := 3, dist := 0.0, angle := 0.0, en := NONE.(start := true)) else s;
    var s := if s.phase == 2 then Start(0, 0.0, 0.0, false, 0.0, ALL) else s;
    if s.phase == 3 then (if s.dist > 12.0 then s.(phase := 4, dist := 0.0) else s, true)
    else if s.phase == 4 then (if Abs(s.angle) > 50.0 || s.dist > 60.0 then s.(phase := 2) else s, true)
    else (s, false)
  }

  function StartBlock(c: Car): (Car, bool) {
    if !(c.en.start && c.course.enStart) then (c, false) else
      var (s, ended) := StartSteps(Start(c.phases.start, c.odo.startDist, c.gyro.startAngle, c.course.enStart,
                                         c.gyro.gyroY, c.en));
      (c.(phases := c.phases.(start := s.phase), odo := c.odo.(startDist := s.dist),
          gyro := c.gyro.(gyroY := s.gyroY, startAngle := s.angle), course := c.course.(enStart := s.armed),
          en := s.en), ended)
  }

  function TagSteps(t: Tag, i: Input): (Tag, bool) {
    var t := if t.phase == 0 && i.tagSeen then t.(phase := 1, en := NONE.(tag := true)) else t;
    if t.phase == 1 then (t, true)
    else if t.phase == 2 then (Tag(0, 0.0, ALL), false)
    else (t, false)
  }

  function TagBlock(c: Car, i: Input): (Car, bool) {
    if !(c.en.tag && i.friutRegco) then (c, false) else
      var (t, ended) := TagSteps(Tag(c.phases.tag, c.gyro.gyroY, c.en), i);
      (c.(phases := c.phases.(tag := t.phase), gyro := c.gyro.(gyroY := t.gyroY), en := t.en), ended)
  }

  // The first garage is driven past, and turns the forks round; the next one is entered.
  function EnterGarage(turns: int): Garage {
    Garage(if turns + 1 == 1 then 5 else 4, 0.0, 0.0, 0.0, NONE.(garage := true))
  }

  function Signed(c: Course, i: Input): Course {
    var c := c.(turns := c.turns + 1, garageDis := i.garageDis);
    if c.turns == 1 then c.(fork1Dir := Not(c.fork1Dir), fork2Dir := Not(c.fork2Dir)) else c
  }

  function GarageSteps(g: Garage, signDis: real, i: Input): (Garage, bool) {
    var g := if g.phase == 4 && (i.garageStartRow > 100 || g.dist >= signDis - 5.0)
             then g.(phase := 1, dist := 0.0) else g;
    if g.phase == 1 then
      (if Abs(g.angle) > 70.0 && g.dist > 30.0 then g.(phase := 2, dist := 0.0, angle := 0.0) else g, true)
    else if g.phase == 5 then
      (if g.dist > 230.0 || g.dist >= signDis + 20.0 then Garage(0, 0.0, 0.0, 0.0, ALL) else g, true)
    else (g, false)
  }

  function GarageEntry(c: Car, i: Input): Car {
    if c.phases.garage == 0 && i.garageSeen then
      WithGarage(c, EnterGarage(c.course.turns)).(course := Signed(c.course, i))
    else c
  }

  function WithGarage(c: Car, g: Garage): Car {
    c.(phases := c.phases.(garage := g.phase), odo := c.odo.(startDist := g.dist),
       gyro := c.gyro.(gyroY := g.gyroY, startAngle := g.angle), en := g.en)
  }

  function GarageBlock(c: Car, i: Input): (Car, bool) {
    if !c.en.garage then (c, false) else
      var c := GarageEntry(c, i);
      var (g, ended) := GarageSteps(Garage(c.phases.garage, c.odo.startDist, c.gyro.startAngle, c.gyro.gyroY, c.en),
                                    c.course.garageDis, i);
      (WithGarage(c, g), ended)
  }

  function Not(dir: int): int {
    if dir == 0 then 1 else 0
  }

  // Branch taken at the fork with this number; numbers outside 1..8 have none.
  predicate ForkDirIs(num: int, fork1Dir: int, fork2Dir: int, dir: int) {
    || ((num == 1 || num == 2 || num == 5 || num == 6) && fork1Dir == dir)
    || ((num == 3 || num == 4 || num == 7 || num == 8) && fork2Dir == dir)
  }

  // Patching a branch, whose opposite edge reappears at startRow.
  function ForkBranch(f: Fork, i: Input, startRow: int): Fork {
    var f := if f.phase == 1 && startRow < 75 && f.dist > 10.0 then f.(phase := 2, dist := 0.0) else f;
    if f.phase == 2 && !i.forkStill && f.dist > 70.0 then f.(phase := 0, gyroY := 0.0, en := ALL) else f
  }

  function ForkSteps(f: Fork, fork1Dir: int, fork2Dir: int, i: Input): Fork {
    var f := if f.phase == 0 && i.forkSeen then Fork(1, 0.0, f.num + 1, f.gyroY, NONE.(fork := true)) else f;
    if f.phase == 1 || f.phase == 2 then
      var f := if ForkDirIs(f.num, fork1Dir, fork2Dir, 1) then ForkBranch(f, i, i.leftStartRow) else f;
      if ForkDirIs(f.num, fork1Dir, fork2Dir, 0) then ForkBranch(f, i, i.rightStartRow) else f
    else f
  }

  function ForkBlock(c: Car, i: Input): Car {
    if !c.en.fork then c else
      var f := ForkSteps(Fork(c.phases.fork, c.odo.forkDist, c.course.forkNum, c.gyro.gyroY, c.en),
                         c.course.fork1Dir, c.course.fork2Dir, i);
      c.(phases := c.phases.(fork := f.phase), odo := c.odo.(forkDist := f.dist),
         course := c.course.(forkNum := f.num), gyro := c.gyro.(gyroY := f.gyroY), en := f.en)
  }

  function LeftSteps(l: Loop, gyroZ: real, i: Input): Loop
    requires |i.leftFlags| == |i.rightFlags| == 120
  {
    var l := if l.phase == 1 && i.leftStartRow < 73 && l.dist >= 25.0 then l.(phase := 3, dist := 0.0) else l;
    var l := if l.phase == 3 && i.leftStartRow > 105 && l.dist >= 10.0 then l.(phase := 2, dist := 0.0) else l;
    var l := if l.phase == 2 && i.rightStartRow < 75 then l.(phase := 4) else l;
    var l := if l.phase == 4 && i.rightStartRow > 110 then l.(phase := 5) else l;
    var l := if l.phase == 5 && Abs(gyroZ) >= 255.0 then l.(phase := 6) else l;
    var l := if l.phase == 6 && Abs(gyroZ) >= 335.0 then l.(phase := 7, dist := 0.0) else l;
    if l.phase == 7 && ((IsNonlose(i.leftFlags, i.rightFlags, 75, 110, 2, 95) && l.dist > 70.0) || l.dist > 200.0)
    then l.(phase := 0, gyroY := 0.0, en := ALL) else l
  }

  function RightSteps(l: Loop, gyroZ: real, i: Input): Loop
    requires |i.leftFlags| == |i.rightFlags| == 120
  {
    var l := if l.phase == 1 && i.rightStartRow < 77 && l.dist >= 10.0 then l.(phase := 3, dist := 0.0) else l;
    var l := if l.phase == 3 && i.rightStartRow > 100 && l.dist >= 10.0 then l.(phase := 2, dist := 0.0) else l;
    var l := if l.phase == 2 && IsLose(i.leftFlags, i.rightFlags, 90, 118, 0, 90) then l.(phase := 4) else l;
    var l := if l.phase == 4 && IsNonlose(i.leftFlags, i.rightFlags, 80, 110, 0, 80) then l.(phase := 5) else l;
    var l := if l.phase == 5 && Abs(gyroZ) >= 270.0 then l.(phase := 6) else l;
    var l := if l.phase == 6 && Abs(gyroZ) >= 335.0 then l.(phase := 7, dist := 0.0) else l;
    if l.phase == 7 && ((IsNonlose(i.leftFlags, i.rightFlags, 75, 110, 2, 80) && l.dist > 70.0) || l.dist > 200.0)
    then l.(phase := 0, gyroY := 0.0, en := ALL) else l
  }

  function LeftLoopPatch(c: Car, i: Input): Car
    requires |i.leftFlags| == |i.rightFlags| == 120
  {
    var l := LeftSteps(Loop(c.phases.lLoop, c.odo.loopDist, c.gyro.gyroY, c.en), c.gyro.gyroZ, i);
    c.(phases := c.phases.(lLoop := l.phase), odo := c.odo.(loopDist := l.dist), gyro := c.gyro.(gyroY := l.gyroY),
       en := l.en)
  }

  function RightLoopPatch(c: Car, i: Input): Car
    requires |i.leftFlags| == |i.rightFlags| == 120
  {
    var l := RightSteps(Loop(c.phases.rLoop, c.odo.loopDist, c.gyro.gyroY, c.en), c.gyro.gyroZ, i);
    c.(phases := c.phases.(rLoop := l.phase), odo := c.odo.(loopDist := l.dist), gyro := c.gyro.(gyroY := l.gyroY),
       en := l.en)
  }

  // A roundabout seen while there is none, the left-hand one first.
  function EntrySteps(e: Entry, i: Input): Entry {
    var e := if e.left == 0 && e.right == 0 && i.lLoopSeen then Entry(1, e.right, 0.0, 0.0, NONE.(loop := true)) else e;
    if e.left == 0 && e.right == 0 && i.rLoopSeen then Entry(e.left, 1, 0.0, 0.0, NONE.(loop := true)) else e
  }

  function LoopEntry(c: Car, i: Input): Car {
    var e := EntrySteps(Entry(c.phases.lLoop, c.phases.rLoop, c.odo.loopDist, c.gyro.gyroZ, c.en), i);
    c.(phases := c.phases.(lLoop := e.left, rLoop := e.right), odo := c.odo.(loopDist := e.dist),
       gyro := c.gyro.(gyroZ := e.gyroZ), en := e.en)
  }

  function LoopBlock(c: Car, i: Input): Car
    requires |i.leftFlags| == |i.rightFlags| == 120
  {
    if !c.en.loop then c else
      var c := LoopEntry(c, i);
      if c.phases.lLoop != 0 then LeftLoopPatch(c, i)
      else if c.phases.rLoop != 0 then RightLoopPatch(c, i)
      else c
  }

  function Blocks(c: Car, i: Input): Car
    requires |i.leftFlags| == |i.rightFlags| == 120
  {
    if !i.eleEnable then c else
      var c := RampBlock(c, i);
      var (c, ended) := StartBlock(c);
      if ended then c else
        var (c, ended) := TagBlock(c, i);
        if ended then c else
          var (c, ended) := GarageBlock(c, i);
          if ended then c else LoopBlock(ForkBlock(c, i), i)
  }

  function FindElements(c: Car, i: Input): Car
    requires |i.leftFlags| == |i.rightFlags| == 120
  {
    Blocks(Reset(c, i), i)
  }

  function Frame(c: Car, i: Input): Car
    requires |i.leftFlags| == |i.rightFlags| == 120
  {
    FindElements(World(c, i), i)
  }

  ghost predicate Inputs(ins: seq<Input>) {
    forall k :: 0 <= k < |ins| ==> WellFormed(ins[k])
  }

  ghost function Run(c: Car, ins: seq<Input>): Car
    requires Inputs(ins)
  {
    if ins == [] then c else Frame(Run(c, ins[..|ins| - 1]), ins[|ins| - 1])
  }

  // ---------------------------------------------------------------------------------------
  // Mutual exclusion
  // ---------------------------------------------------------------------------------------

  function On(state: int): nat {
    if state == 0 then 0 else 1
  }

  function Active(c: Car): nat {
    On(c.phases.ramp) + On(c.phases.start) + On(c.phases.tag) + On(c.phases.garage) + On(c.phases.fork)
    + On(c.phases.lLoop) + On(c.phases.rLoop)
  }

  // The enables that the active element, if any, leaves on.
  function OwnEnables(c: Car): Enables {
    if Active(c) == 0 then ALL
    else
      var p := c.phases;
      Enables(p.garage != 0, p.fork != 0, p.lLoop != 0 || p.rLoop != 0, p.tag != 0, p.ramp != 0, p.start != 0)
  }

  predicate Inv(c: Car) {
    && Active(c) <= 1 && c.en == OwnEnables(c)
    && 0 <= c.phases.ramp <= 4 && (c.phases.start == 0 || 2 <= c.phases.start <= 4) && 0 <= c.phases.tag <= 2
    && (0 <= c.phases.garage <= 2 || 4 <= c.phases.garage <= 5) && 0 <= c.phases.fork <= 2
    && 0 <= c.phases.lLoop <= 7 && 0 <= c.phases.rLoop <= 7
    && c.course.forkNum >= 0 && (c.phases.fork != 0 ==> c.course.forkNum >= 1)
    && 0 <= c.course.fork1Dir <= 1 && 0 <= c.course.fork2Dir <= 1
  }

  lemma RampKeeps(c: Car, i: Input)
    requires Inv(c)
    ensures Inv(RampBlock(c, i))
  {
  }

  lemma StartKeeps(c: Car)
    requires Inv(c)
    ensures Inv(StartBlock(c).0)
  {
  }

  lemma TagKeeps(c: Car, i: Input)
    requires Inv(c)
    ensures Inv(TagBlock(c, i).0)
  {
  }

  lemma GarageKeeps(c: Car, i: Input)
    requires Inv(c)
    ensures Inv(GarageBlock(c, i).0)
  {
  }

  lemma ForkKeeps(c: Car, i: Input)
    requires Inv(c)
    ensures Inv(ForkBlock(c, i))
  {
  }

  lemma LeftPatchKeeps(c: Car, i: Input)
    requires Inv(c) && WellFormed(i) && c.phases.lLoop != 0
    ensures Inv(LeftLoopPatch(c, i))
  {
    hide IsNonlose;
  }

  lemma RightPatchKeeps(c: Car, i: Input)
    requires Inv(c) && WellFormed(i) && c.phases.rLoop != 0
    ensures Inv(RightLoopPatch(c, i))
  {
    hide IsLose, IsNonlose;
  }

  lemma LoopKeeps(c: Car, i: Input)
    requires Inv(c) && WellFormed(i)
    ensures Inv(LoopBlock(c, i))
  {
    hide LeftLoopPatch, RightLoopPatch;
    if c.en.loop {
      var d := LoopEntry(c, i);
      EntryKeeps(c, i);
      hide LoopEntry;
      if d.phases.lLoop != 0 {
        LeftPatchKeeps(d, i);
      } else if d.phases.rLoop != 0 {
        RightPatchKeeps(d, i);
      }
    }
  }

  lemma EntryKeeps(c: Car, i: Input)
    requires Inv(c) && c.en.loop
    ensures Inv(LoopEntry(c, i))
  {
  }

  lemma FindElementsKeeps(c: Car, i: Input)
    requires Inv(c) && WellFormed(i)
    ensures Inv(FindElements(c, i))
  {
    var c0 := Reset(c, i);
    assert Inv(c0);
    hide Inv, RampBlock, StartBlock, TagBlock, GarageBlock, ForkBlock, LoopBlock, Reset;
    RampKeeps(c0, i);
    var c1 := RampBlock(c0, i);
    StartKeeps(c1);
    var c2 := StartBlock(c1).0;
    TagKeeps(c2, i);
    var c3 := TagBlock(c2, i).0;
    GarageKeeps(c3, i);
    var c4 := GarageBlock(c3, i).0;
    ForkKeeps(c4, i);
    LoopKeeps(ForkBlock(c4, i), i);
  }

  lemma FrameKeeps(c: Car, i: Input)
    requires Inv(c) && WellFormed(i)
    ensures Inv(Frame(c, i))
  {
    assert Inv(World(c, i));
    hide FindElements, Inv;
    FindElementsKeeps(World(c, i), i);
  }

  // In every reachable state at most one element is active, and it alone is enabled; with none
  // active all are.
  lemma {:induction false} MutualExclusion(c: Car, ins: seq<Input>)
    requires Inv(c) && Inputs(ins)
    ensures Inv(Run(c, ins))
  {
    if ins != [] {
      MutualExclusion(c, ins[..|ins| - 1]);
      FrameKeeps(Run(c, ins[..|ins| - 1]), ins[|ins| - 1]);
    }
  }

  // ---------------------------------------------------------------------------------------
  // Roundabouts
  // ---------------------------------------------------------------------------------------

  function Phase(c: Car, left: bool): int {
    if left then c.phases.lLoop else c.phases.rLoop
  }

  // Phases one frame can lead to: 1, 3, 2, 4, 5, 6, 7, 0 in this order, never both 2 -> 4 and 4 -> 5.
  predicate LoopSucc(p: int, q: int) {
    if p == 0 then q == 0 || q == 1
    else if p == 1 then q == 1 || q == 3
    else if p == 3 then q == 3 || q == 2 || q == 4
    else if p == 2 then q == 2 || q == 4
    else if p == 4 then 4 <= q <= 7
    else if p == 5 then 5 <= q <= 7
    else if p == 6 then 6 <= q <= 7
    else p == 7 && (q == 7 || q == 0)
  }

  // What a frame without reset does to a roundabout in phase p when it ends in phase q.
  predicate LoopMoves(p: int, before: real, travel: real, q: int, after: real) {
    && LoopSucc(p, q)
    && (q == 7 ==> after == if p == 7 then before + travel else 0.0)
    && (p != 0 && q == 0 ==> before + travel > 70.0)
  }

  lemma LeftPatchMoves(c: Car, i: Input)
    requires WellFormed(i) && 1 <= c.phases.lLoop <= 7
    ensures var d := LeftLoopPatch(c, i);
            LoopMoves(c.phases.lLoop, c.odo.loopDist, 0.0, d.phases.lLoop, d.odo.loopDist)
    ensures c.phases.lLoop == 1 && c.odo.loopDist == 0.0 ==> LeftLoopPatch(c, i) == c
  {
    hide IsLose, IsNonlose;
  }

  lemma RightPatchMoves(c: Car, i: Input)
    requires WellFormed(i) && 1 <= c.phases.rLoop <= 7
    ensures var d := RightLoopPatch(c, i);
            LoopMoves(c.phases.rLoop, c.odo.loopDist, 0.0, d.phases.rLoop, d.odo.loopDist)
    ensures c.phases.rLoop == 1 && c.odo.loopDist == 0.0 ==> RightLoopPatch(c, i) == c
  {
    if IsLose(i.leftFlags, i.rightFlags, 90, 118, 0, 90) {
      LoseExcludesNonlose(i.leftFlags, i.rightFlags);
    }
    hide IsLose, IsNonlose;
  }

  // While a roundabout is active the other blocks do nothing.
  lemma OnlyLoopRuns(c: Car, i: Input)
    requires Inv(c) && WellFormed(i) && i.eleEnable && (c.phases.lLoop != 0 || c.phases.rLoop != 0)
    ensures Blocks(c, i) == if c.phases.lLoop != 0 then LeftLoopPatch(c, i) else RightLoopPatch(c, i)
  {
    hide LeftLoopPatch, RightLoopPatch;
  }

  // The states a block may leave to others.
  predicate SameLoops(c: Car, d: Car) {
    d.phases.lLoop == c.phases.lLoop && d.phases.rLoop == c.phases.rLoop
  }

  predicate SameRamp(c: Car, d: Car) {
    d.phases.ramp == c.phases.ramp && d.odo.rampDist == c.odo.rampDist
  }

  lemma RampLeaves(c: Car, i: Input)
    ensures SameLoops(c, RampBlock(c, i))
  {
  }

  lemma StartLeaves(c: Car)
    ensures SameLoops(c, StartBlock(c).0) && SameRamp(c, StartBlock(c).0)
  {
  }

  lemma TagLeaves(c: Car, i: Input)
    ensures SameLoops(c, TagBlock(c, i).0) && SameRamp(c, TagBlock(c, i).0)
  {
  }

  lemma GarageLeaves(c: Car, i: Input)
    ensures SameLoops(c, GarageBlock(c, i).0) && SameRamp(c, GarageBlock(c, i).0)
  {
  }

  lemma ForkLeaves(c: Car, i: Input)
    ensures SameLoops(c, ForkBlock(c, i)) && SameRamp(c, ForkBlock(c, i))
  {
  }

  lemma LoopLeaves(c: Car, i: Input)
    requires WellFormed(i)
    ensures SameRamp(c, LoopBlock(c, i))
  {
    hide IsLose, IsNonlose;
  }

  // A roundabout that was not active is at most entered.
  lemma LoopEnters(c: Car, i: Input)
    requires WellFormed(i) && c.phases.lLoop == c.phases.rLoop == 0
    ensures var p := LoopBlock(c, i).phases; (p.lLoop == 0 && 0 <= p.rLoop <= 1) || (p.lLoop == 1 && p.rLoop == 0)
  {
    var entered := LoopEntry(c, i);
    if entered.phases.lLoop != 0 {
      LeftPatchMoves(entered, i);
    } else if entered.phases.rLoop != 0 {
      RightPatchMoves(entered, i);
    }
    hide LeftLoopPatch, RightLoopPatch;
  }

  lemma LoopsEnter(c: Car, i: Input)
    requires WellFormed(i) && c.phases.lLoop == c.phases.rLoop == 0
    ensures var p := Blocks(c, i).phases; (p.lLoop == 0 && 0 <= p.rLoop <= 1) || (p.lLoop == 1 && p.rLoop == 0)
  {
    hide RampBlock, StartBlock, TagBlock, GarageBlock, ForkBlock, LoopBlock;
    var c1 := RampBlock(c, i);
    var c2 := StartBlock(c1).0;
    var c3 := TagBlock(c2, i).0;
    var c4 := GarageBlock(c3, i).0;
    RampLeaves(c, i);
    StartLeaves(c1);
    TagLeaves(c2, i);
    GarageLeaves(c3, i);
    ForkLeaves(c4, i);
    LoopEnters(ForkBlock(c4, i), i);
  }

  // One frame moves each roundabout along its phases and no further.
  lemma LoopFind(c: Car, i: Input, left: bool)
    requires Inv(c) && WellFormed(i) && !i.reset
    ensures var d := FindElements(c, i); LoopMoves(Phase(c, left), c.odo.loopDist, 0.0, Phase(d, left), d.odo.loopDist)
  {
    if c.phases.lLoop == c.phases.rLoop == 0 {
      LoopsEnter(c, i);
    } else if i.eleEnable {
      OnlyLoopRuns(c, i);
      if c.phases.lLoop != 0 {
        LeftPatchMoves(c, i);
        LeftKeepsRight(c, i);
      } else {
        RightPatchMoves(c, i);
        RightKeepsLeft(c, i);
      }
      hide LeftLoopPatch, RightLoopPatch, Blocks;
    }
    hide Blocks;
  }

  lemma LoopFrame(c: Car, i: Input, left: bool)
    requires Inv(c) && WellFormed(i) && !i.reset
    ensures var d := Frame(c, i); LoopMoves(Phase(c, left), c.odo.loopDist, i.travel, Phase(d, left), d.odo.loopDist)
  {
    assert Inv(World(c, i));
    hide FindElements, LoopSucc;
    LoopFind(World(c, i), i, left);
  }

  lemma LeftKeepsRight(c: Car, i: Input)
    requires WellFormed(i)
    ensures LeftLoopPatch(c, i).phases.rLoop == c.phases.rLoop
  {
    hide IsNonlose;
  }

  lemma RightKeepsLeft(c: Car, i: Input)
    requires WellFormed(i)
    ensures RightLoopPatch(c, i).phases.lLoop == c.phases.lLoop
  {
    hide IsLose, IsNonlose;
  }

  ghost function Travelled(ins: seq<Input>): real {
    if ins == [] then 0.0 else Travelled(ins[..|ins| - 1]) + ins[|ins| - 1].travel
  }

  lemma RunLast(c: Car, ins: seq<Input>)
    requires Inv(c) && Inputs(ins) && ins != []
    ensures Inputs(ins[..|ins| - 1]) && WellFormed(ins[|ins| - 1])
    ensures Inv(Run(c, ins[..|ins| - 1]))
    ensures Run(c, ins) == Frame(Run(c, ins[..|ins| - 1]), ins[|ins| - 1])
  {
    MutualExclusion(c, ins[..|ins| - 1]);
  }

  // A frame that begins with a reset leaves both roundabouts idle or just entered.
  lemma ResetLoops(c: Car, i: Input)
    requires WellFormed(i) && i.reset
    ensures 0 <= Frame(c, i).phases.lLoop <= 1 && 0 <= Frame(c, i).phases.rLoop <= 1
  {
    LoopsEnter(Reset(World(c, i), i), i);
    hide Blocks;
  }

  // Phase of a roundabout after the first k frames.
  ghost function PhaseAfter(c: Car, ins: seq<Input>, k: nat, left: bool): int
    requires Inputs(ins) && k <= |ins|
  {
    Phase(Run(c, ins[..k]), left)
  }

  lemma PhasePrefix(c: Car, ins: seq<Input>, n: nat, left: bool)
    requires Inputs(ins) && n <= |ins|
    ensures Inputs(ins[..n])
    ensures forall k :: 0 <= k <= n ==> PhaseAfter(c, ins[..n], k, left) == PhaseAfter(c, ins, k, left)
  {
    forall k | 0 <= k <= n ensures PhaseAfter(c, ins[..n], k, left) == PhaseAfter(c, ins, k, left) {
      assert ins[..n][..k] == ins[..k];
    }
  }

  lemma TravelledLast(ins: seq<Input>, e: nat)
    requires e < |ins|
    ensures Travelled(ins[e..]) == Travelled(ins[..|ins| - 1][e..]) + ins[|ins| - 1].travel
  {
    assert ins[e..][..|ins| - e - 1] == ins[..|ins| - 1][e..];
  }

  // While phase 7 lasts, the loop odometer reads the distance since the frame that entered it.
  lemma {:induction false} SincePhase7(c: Car, ins: seq<Input>, left: bool) returns (e: nat)
    requires Inv(c) && Inputs(ins) && PhaseAfter(c, ins, 0, left) != 7 && PhaseAfter(c, ins, |ins|, left) == 7
    ensures e < |ins| && PhaseAfter(c, ins, e, left) != 7
    ensures forall k :: e < k <= |ins| ==> PhaseAfter(c, ins, k, left) == 7
    ensures Run(c, ins).odo.loopDist == Travelled(ins[e + 1..])
  {
    hide *;
    var n: int := |ins| - 1;
    LastFrame7(c, ins, left);
    PhasePrefix(c, ins, n, left);
    if PhaseAfter(c, ins, n, left) == 7 {
      e := SincePhase7(c, ins[..n], left);
      TravelledLast(ins, e + 1);
    } else {
      e := n;
      NoTravel(ins[e + 1..]);
    }
  }

  lemma NoTravel(ins: seq<Input>)
    requires |ins| == 0
    ensures Travelled(ins) == 0.0
  {
  }

  // What the last frame does to the loop odometer of a roundabout that it leaves in phase 7.
  lemma LastFrame7(c: Car, ins: seq<Input>, left: bool)
    requires Inv(c) && Inputs(ins) && ins != [] && PhaseAfter(c, ins, |ins|, left) == 7
    ensures var n := |ins| - 1;
            && Inputs(ins[..n])
            && Run(c, ins).odo.loopDist
               == if PhaseAfter(c, ins, n, left) == 7 then Run(c, ins[..n]).odo.loopDist + ins[n].travel else 0.0
  {
    hide Frame, Inv, Run, Inputs;
    var n := |ins| - 1;
    RunLast(c, ins);
    assert ins[..|ins|] == ins;
    if ins[n].reset { ResetLoops(Run(c, ins[..n]), ins[n]); }
    LoopFrame(Run(c, ins[..n]), ins[n], left);
  }

  // A roundabout is left, without a reset, only in a frame that began in phase 7, more than 70 units
  // after the frame that entered that phase.
  lemma LoopExit(c: Car, ins: seq<Input>, left: bool) returns (e: nat)
    requires Inv(c) && Inputs(ins) && PhaseAfter(c, ins, 0, left) != 7 && ins != [] && !ins[|ins| - 1].reset
    requires PhaseAfter(c, ins, |ins| - 1, left) != 0 && PhaseAfter(c, ins, |ins|, left) == 0
    ensures e < |ins| - 1 && PhaseAfter(c, ins, e, left) != 7
    ensures forall k :: e < k < |ins| ==> PhaseAfter(c, ins, k, left) == 7
    ensures Travelled(ins[e + 1..]) > 70.0
  {
    hide Frame, Inv, Run, Inputs, Travelled;
    var n := |ins| - 1;
    assert ins[..|ins|] == ins && ins[..n][..n] == ins[..n];
    RunLast(c, ins);
    PhasePrefix(c, ins, n, left);
    LoopFrame(Run(c, ins[..n]), ins[n], left);
    e := SincePhase7(c, ins[..n], left);
    TravelledLast(ins, e + 1);
  }

  // The last frame of a run leaves a roundabout, without a reset.
  ghost predicate LeavesLoop(c: Car, ins: seq<Input>, left: bool)
    requires Inputs(ins)
  {
    && ins != [] && !ins[|ins| - 1].reset
    && PhaseAfter(c, ins, |ins| - 1, left) != 0 && PhaseAfter(c, ins, |ins|, left) == 0
  }

  // Before its last frame the run was in phase 7 since frame e, and drove more than 70 units since.
  ghost predicate LongSince(c: Car, ins: seq<Input>, left: bool, e: nat)
    requires Inputs(ins)
  {
    && e + 1 < |ins| && PhaseAfter(c, ins, e, left) != 7
    && (forall k :: e < k < |ins| ==> PhaseAfter(c, ins, k, left) == 7)
    && Travelled(ins[e + 1..]) > 70.0
  }

  // Whenever during a run a roundabout is left, phase 7 had lasted for more than 70 units.
  lemma ExitsAreLate(c: Car, ins: seq<Input>, left: bool)
    requires Inv(c) && Inputs(ins) && Phase(c, left) != 7
    ensures forall n :: 0 <= n <= |ins| && Inputs(ins[..n]) && LeavesLoop(c, ins[..n], left) ==>
              exists e :: LongSince(c, ins[..n], left, e)
  {
    hide *;
    forall n | 0 <= n <= |ins| && Inputs(ins[..n]) && LeavesLoop(c, ins[..n], left)
      ensures exists e :: LongSince(c, ins[..n], left, e)
    {
      ExitIsLate(c, ins[..n], left);
    }
  }

  lemma ExitIsLate(c: Car, ins: seq<Input>, left: bool)
    requires Inv(c) && Inputs(ins) && Phase(c, left) != 7 && LeavesLoop(c, ins, left)
    ensures exists e :: LongSince(c, ins, left, e)
  {
    hide Inv, Inputs, Travelled, Phase;
    PhaseAtFirst(c, ins, left);
    var e := LoopExit(c, ins, left);
    assert LongSince(c, ins, left, e);
  }

  lemma PhaseAtFirst(c: Car, ins: seq<Input>, left: bool)
    requires Inputs(ins)
    ensures PhaseAfter(c, ins, 0, left) == Phase(c, left)
  {
    assert ins[..0] == [];
    hide Frame;
  }

  // ---------------------------------------------------------------------------------------
  // Ramp
  // ---------------------------------------------------------------------------------------

  // A frame that looks for the ramp and drives at least d.
  predicate RampDriven(i: Input, d: real) {
    !i.reset && i.eleEnable && i.rampDet && i.travel >= d
  }

  // Phases one frame can lead to: 1, 2, 3, 4, 0 in this order, at most one of them skipped.
  predicate RampSucc(p: int, q: int) {
    if p == 0 then 0 <= q <= 1
    else if p <= 2 then p <= q <= p + 2
    else q == p || q == 4 || q == 0
  }

  // An active ramp stays in its phase with at most 50 units driven, or moves on.
  predicate RampMoves(p: int, before: real, travel: real, q: int, after: real) {
    RampSucc(p, q)
    && (|| (q == p && after == before + travel <= 50.0)
        || (p < q <= 4 && after == 0.0)
        || q == 0)
  }

  lemma RampFrame(c: Car, i: Input, d: real)
    requires Inv(c) && WellFormed(i) && RampDriven(i, d) && c.phases.ramp != 0
    ensures RampMoves(c.phases.ramp, c.odo.rampDist, i.travel, Frame(c, i).phases.ramp, Frame(c, i).odo.rampDist)
  {
    var c0 := World(c, i);
    var c1 := RampBlock(c0, i);
    assert RampMoves(c.phases.ramp, c.odo.rampDist, i.travel, c1.phases.ramp, c1.odo.rampDist);
    hide RampBlock, StartBlock, TagBlock, GarageBlock, ForkBlock, LoopBlock, RampMoves;
    RampRest(c1, i);
  }

  // As long as the ramp is active after each of the first k frames, phase p was entered by frame
  // (p - 1) * n, and every later frame has driven d more.
  lemma {:induction false} RampProgress(c: Car, ins: seq<Input>, d: real, n: nat)
    requires Inv(c) && Inputs(ins) && c.phases.ramp == 1 && 0.0 <= c.odo.rampDist <= 50.0
    requires d > 0.0 && Product(n, d) > 50.0
    requires forall k :: 0 <= k < |ins| ==> RampDriven(ins[k], d)
    requires forall k :: 0 <= k <= |ins| ==> Run(c, ins[..k]).phases.ramp != 0
    ensures 1 <= Run(c, ins).phases.ramp <= 4 && 0.0 <= Run(c, ins).odo.rampDist <= 50.0
    ensures Run(c, ins).odo.rampDist >= Product(FramesSince(|ins|, Run(c, ins).phases.ramp, n), d)
  {
    hide *;
    if ins == [] {
      RunNone(c);
      JustEntered(n, d);
    } else {
      var m: nat := |ins| - 1;
      RunLast(c, ins);
      PrefixInputs(ins[..m]);
      forall k | 0 <= k <= m ensures Run(c, ins[..m][..k]).phases.ramp != 0 { assert ins[..m][..k] == ins[..k]; }
      assert ins[..|ins|] == ins;
      var c0, c1 := Run(c, ins[..m]), Run(c, ins);
      RampProgress(c, ins[..m], d, n);
      DrivenAt(ins[m], d);
      RampFrame(c0, ins[m], d);
      RampLate(m, c0.phases.ramp, c0.odo.rampDist, c1.phases.ramp, c1.odo.rampDist, n, d, ins[m].travel);
    }
  }

  lemma PrefixInputs(ins: seq<Input>)
    requires Inputs(ins)
    ensures forall k :: 0 <= k <= |ins| ==> Inputs(ins[..k])
  {
  }

  lemma JustEntered(n: int, d: real)
    ensures Product(FramesSince(0, 1, n), d) == 0.0
  {
  }

  lemma DrivenAt(i: Input, d: real)
    requires RampDriven(i, d)
    ensures i.travel >= d
  {
  }

  function Product(n: int, d: real): real {
    n as real * d
  }

  // Frames since phase p was entered, if every earlier phase took n.
  function FramesSince(frames: int, p: int, n: int): int {
    frames - (if p == 1 then 0 else if p == 2 then n else if p == 3 then 2 * n else 3 * n)
  }

  lemma ProductMonotone(m: int, n: int, d: real)
    requires d > 0.0
    ensures m <= n <==> Product(m, d) <= Product(n, d)
    ensures Product(m + 1, d) == Product(m, d) + d && Product(0, d) == 0.0
  {
  }

  lemma RampLate(m: nat, p: int, dist: real, q: int, after: real, n: nat, d: real, travel: real)
    requires d > 0.0 && Product(n, d) > 50.0 && travel >= d && 1 <= p <= 4 && q != 0
    requires 0.0 <= dist <= 50.0 && dist >= Product(FramesSince(m, p, n), d)
    requires RampMoves(p, dist, travel, q, after)
    ensures 1 <= q <= 4 && 0.0 <= after <= 50.0 && after >= Product(FramesSince(m + 1, q, n), d)
  {
    hide Product;
    ProductMonotone(FramesSince(m, p, n), n, d);
    ProductMonotone(n, FramesSince(m, p, n), d);
    ProductMonotone(FramesSince(m + 1, q, n), 0, d);
  }

  // A frame that begins with no ramp, or resets it, at most enters one, with its odometer at zero.
  lemma RampEnters(c: Car, i: Input)
    requires WellFormed(i) && Inv(c) && (c.phases.ramp == 0 || i.reset) && Frame(c, i).phases.ramp != 0
    ensures Frame(c, i).phases.ramp == 1 && Frame(c, i).odo.rampDist == 0.0
  {
    var c0 := Reset(World(c, i), i);
    var c1 := RampBlock(c0, i);
    assert c1.phases.ramp == 0 || (c1.phases.ramp == 1 && c1.odo.rampDist == 0.0);
    hide Reset, World, RampBlock, StartBlock, TagBlock, GarageBlock, ForkBlock, LoopBlock;
    RampRest(c1, i);
  }

  // The blocks after the ramp's leave it alone.
  lemma RampRest(c1: Car, i: Input)
    requires WellFormed(i)
    ensures SameRamp(c1, StartBlock(c1).0) && SameRamp(c1, TagBlock(StartBlock(c1).0, i).0)
    ensures var c3 := GarageBlock(TagBlock(StartBlock(c1).0, i).0, i).0;
            SameRamp(c1, c3) && SameRamp(c1, LoopBlock(ForkBlock(c3, i), i))
  {
    hide StartBlock, TagBlock, GarageBlock, ForkBlock, LoopBlock;
    StartLeaves(c1);
    var c2 := StartBlock(c1).0;
    TagLeaves(c2, i);
    var c3 := TagBlock(c2, i).0;
    GarageLeaves(c3, i);
    var c4 := GarageBlock(c3, i).0;
    ForkLeaves(c4, i);
    LoopLeaves(ForkBlock(c4, i), i);
  }

  // From any frame that enters a ramp: driven at least d per frame, the ramp is left within
  // 4 * (floor(50 / d) + 1) frames.
  lemma RampEnds(c: Car, i: Input, ins: seq<Input>, d: real)
    requires Inv(c) && WellFormed(i) && (c.phases.ramp == 0 || i.reset) && Frame(c, i).phases.ramp != 0
    requires Inputs(ins) && d > 0.0
    requires forall k :: 0 <= k < |ins| ==> RampDriven(ins[k], d)
    requires |ins| == 4 * ((50.0 / d).Floor + 1)
    ensures exists k :: 0 <= k <= |ins| && Run(Frame(c, i), ins[..k]).phases.ramp == 0
  {
    hide Inv, Run, Frame;
    RampEnters(c, i);
    FrameKeeps(c, i);
    EnteredRampEnds(Frame(c, i), ins, d);
  }

  lemma EnteredRampEnds(c: Car, ins: seq<Input>, d: real)
    requires Inv(c) && Inputs(ins) && c.phases.ramp == 1 && c.odo.rampDist == 0.0 && d > 0.0
    requires forall k :: 0 <= k < |ins| ==> RampDriven(ins[k], d)
    requires |ins| == 4 * ((50.0 / d).Floor + 1)
    ensures exists k :: 0 <= k <= |ins| && Run(c, ins[..k]).phases.ramp == 0
  {
    hide Product, Inv, Run;
    var n := (50.0 / d).Floor + 1;
    FloorProduct(n, d);
    if forall k :: 0 <= k <= |ins| ==> Run(c, ins[..k]).phases.ramp != 0 {
      RampProgress(c, ins, d, n);
      ProductMonotone(n, FramesSince(|ins|, Run(c, ins).phases.ramp, n), d);
      assert false;
    }
  }

  lemma FloorProduct(n: int, d: real)
    requires d > 0.0 && n == (50.0 / d).Floor + 1
    ensures n >= 0 && Product(n, d) > 50.0
  {
    var q := 50.0 / d;
    assert q > 0.0 && q * d == 50.0;
    assert n as real > q;
    assert (n as real - q) * d > 0.0;
  }

  // ---------------------------------------------------------------------------------------
  // Forks
  // ---------------------------------------------------------------------------------------

  // A frame in which nothing is seen.
  function Quiet(): (i: Input)
    ensures WellFormed(i)
  {
    Input(false, true, false, false, false, false, 0.0, 0.0, 0.0, 0.0,
          false, false, false, false, false, false, false,
          0, 0.0, 119, 119, seq(120, _ => 0), seq(120, _ => 0))
  }

  function ForkSeen(): Input {
    Quiet().(forkSeen := true)
  }

  function ForkNear(): Input {
    Quiet().(travel := 11.0, leftStartRow := 70, rightStartRow := 70)
  }

  function ForkPast(): Input {
    Quiet().(travel := 71.0)
  }

  // n forks seen, entered and left.
  function Forks(n: nat): seq<Input> {
    if n == 0 then [] else Forks(n - 1) + [ForkSeen()] + [ForkNear()] + [ForkPast()]
  }

  predicate BetweenForks(c: Car, n: int) {
    Inv(c) && Active(c) == 0 && !c.course.enStart && c.course.forkNum == n
  }

  // With nothing but forks around, a frame is the fork block's.
  predicate OnlyForkSeen(i: Input) {
    && !i.reset && i.eleEnable && !i.rampDet && !i.friutRegco && !i.pressStart && !i.tagDone
    && !i.garageSeen && !i.lLoopSeen && !i.rLoopSeen
  }

  lemma OnlyForkRuns(c: Car, i: Input)
    requires Inv(c) && WellFormed(i) && OnlyForkSeen(i) && !c.course.enStart && Active(c) == On(c.phases.fork)
    ensures Frame(c, i) == ForkBlock(World(c, i), i)
    ensures var d := Frame(c, i); Inv(d) && !d.course.enStart && Active(d) == On(d.phases.fork)
  {
    FrameKeeps(c, i);
    ForkLeaves(World(c, i), i);
    hide IsLose, IsNonlose, ForkSteps;
  }

  lemma OneFork(c: Car)
    requires Inv(c) && BetweenForks(c, c.course.forkNum) && c.course.forkNum < 8
    ensures BetweenForks(Frame(Frame(Frame(c, ForkSeen()), ForkNear()), ForkPast()), c.course.forkNum + 1)
  {
    hide Frame, LoopBlock, GarageBlock, RampBlock;
    OnlyForkRuns(c, ForkSeen());
    var c1 := Frame(c, ForkSeen());
    assert c1.phases.fork == 1 && c1.odo.forkDist == 0.0 && c1.course.forkNum == c.course.forkNum + 1;
    OnlyForkRuns(c1, ForkNear());
    var c2 := Frame(c1, ForkNear());
    assert c2.phases.fork == 2 && c2.odo.forkDist == 0.0 && c2.course.forkNum == c1.course.forkNum;
    OnlyForkRuns(c2, ForkPast());
  }

  lemma {:induction false} ForksPassed(n: nat)
    requires n <= 8
    ensures Inputs(Forks(n)) && BetweenForks(Run(INITIAL, Forks(n)), n)
  {
    hide *;
    ForksAre(n);
    if n == 0 {
      RunNone(INITIAL);
      InitialIs();
      IdleBetween(INITIAL);
    } else {
      ForksPassed(n - 1);
      var ins := Forks(n - 1);
      BetweenIs(Run(INITIAL, ins), n - 1);
      OneFork(Run(INITIAL, ins));
      AreWellFormed();
      RunSnoc(INITIAL, ins, ForkSeen());
      RunSnoc(INITIAL, ins + [ForkSeen()], ForkNear());
      RunSnoc(INITIAL, ins + [ForkSeen()] + [ForkNear()], ForkPast());
    }
  }

  lemma ForksAre(n: nat)
    ensures n == 0 ==> Forks(n) == []
    ensures n > 0 ==> Forks(n) == Forks(n - 1) + [ForkSeen()] + [ForkNear()] + [ForkPast()]
  {
    hide ForkSeen, ForkNear, ForkPast;
  }

  lemma RunNone(c: Car)
    ensures Inputs([]) && Run(c, []) == c
  {
  }

  lemma InitialIs()
    ensures INITIAL.en == ALL && INITIAL.phases == Phases(0, 0, 0, 0, 0, 0, 0)
    ensures INITIAL.course == Course(false, 0, 0, 0, 0, 0.0)
  {
    hide ALL, NONE;
  }

  lemma IdleBetween(c: Car)
    requires c.en == ALL && c.phases == Phases(0, 0, 0, 0, 0, 0, 0) && c.course == Course(false, 0, 0, 0, 0, 0.0)
    ensures BetweenForks(c, 0)
  {
  }

  lemma BetweenIs(c: Car, n: int)
    requires BetweenForks(c, n)
    ensures Inv(c) && c.course.forkNum == n
  {
  }

  lemma AreWellFormed()
    ensures WellFormed(ForkSeen()) && WellFormed(ForkNear()) && WellFormed(ForkPast())
  {
  }

  lemma RunSnoc(c: Car, ins: seq<Input>, i: Input)
    requires Inputs(ins) && WellFormed(i)
    ensures Inputs(ins + [i]) && Run(c, ins + [i]) == Frame(Run(c, ins), i)
  {
    hide Frame;
    assert (ins + [i])[..|ins|] == ins;
  }

  // After eight forks a ninth can be entered, and is then never left.
  lemma NinthForkReached()
    ensures var ins := Forks(8) + [ForkSeen()];
            Inputs(ins) && Run(INITIAL, ins).phases.fork != 0 && Run(INITIAL, ins).course.forkNum == 9
  {
    ForksPassed(8);
    RunSnoc(INITIAL, Forks(8), ForkSeen());
    hide Run, Forks;
  }

  // Branches are laid out for eight forks; from the ninth on the fork state never ends.
  lemma {:induction false} NinthForkNeverEnds(c: Car, ins: seq<Input>)
    requires Inv(c) && Inputs(ins) && c.phases.fork != 0 && c.course.forkNum > 8
    requires forall k :: 0 <= k < |ins| ==> !ins[k].reset
    ensures Run(c, ins).phases.fork == c.phases.fork && Run(c, ins).course.forkNum == c.course.forkNum
  {
    if ins != [] {
      var n := |ins| - 1;
      NinthForkNeverEnds(c, ins[..n]);
      MutualExclusion(c, ins[..n]);
      ForkFrame(Run(c, ins[..n]), ins[n]);
    }
  }

  // When a frame ends a fork: its number has a branch, the branch was entered before this frame,
  // the fork is out of sight, and more than 70 units were driven in it.
  lemma ForkFrame(c: Car, i: Input)
    requires Inv(c) && WellFormed(i) && !i.reset && c.phases.fork != 0
    ensures Frame(c, i).phases.fork == 0 <==>
            && i.eleEnable && c.course.forkNum <= 8 && c.phases.fork == 2 && !i.forkStill
            && c.odo.forkDist + i.travel > 70.0
    ensures Frame(c, i).course.forkNum == c.course.forkNum
    ensures c.course.forkNum > 8 ==> Frame(c, i).phases.fork == c.phases.fork
  {
    var c0 := World(c, i);
    assert Blocks(c0, i) == if i.eleEnable then LoopBlock(ForkBlock(c0, i), i) else c0;
    var c1 := ForkBlock(c0, i);
    assert LoopBlock(c1, i).phases.fork == c1.phases.fork && LoopBlock(c1, i).course.forkNum == c1.course.forkNum by {
      hide IsLose, IsNonlose, ForkBlock;
    }
    hide LoopBlock;
  }
}
