/**
 * When each element of the arbiter moves on: for every active phase the phase that a frame without a
 * reset ends in, and, with no element active, which one it enters.
 */
module Transitions {
  import opened Arbiter
  import opened LineFlags

  const EVERYTHING := Enables(true, true, true, true, true, true)

  // Whether the left edge is lost, or found, in that share of the rows lo..hi; and both are found.
  ghost predicate LeftLost(i: Input, lo: nat, hi: nat, percent: nat)
    requires WellFormed(i) && hi <= 120
  {
    100 * |set k | lo <= k < hi && i.leftFlags[k] == 0| >= percent * (hi - lo)
  }

  ghost predicate LeftFound(i: Input, lo: nat, hi: nat, percent: nat)
    requires WellFormed(i) && hi <= 120
  {
    100 * |set k | lo <= k < hi && i.leftFlags[k] == 1| >= percent * (hi - lo)
  }

  ghost predicate BothFound(i: Input, lo: nat, hi: nat, percent: nat)
    requires WellFormed(i) && hi <= 120
  {
    100 * |set k | lo <= k < hi && i.leftFlags[k] == 1 && i.rightFlags[k] == 1| >= percent * (hi - lo)
  }

  predicate Turned(angle: real, limit: real) {
    angle >= limit || angle <= -limit
  }

  lemma FoundIff(i: Input)
    requires WellFormed(i)
    ensures BothFound(i, 75, 110, 95) <==> IsNonlose(i.leftFlags, i.rightFlags, 75, 110, 2, 95)
    ensures BothFound(i, 75, 110, 80) <==> IsNonlose(i.leftFlags, i.rightFlags, 75, 110, 2, 80)
    ensures LeftFound(i, 80, 110, 80) <==> IsNonlose(i.leftFlags, i.rightFlags, 80, 110, 0, 80)
    ensures LeftLost(i, 90, 118, 90) <==> IsLose(i.leftFlags, i.rightFlags, 90, 118, 0, 90)
  {
    hide IsLose, IsNonlose;
    BothFoundIff(i, 75, 110, 95);
    BothFoundIff(i, 75, 110, 80);
    LeftFoundIff(i, 80, 110, 80);
    LeftLostIff(i, 90, 118, 90);
  }

  lemma BothFoundIff(i: Input, lo: nat, hi: nat, percent: nat)
    requires WellFormed(i) && lo < hi <= 120
    ensures BothFound(i, lo, hi, percent) <==> IsNonlose(i.leftFlags, i.rightFlags, lo, hi, 2, percent)
  {
    hide IsNonlose;
    NonloseIff(i.leftFlags, i.rightFlags, lo, hi, 2, percent);
    assert (set k | lo <= k < hi && i.leftFlags[k] == 1 && i.rightFlags[k] == 1)
        == set k | lo <= k < hi && (2 != 1 ==> i.leftFlags[k] == 1) && (2 != 0 ==> i.rightFlags[k] == 1);
  }

  lemma LeftFoundIff(i: Input, lo: nat, hi: nat, percent: nat)
    requires WellFormed(i) && lo < hi <= 120
    ensures LeftFound(i, lo, hi, percent) <==> IsNonlose(i.leftFlags, i.rightFlags, lo, hi, 0, percent)
  {
    hide IsNonlose;
    NonloseIff(i.leftFlags, i.rightFlags, lo, hi, 0, percent);
    assert (set k | lo <= k < hi && i.leftFlags[k] == 1)
        == set k | lo <= k < hi && (0 != 1 ==> i.leftFlags[k] == 1) && (0 != 0 ==> i.rightFlags[k] == 1);
  }

  lemma LeftLostIff(i: Input, lo: nat, hi: nat, percent: nat)
    requires WellFormed(i) && lo < hi <= 120
    ensures LeftLost(i, lo, hi, percent) <==> IsLose(i.leftFlags, i.rightFlags, lo, hi, 0, percent)
  {
    hide IsLose;
    LoseIff(i.leftFlags, i.rightFlags, lo, hi, 0, percent);
    assert (set k | lo <= k < hi && i.leftFlags[k] == 0)
        == set k | lo <= k < hi && (0 != 1 ==> i.leftFlags[k] == 0) && (0 != 0 ==> i.rightFlags[k] == 0);
  }

  // ---------------------------------------------------------------------------------------
  // Roundabouts
  // ---------------------------------------------------------------------------------------

  // The phase that a frame leaves a left roundabout of phase p in, after dist on its odometer.
  ghost function LeftAfter(p: int, dist: real, gyroZ: real, i: Input): int
    requires WellFormed(i)
  {
    var turned := if Turned(gyroZ, 335.0) then 7 else if Turned(gyroZ, 255.0) then 6 else 5;
    match p
    case 1 => if i.leftStartRow < 73 && dist >= 25.0 then 3 else 1
    case 3 => if !(i.leftStartRow > 105 && dist >= 10.0) then 3 else if i.rightStartRow < 75 then 4 else 2
    case 2 => if i.rightStartRow < 75 then 4 else 2
    case 4 => if i.rightStartRow > 110 then turned else 4
    case 5 => turned
    case 6 => if Turned(gyroZ, 335.0) then 7 else 6
    case 7 => if (BothFound(i, 75, 110, 95) && dist > 70.0) || dist > 200.0 then 0 else 7
    case _ => p
  }

  ghost function RightAfter(p: int, dist: real, gyroZ: real, i: Input): int
    requires WellFormed(i)
  {
    var turned := if Turned(gyroZ, 335.0) then 7 else if Turned(gyroZ, 270.0) then 6 else 5;
    match p
    case 1 => if i.rightStartRow < 77 && dist >= 10.0 then 3 else 1
    case 3 => if !(i.rightStartRow > 100 && dist >= 10.0) then 3 else if LeftLost(i, 90, 118, 90) then 4 else 2
    case 2 => if LeftLost(i, 90, 118, 90) then 4 else 2
    case 4 => if LeftFound(i, 80, 110, 80) then turned else 4
    case 5 => turned
    case 6 => if Turned(gyroZ, 335.0) then 7 else 6
    case 7 => if (BothFound(i, 75, 110, 80) && dist > 70.0) || dist > 200.0 then 0 else 7
    case _ => p
  }

  // What phase, odometer and enables of a roundabout are after a frame from phase p to phase q: the
  // odometer starts anew on entering phases 3 and 7 and on leaving phase 3.
  predicate LoopEnds(p: int, dist: real, en: Enables, q: int, dist': real, en': Enables) {
    && dist' == (if (p == 1 && q == 3) || (p == 3 && q != 3) || (p != 7 && q == 7) then 0.0 else dist)
    && en' == (if q == 0 then EVERYTHING else en)
  }

  lemma LeftStepsTurn(l: Loop, gyroZ: real, i: Input)
    requires WellFormed(i) && 1 <= l.phase <= 7
    ensures var m := LeftSteps(l, gyroZ, i);
            m.phase == LeftAfter(l.phase, l.dist, gyroZ, i) && LoopEnds(l.phase, l.dist, l.en, m.phase, m.dist, m.en)
  {
    hide IsNonlose, IsLose, BothFound, LeftFound, LeftLost;
    FoundIff(i);
  }

  lemma RightStepsTurn(l: Loop, gyroZ: real, i: Input)
    requires WellFormed(i) && 1 <= l.phase <= 7
    ensures var m := RightSteps(l, gyroZ, i);
            m.phase == RightAfter(l.phase, l.dist, gyroZ, i) && LoopEnds(l.phase, l.dist, l.en, m.phase, m.dist, m.en)
  {
    hide IsNonlose, IsLose, BothFound, LeftFound, LeftLost;
    FoundIff(i);
    if IsLose(i.leftFlags, i.rightFlags, 90, 118, 0, 90) {
      LoseExcludesNonlose(i.leftFlags, i.rightFlags);
    }
  }

  // A left roundabout moves on exactly when its tests say so, several phases at once included.
  lemma LeftLoopTurns(c: Car, i: Input)
    requires Inv(c) && WellFormed(i) && i.eleEnable && !i.reset && c.phases.lLoop != 0
    ensures var d, dist := Frame(c, i), c.odo.loopDist + i.travel;
            && d.phases.lLoop == LeftAfter(c.phases.lLoop, dist, i.gyroZ, i) && d.phases.rLoop == 0
            && LoopEnds(c.phases.lLoop, dist, c.en, d.phases.lLoop, d.odo.loopDist, d.en)
  {
    var c0 := World(c, i);
    assert Inv(c0) && Reset(c0, i) == c0;
    assert 1 <= c.phases.lLoop <= 7 && c.phases.rLoop == 0;
    OnlyLoopRuns(c0, i);
    hide Inv, LeftSteps, LeftAfter, LoopEnds, Blocks;
    LeftStepsTurn(Loop(c0.phases.lLoop, c0.odo.loopDist, c0.gyro.gyroY, c0.en), c0.gyro.gyroZ, i);
  }

  // And so does a right one.
  lemma RightLoopTurns(c: Car, i: Input)
    requires Inv(c) && WellFormed(i) && i.eleEnable && !i.reset && c.phases.rLoop != 0
    ensures var d, dist := Frame(c, i), c.odo.loopDist + i.travel;
            && d.phases.rLoop == RightAfter(c.phases.rLoop, dist, i.gyroZ, i) && d.phases.lLoop == 0
            && LoopEnds(c.phases.rLoop, dist, c.en, d.phases.rLoop, d.odo.loopDist, d.en)
  {
    var c0 := World(c, i);
    assert Inv(c0) && Reset(c0, i) == c0;
    assert 1 <= c.phases.rLoop <= 7 && c.phases.lLoop == 0;
    OnlyLoopRuns(c0, i);
    hide Inv, RightSteps, RightAfter, LoopEnds, Blocks;
    RightStepsTurn(Loop(c0.phases.rLoop, c0.odo.loopDist, c0.gyro.gyroY, c0.en), c0.gyro.gyroZ, i);
  }

  // ---------------------------------------------------------------------------------------
  // Ramp, start, tag, garage and fork
  // ---------------------------------------------------------------------------------------

  // The ramp is climbed by pitch or by distance; a phase left by distance may be followed at once by
  // one that the pitch has already ended.
  lemma RampTurns(c: Car, i: Input)
    requires Inv(c) && WellFormed(i) && i.eleEnable && !i.reset && i.rampDet && c.phases.ramp != 0
    ensures var p, q, far := c.phases.ramp, Frame(c, i).phases.ramp, c.odo.rampDist + i.travel > 50.0;
            var level := -4.0 <= i.gyroY <= 4.0;
            && (p == 1 ==> q == if !(far || i.gyroY > 8.0 || i.gyroY < -8.0) then 1 else if level then 3 else 2)
            && (p == 2 ==> q == if !(far || level) then 2 else if i.gyroY <= -8.0 then 4 else 3)
            && (p == 3 ==> q == if !(far || i.gyroY <= -8.0) then 3 else if level then 0 else 4)
            && (p == 4 ==> q == if far || level then 0 else 4)
            && Frame(c, i).odo.rampDist == if q == p then c.odo.rampDist + i.travel else 0.0
  {
    var c0 := World(c, i);
    var c1 := RampBlock(c0, i);
    assert Reset(c0, i) == c0 && c0.en.ramp;
    assert c1.phases.ramp == RampSteps(Ramp(c.phases.ramp, c.odo.rampDist + i.travel, i.gyroY, c.en), i).phase;
    assert c1.odo.rampDist == RampSteps(Ramp(c.phases.ramp, c.odo.rampDist + i.travel, i.gyroY, c.en), i).dist;
    hide Inv, RampBlock, StartBlock, TagBlock, GarageBlock, ForkBlock, LoopBlock;
    RampRest(c1, i);
  }

  // Every block writes its own phase only.
  lemma StartWrites(c: Car)
    ensures var d := StartBlock(c).0;
            d.phases == c.phases.(start := d.phases.start) && d.course == c.course.(enStart := d.course.enStart)
  {
  }

  lemma TagWrites(c: Car, i: Input)
    ensures var d := TagBlock(c, i).0;
            d.phases == c.phases.(tag := d.phases.tag) && d.course == c.course && d.odo == c.odo
  {
  }

  lemma GarageWrites(c: Car, i: Input)
    ensures var d := GarageBlock(c, i).0;
            d.phases == c.phases.(garage := d.phases.garage) && d.course.enStart == c.course.enStart
            && d.odo == c.odo.(startDist := d.odo.startDist)
  {
  }

  lemma ForkWrites(c: Car, i: Input)
    ensures var d := ForkBlock(c, i);
            d.phases == c.phases.(fork := d.phases.fork) && d.course == c.course.(forkNum := d.course.forkNum)
            && d.odo == c.odo.(forkDist := d.odo.forkDist)
  {
    hide ForkSteps;
  }

  lemma LoopWrites(c: Car, i: Input)
    requires WellFormed(i)
    ensures var d := LoopBlock(c, i);
            d.phases == c.phases.(lLoop := d.phases.lLoop, rLoop := d.phases.rLoop) && d.course == c.course
            && d.odo == c.odo.(loopDist := d.odo.loopDist)
  {
    hide LeftSteps, RightSteps, EntrySteps;
  }

  // What the blocks after the ramp's make of the car, up to the one that ends the frame.
  ghost predicate Chained(c1: Car, i: Input, d: Car)
    requires WellFormed(i)
  {
    var (c2, e2) := StartBlock(c1);
    var (c3, e3) := TagBlock(c2, i);
    var (c4, e4) := GarageBlock(c3, i);
    var c5 := ForkBlock(c4, i);
    && d.phases.start == c2.phases.start && d.course.enStart == c2.course.enStart
    && (e2 ==> d == c2)
    && (!e2 ==> d.phases.tag == c3.phases.tag && c3.odo == c2.odo && c3.phases.garage == c1.phases.garage)
    && (!e2 && e3 ==> d == c3)
    && (!e2 && !e3 ==> d.phases.garage == c4.phases.garage && (e4 ==> d == c4))
    && (!e2 && !e3 && !e4 ==>
          && d == LoopBlock(c5, i) && d.phases.fork == c5.phases.fork && d.course == c5.course
          && d.odo.forkDist == c5.odo.forkDist && d.odo.startDist == c4.odo.startDist)
  }

  lemma Chain(c0: Car, i: Input)
    requires WellFormed(i) && i.eleEnable
    ensures Chained(RampBlock(c0, i), i, Blocks(c0, i))
  {
    hide RampBlock, StartBlock, TagBlock, GarageBlock, ForkBlock, LoopBlock;
    var c1 := RampBlock(c0, i);
    StartWrites(c1);
    var c2 := StartBlock(c1).0;
    TagWrites(c2, i);
    var c3 := TagBlock(c2, i).0;
    GarageWrites(c3, i);
    var c4 := GarageBlock(c3, i).0;
    ForkWrites(c4, i);
    LoopWrites(ForkBlock(c4, i), i);
  }

  // Only an armed start runs; the car drives 12 units out, turns by 50 degrees or for 60 units, and is off.
  lemma StartTurns(c: Car, i: Input)
    requires Inv(c) && WellFormed(i) && i.eleEnable && !i.reset && c.phases.start != 0
    ensures var p, d, dist := c.phases.start, Frame(c, i), c.odo.startDist + i.travel;
            var q, armed := d.phases.start, c.course.enStart || i.pressStart;
            && (p == 3 ==> q == if armed && dist > 12.0 then 4 else 3)
            && (p == 4 ==> q == if armed && (dist > 60.0 || i.startAngle > 50.0 || i.startAngle < -50.0) then 2 else 4)
            && (p == 2 ==> q == (if armed then 0 else 2) && !d.course.enStart)
            && (p != 2 ==> d.course.enStart == armed)
            && (p != 2 && armed ==> d.odo.startDist == if p == 3 && q == 4 then 0.0 else dist)
  {
    var c0 := World(c, i);
    assert Reset(c0, i) == c0 && c0.phases.start == c.phases.start && c0.en.start;
    assert RampBlock(c0, i) == c0;
    Chain(c0, i);
    hide Inv, RampBlock, TagBlock, GarageBlock, ForkBlock, LoopBlock, Blocks;
  }

  // A tag lasts until the recogniser is done with it, and as long as recognition is off.
  lemma TagTurns(c: Car, i: Input)
    requires Inv(c) && WellFormed(i) && i.eleEnable && !i.reset && c.phases.tag != 0
    ensures var p := if i.tagDone then 2 else c.phases.tag;
            Frame(c, i).phases.tag == if p == 2 && i.friutRegco then 0 else p
  {
    var c0 := World(c, i);
    assert Reset(c0, i) == c0 && c0.en == Enables(false, false, false, true, false, false);
    assert RampBlock(c0, i) == c0 && StartBlock(c0) == (c0, false);
    Chain(c0, i);
    hide Inv, RampBlock, StartBlock, GarageBlock, ForkBlock, LoopBlock, Blocks;
  }

  // The garage driven past is left after 230 units, or 20 after the sign; the other one is entered from
  // 5 units before the sign on, and the car stops there once it has turned by 70 degrees in 30 units.
  lemma GarageTurns(c: Car, i: Input)
    requires Inv(c) && WellFormed(i) && i.eleEnable && !i.reset && c.phases.garage != 0
    ensures var p, q, dist := c.phases.garage, Frame(c, i).phases.garage, c.odo.startDist + i.travel;
            && (p == 5 ==> q == if dist > 230.0 || dist >= c.course.garageDis + 20.0 then 0 else 5)
            && (p == 4 ==> q == if i.garageStartRow > 100 || dist >= c.course.garageDis - 5.0 then 1 else 4)
            && (p == 1 ==> q == if dist > 30.0 && (i.startAngle > 70.0 || i.startAngle < -70.0) then 2 else 1)
            && (p == 2 ==> q == 2)
            && Frame(c, i).odo.startDist == if q == p then dist else 0.0
  {
    var c0 := World(c, i);
    assert Reset(c0, i) == c0 && c0.en == Enables(true, false, false, false, false, false);
    assert RampBlock(c0, i) == c0 && StartBlock(c0) == (c0, false) && TagBlock(c0, i) == (c0, false);
    Chain(c0, i);
    hide Inv, RampBlock, StartBlock, TagBlock, ForkBlock, LoopBlock, Blocks;
  }

  // The fork's edge opposite to its branch, seen above row 75 after 10 units, starts the branch.
  lemma ForkTurns(c: Car, i: Input)
    requires Inv(c) && WellFormed(i) && i.eleEnable && !i.reset && c.phases.fork != 0
    ensures var n, p, d, dist := c.course.forkNum, c.phases.fork, Frame(c, i), c.odo.forkDist + i.travel;
            var dir := if n == 1 || n == 2 || n == 5 || n == 6 then c.course.fork1Dir else c.course.fork2Dir;
            var row := if dir == 1 then i.leftStartRow else i.rightStartRow;
            && (p == 1 ==> d.phases.fork == if n <= 8 && row < 75 && dist > 10.0 then 2 else 1)
            && (p == 2 ==> d.phases.fork == if n <= 8 && !i.forkStill && dist > 70.0 then 0 else 2)
            && d.odo.forkDist == if p == 1 && d.phases.fork == 2 then 0.0 else dist
  {
    var c0 := World(c, i);
    assert Reset(c0, i) == c0 && c0.en == Enables(false, true, false, false, false, false);
    assert RampBlock(c0, i) == c0 && StartBlock(c0) == (c0, false) && TagBlock(c0, i) == (c0, false);
    assert GarageBlock(c0, i) == (c0, false);
    Chain(c0, i);
    assert 1 <= c.course.forkNum && 0 <= c.course.fork1Dir <= 1 && 0 <= c.course.fork2Dir <= 1 && 1 <= c.phases.fork <= 2;
    hide Inv, RampBlock, StartBlock, TagBlock, GarageBlock, LoopBlock, Blocks;
  }

  // ---------------------------------------------------------------------------------------
  // No element active, elements switched off, and reset
  // ---------------------------------------------------------------------------------------

  // The first phase of the first element seen, in the firmware's order: ramp, start, tag, garage, fork,
  // left roundabout, right roundabout. A garage may pass through its first phase at once.
  ghost function Entered(c: Car, i: Input): Phases {
    var none := Phases(0, 0, 0, 0, 0, 0, 0);
    if i.rampDet && i.rampSeen then none.(ramp := 1)
    else if c.course.enStart || i.pressStart then none.(start := 3)
    else if i.friutRegco && i.tagSeen then none.(tag := 1)
    else if i.garageSeen then
      none.(garage := if c.course.turns == 0 then (if i.garageDis <= -20.0 then 0 else 5)
                      else if i.garageStartRow > 100 || i.garageDis <= 5.0 then 1 else 4)
    else if i.forkSeen then none.(fork := 1)
    else if i.lLoopSeen then none.(lLoop := 1)
    else if i.rLoopSeen then none.(rLoop := 1)
    else none
  }

  predicate NothingActive(c: Car) {
    c.phases == Phases(0, 0, 0, 0, 0, 0, 0) && c.en == EVERYTHING
  }

  lemma IdleTurns(c: Car, i: Input)
    requires Inv(c) && NothingActive(c) && WellFormed(i) && i.eleEnable && !i.reset
    ensures Frame(c, i).phases == Entered(c, i)
    ensures Frame(c, i).en == OwnEnables(Frame(c, i))
  {
    FrameKeeps(c, i);
    var c0 := World(c, i);
    assert Reset(c0, i) == c0 && NothingActive(c0);
    hide Inv, IsLose, IsNonlose, Frame;
    IdleFrame(c, i);
    if i.rampDet && i.rampSeen {
      IdleRamp(c0, i);
    } else if c0.course.enStart {
      assert RampBlock(c0, i) == c0;
    } else {
      assert RampBlock(c0, i) == c0 && StartBlock(c0) == (c0, false);
      IdleTag(c0, i);
    }
  }

  lemma IdleFrame(c: Car, i: Input)
    requires WellFormed(i) && !i.reset
    ensures Frame(c, i) == Blocks(World(c, i), i)
    ensures Inv(Frame(c, i)) ==> Frame(c, i).en == OwnEnables(Frame(c, i))
  {
    hide Blocks;
  }

  lemma IdleRamp(c0: Car, i: Input)
    requires NothingActive(c0) && WellFormed(i) && i.eleEnable && i.rampDet && i.rampSeen
    ensures Blocks(c0, i).phases == Phases(1, 0, 0, 0, 0, 0, 0)
  {
    var c1 := RampBlock(c0, i);
    assert c1.phases == Phases(1, 0, 0, 0, 0, 0, 0) && c1.en == Enables(false, false, false, false, true, false);
    hide RampBlock;
    assert StartBlock(c1) == (c1, false) && TagBlock(c1, i) == (c1, false) && GarageBlock(c1, i) == (c1, false);
  }

  lemma IdleTag(c0: Car, i: Input)
    requires NothingActive(c0) && WellFormed(i) && i.eleEnable && !(i.rampDet && i.rampSeen) && !c0.course.enStart
    ensures Blocks(c0, i).phases ==
            if i.friutRegco && i.tagSeen then Phases(0, 0, 1, 0, 0, 0, 0)
            else if i.garageSeen then Phases(0, 0, 0, GarageBlock(c0, i).0.phases.garage, 0, 0, 0)
            else if i.forkSeen then Phases(0, 0, 0, 0, 1, 0, 0)
            else LoopBlock(c0, i).phases
  {
    assert RampBlock(c0, i) == c0 && StartBlock(c0) == (c0, false);
    hide RampBlock, StartBlock, IsLose, IsNonlose;
    if !(i.friutRegco && i.tagSeen) {
      assert TagBlock(c0, i) == (c0, false);
    }
  }

  // With the elements switched off a frame only counts distance and hears from the recogniser.
  lemma OffTurns(c: Car, i: Input)
    requires WellFormed(i) && !i.eleEnable && !i.reset
    ensures var d := Frame(c, i);
            && d.phases == c.phases.(tag := if i.tagDone && c.phases.tag == 1 then 2 else c.phases.tag) && d.en == c.en
            && d.course == c.course.(enStart := c.course.enStart || i.pressStart)
            && d.odo.loopDist == c.odo.loopDist + i.travel && d.odo.forkDist == c.odo.forkDist + i.travel
            && d.odo.startDist == c.odo.startDist + i.travel && d.odo.rampDist == c.odo.rampDist + i.travel
  {
  }

  // A reset is as if no element had been active, no fork counted, and no start asked for.
  lemma ResetTurns(c: Car, i: Input)
    requires WellFormed(i) && i.reset
    ensures var blank := c.(en := EVERYTHING, phases := Phases(0, 0, 0, 0, 0, 0, 0),
                             course := Course(false, 0, 0, 0, c.course.turns, c.course.garageDis));
            Frame(c, i) == Frame(blank, i.(reset := false, pressStart := false))
  {
    hide Blocks;
    var j := i.(reset := false, pressStart := false);
    var blank := c.(en := EVERYTHING, phases := Phases(0, 0, 0, 0, 0, 0, 0),
                     course := Course(false, 0, 0, 0, c.course.turns, c.course.garageDis));
    assert Reset(World(c, i), i) == Reset(World(blank, j), j);
    SameBlocks(World(blank, j), i, j);
  }

  lemma SameBlocks(c: Car, i: Input, j: Input)
    requires WellFormed(i) && j == i.(reset := false, pressStart := false)
    ensures Blocks(c, i) == Blocks(c, j)
  {
    hide RampBlock, StartBlock, TagBlock, GarageBlock, ForkBlock, LoopBlock;
    var c1 := RampBlock(c, i);
    SameEarly(c, i, j);
    var c2 := StartBlock(c1).0;
    SameEarly(c2, i, j);
    var c3 := TagBlock(c2, i).0;
    SameLate(c3, i, j);
    var c4 := GarageBlock(c3, i).0;
    SameLate(c4, i, j);
    SameLoop(ForkBlock(c4, i), i, j);
  }

  lemma SameEarly(c: Car, i: Input, j: Input)
    requires WellFormed(i) && j == i.(reset := false, pressStart := false)
    ensures RampBlock(c, i) == RampBlock(c, j) && TagBlock(c, i) == TagBlock(c, j)
  {
  }

  lemma SameLate(c: Car, i: Input, j: Input)
    requires WellFormed(i) && j == i.(reset := false, pressStart := false)
    ensures GarageBlock(c, i) == GarageBlock(c, j) && ForkBlock(c, i) == ForkBlock(c, j)
  {
  }

  lemma SameLoop(c: Car, i: Input, j: Input)
    requires WellFormed(i) && j == i.(reset := false, pressStart := false)
    ensures LoopBlock(c, i) == LoopBlock(c, j)
  {
    hide IsLose, IsNonlose;
  }
}
