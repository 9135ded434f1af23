/**
 * The arbiter as it runs: the globals are fields, every handler updates its own ones in place, and a
 * frame is the world's step followed by find_elements.
 */
module ArbiterCar {
  import opened LineFlags
  import opened Arbiter
  import opened Transitions

  class Vehicle {
    var garageEnable: bool
    var forkEnable: bool
    var loopEnable: bool
    var tagEnable: bool
    var rampEnable: bool
    var startEnable: bool

    var rampSmState: int
    var startSmState: int
    var tagSmState: int
    var garageSmState: int
    var forkSmState: int
    var lLoopSmState: int
    var rLoopSmState: int

    var enStart: bool
    var forkNum: int
    var fork1Dir: int
    var fork2Dir: int
    var currentTurns: int
    var garageRegcoDis: real

    var loopDistance: real
    var forkDistance: real
    var startDistance: real
    var rampDistance: real

    var gyroY: real
    var gyroZ: real
    var startAngle: real

    // Edge flags of the current frame.
    const leftLineFlag: array<int>
    const rightLineFlag: array<int>

    constructor ()
      ensures State() == INITIAL && Inv(State()) && Valid()
      ensures fresh(leftLineFlag) && fresh(rightLineFlag)
    {
      garageEnable, forkEnable, loopEnable, tagEnable, rampEnable, startEnable := true, true, true, true, true, true;
      rampSmState, startSmState, tagSmState, garageSmState, forkSmState := 0, 0, 0, 0, 0;
      lLoopSmState, rLoopSmState := 0, 0;
      enStart, forkNum, fork1Dir, fork2Dir, currentTurns, garageRegcoDis := false, 0, 0, 0, 0, 0.0;
      loopDistance, forkDistance, startDistance, rampDistance := 0.0, 0.0, 0.0, 0.0;
      gyroY, gyroZ, startAngle := 0.0, 0.0, 0.0;
      leftLineFlag, rightLineFlag := new int[120], new int[120];
    }

    ghost predicate Valid() {
      leftLineFlag.Length == rightLineFlag.Length == 120 && leftLineFlag != rightLineFlag
    }

    ghost predicate Sees(i: Input)
      reads leftLineFlag, rightLineFlag
    {
      WellFormed(i) && leftLineFlag[..] == i.leftFlags && rightLineFlag[..] == i.rightFlags
    }

    ghost function En(): Enables
      reads `garageEnable, `forkEnable, `loopEnable, `tagEnable, `rampEnable, `startEnable
    {
      Enables(garageEnable, forkEnable, loopEnable, tagEnable, rampEnable, startEnable)
    }

    lemma EnIs()
      ensures En() == Enables(garageEnable, forkEnable, loopEnable, tagEnable, rampEnable, startEnable)
    {
    }

    ghost function ThePhases(): Phases
      reads `rampSmState, `startSmState, `tagSmState, `garageSmState, `forkSmState, `lLoopSmState, `rLoopSmState
    {
      Phases(rampSmState, startSmState, tagSmState, garageSmState, forkSmState, lLoopSmState, rLoopSmState)
    }

    ghost function TheCourse(): Course
      reads `enStart, `forkNum, `fork1Dir, `fork2Dir, `currentTurns, `garageRegcoDis
    {
      Course(enStart, forkNum, fork1Dir, fork2Dir, currentTurns, garageRegcoDis)
    }

    ghost function TheOdo(): Odometers
      reads `loopDistance, `forkDistance, `startDistance, `rampDistance
    {
      Odometers(loopDistance, forkDistance, startDistance, rampDistance)
    }

    ghost function TheGyro(): Gyro
      reads `gyroY, `gyroZ, `startAngle
    {
      Gyro(gyroY, gyroZ, startAngle)
    }

    ghost function State(): Car
      reads this
    {
      Car(En(), ThePhases(), TheCourse(), TheOdo(), TheGyro())
    }

    method EnableAllElements()
      modifies `garageEnable, `forkEnable, `loopEnable, `tagEnable, `rampEnable, `startEnable
      ensures En() == ALL
    {
      garageEnable, forkEnable, loopEnable := true, true, true;
      tagEnable, rampEnable, startEnable := true, true, true;
    }

    method DisableAllElements()
      modifies `garageEnable, `forkEnable, `loopEnable, `tagEnable, `rampEnable, `startEnable
      ensures En() == NONE
    {
      garageEnable, forkEnable, loopEnable := false, false, false;
      tagEnable, rampEnable, startEnable := false, false, false;
    }

    // All odometers advance by the mean of the wheels, or fall back by it when driving in reverse.
    method UpdateDis(left: real, right: real, inverse: bool)
      modifies `loopDistance, `forkDistance, `startDistance, `rampDistance
      ensures var delta := if inverse then -((left + right) / 2.0) else (left + right) / 2.0;
              && loopDistance == old(loopDistance) + delta && forkDistance == old(forkDistance) + delta
              && startDistance == old(startDistance) + delta && rampDistance == old(rampDistance) + delta
    {
      var delta := (left + right) / 2.0;
      if inverse {
        delta := -delta;
      }
      loopDistance := loopDistance + delta;
      forkDistance := forkDistance + delta;
      startDistance := startDistance + delta;
      rampDistance := rampDistance + delta;
    }

    // -----------------------------------------------------------------------------------
    // The elements: each writes its own globals and the shared ones it names, and no other
    // -----------------------------------------------------------------------------------

    ghost function TheRamp(): Ramp
      reads this
    {
      Ramp(rampSmState, rampDistance, gyroY, En())
    }

    method RampPhases(i: Input)
      modifies `garageEnable, `forkEnable, `loopEnable, `tagEnable, `rampEnable, `startEnable
      modifies `rampSmState, `rampDistance, `gyroY
      ensures TheRamp() == RampSteps(old(TheRamp()), i)
    {
      if rampSmState == 0 {
        if i.rampSeen {
          rampSmState, rampDistance, gyroY := 1, 0.0, 0.0;
          DisableAllElements();
          rampEnable := true;
        }
      }
      if rampSmState == 1 {
        if Abs(gyroY) > 8.0 || rampDistance > 50.0 {
          rampSmState, rampDistance := 2, 0.0;
        }
      }
      if rampSmState == 2 {
        if Abs(gyroY) <= 4.0 || rampDistance > 50.0 {
          rampSmState, rampDistance := 3, 0.0;
        }
      }
      if rampSmState == 3 {
        if gyroY <= -8.0 || rampDistance > 50.0 {
          rampSmState, rampDistance := 4, 0.0;
        }
      }
      if rampSmState == 4 {
        if Abs(gyroY) <= 4.0 || rampDistance > 50.0 {
          rampSmState, rampDistance := 0, 0.0;
          EnableAllElements();
        }
      }
    }

    // The ramp's phase and odometer move on as RampMoves says.
    method RampPart(i: Input)
      modifies `garageEnable, `forkEnable, `loopEnable, `tagEnable, `rampEnable, `startEnable
      modifies `rampSmState, `rampDistance, `gyroY
      ensures State() == RampBlock(old(State()), i)
      ensures Inv(old(State())) ==> Inv(State())
      ensures old(rampEnable) && i.rampDet && 1 <= old(rampSmState) <= 4 ==>
                RampMoves(old(rampSmState), old(rampDistance), 0.0, rampSmState, rampDistance)
    {
      hide En, TheCourse, Inv, RampSteps, RampMoves;
      EnIs();
      RampPartKeeps(State(), i);
      if rampEnable && i.rampDet {
        RampPhases(i);
      }
    }

    ghost function TheStart(): Start
      reads this
    {
      Start(startSmState, startDistance, startAngle, enStart, gyroY, En())
    }

    method StartPhases() returns (ended: bool)
      modifies `garageEnable, `forkEnable, `loopEnable, `tagEnable, `rampEnable, `startEnable
      modifies `startSmState, `startDistance, `startAngle, `enStart, `gyroY
      ensures (TheStart(), ended) == StartSteps(old(TheStart()))
    {
      if startSmState == 0 {
        startDistance, startAngle, startSmState := 0.0, 0.0, 3;
        DisableAllElements();
        startEnable := true;
      }
      if startSmState == 2 {
        startDistance, startSmState, enStart, startAngle := 0.0, 0, false, 0.0;
        EnableAllElements();
        gyroY := 0.0;
      }
      if startSmState == 3 {
        if startDistance > 12.0 {
          startSmState, startDistance := 4, 0.0;
        }
        return true;
      }
      if startSmState == 4 {
        if Abs(startAngle) > 50.0 || startDistance > 60.0 {
          startSmState := 2;
        }
        return true;
      }
      return false;
    }

    // The frame ends here exactly while the car drives out of its starting box.
    method StartPart() returns (ended: bool)
      modifies `garageEnable, `forkEnable, `loopEnable, `tagEnable, `rampEnable, `startEnable
      modifies `startSmState, `startDistance, `startAngle, `enStart, `gyroY
      ensures (State(), ended) == StartBlock(old(State()))
      ensures Inv(old(State())) ==> Inv(State()) && (ended ==> startSmState != 0)
      ensures Inv(old(State())) && !ended && startSmState != 0 ==> !enStart
    {
      hide En, Inv, StartSteps;
      EnIs();
      StartPartKeeps(State());
      ended := false;
      if startEnable && enStart {
        ended := StartPhases();
      }
    }

    ghost function TheTag(): Tag
      reads this
    {
      Tag(tagSmState, gyroY, En())
    }

    method TagPhases(i: Input) returns (ended: bool)
      modifies `garageEnable, `forkEnable, `loopEnable, `tagEnable, `rampEnable, `startEnable
      modifies `tagSmState, `gyroY
      ensures (TheTag(), ended) == TagSteps(old(TheTag()), i)
    {
      if tagSmState == 0 {
        if i.tagSeen {
          tagSmState := 1;
          DisableAllElements();
          tagEnable := true;
        }
      }
      if tagSmState == 1 {
        return true;
      }
      if tagSmState == 2 {
        tagSmState := 0;
        EnableAllElements();
        gyroY := 0.0;
      }
      return false;
    }

    // The frame ends here exactly while a tag is approached.
    method TagPart(i: Input) returns (ended: bool)
      modifies `garageEnable, `forkEnable, `loopEnable, `tagEnable, `rampEnable, `startEnable
      modifies `tagSmState, `gyroY
      ensures (State(), ended) == TagBlock(old(State()), i)
      ensures Inv(old(State())) ==> Inv(State())
      ensures ended <==> old(tagEnable) && i.friutRegco && tagSmState == 1
    {
      hide En, TheCourse, TheOdo, Inv, TagSteps;
      EnIs();
      TagPartKeeps(State(), i);
      ended := false;
      if tagEnable && i.friutRegco {
        ended := TagPhases(i);
      }
    }

    ghost function TheGarage(): Garage
      reads this
    {
      Garage(garageSmState, startDistance, startAngle, gyroY, En())
    }

    method CountGarage(i: Input)
      modifies `currentTurns, `garageRegcoDis, `fork1Dir, `fork2Dir
      ensures TheCourse() == Signed(old(TheCourse()), i)
    {
      currentTurns := currentTurns + 1;
      garageRegcoDis := i.garageDis;
      if currentTurns == 1 {
        fork1Dir, fork2Dir := Not(fork1Dir), Not(fork2Dir);
      }
    }

    // The first garage is driven past, and turns the forks round; the next one is entered.
    method SetGarageFlag(i: Input)
      modifies `garageEnable, `forkEnable, `loopEnable, `tagEnable, `rampEnable, `startEnable
      modifies `garageSmState, `startDistance, `startAngle, `gyroY
      modifies `currentTurns, `garageRegcoDis, `fork1Dir, `fork2Dir
      ensures garageSmState == (if old(currentTurns) + 1 == 1 then 5 else 4)
      ensures startDistance == startAngle == gyroY == 0.0 && En() == NONE.(garage := true)
      ensures TheCourse() == Signed(old(TheCourse()), i)
    {
      hide TheCourse, Signed, ThePhases, TheOdo, TheGyro, State;
      DisableAllElements();
      garageEnable := true;
      startDistance, startAngle, gyroY := 0.0, 0.0, 0.0;
      garageSmState := if currentTurns + 1 == 1 then 5 else 4;
      CountGarage(i);
    }

    method GaragePhases(i: Input) returns (ended: bool)
      modifies `garageEnable, `forkEnable, `loopEnable, `tagEnable, `rampEnable, `startEnable
      modifies `garageSmState, `startDistance, `startAngle, `gyroY
      ensures (TheGarage(), ended) == GarageSteps(old(TheGarage()), garageRegcoDis, i)
    {
      if garageSmState == 4 {
        if i.garageStartRow > 100 || startDistance >= garageRegcoDis - 5.0 {
          garageSmState, startDistance := 1, 0.0;
        }
      }
      if garageSmState == 1 {
        if Abs(startAngle) > 70.0 && startDistance > 30.0 {
          startDistance, garageSmState, startAngle := 0.0, 2, 0.0;
        }
        return true;
      }
      if garageSmState == 5 {
        if startDistance > 230.0 || startDistance >= garageRegcoDis + 20.0 {
          startDistance, garageSmState, startAngle := 0.0, 0, 0.0;
          EnableAllElements();
          gyroY := 0.0;
        }
        return true;
      }
      return false;
    }

    method GarageSeen(i: Input)
      modifies `garageEnable, `forkEnable, `loopEnable, `tagEnable, `rampEnable, `startEnable
      modifies `garageSmState, `startDistance, `startAngle, `gyroY
      modifies `currentTurns, `garageRegcoDis, `fork1Dir, `fork2Dir
      ensures State() == GarageEntry(old(State()), i)
    {
      hide En, TheCourse, Signed;
      TurnsAre();
      if garageSmState == 0 {
        if i.garageSeen {
          SetGarageFlag(i);
        }
      }
    }

    lemma TurnsAre()
      ensures TheCourse().turns == currentTurns && TheCourse().garageDis == garageRegcoDis
    {
    }

    method GarageMoves(i: Input) returns (ended: bool)
      modifies `garageEnable, `forkEnable, `loopEnable, `tagEnable, `rampEnable, `startEnable
      modifies `garageSmState, `startDistance, `startAngle, `gyroY
      ensures var c := old(State());
              var (g, e) := GarageSteps(Garage(c.phases.garage, c.odo.startDist, c.gyro.startAngle, c.gyro.gyroY, c.en),
                                        c.course.garageDis, i);
              (State(), ended) == (WithGarage(c, g), e)
    {
      TurnsAre();
      hide En, TheCourse, GarageSteps;
      ended := GaragePhases(i);
    }

    method GaragePart(i: Input) returns (ended: bool)
      modifies `garageEnable, `forkEnable, `loopEnable, `tagEnable, `rampEnable, `startEnable
      modifies `garageSmState, `startDistance, `startAngle, `gyroY
      modifies `currentTurns, `garageRegcoDis, `fork1Dir, `fork2Dir
      ensures (State(), ended) == GarageBlock(old(State()), i)
      ensures Inv(old(State())) ==> Inv(State())
    {
      EnIs();
      hide En, ThePhases, TheCourse, TheOdo, TheGyro, Inv, GarageSteps, GarageEntry, WithGarage;
      GaragePartKeeps(State(), i);
      ended := false;
      if garageEnable {
        GarageSeen(i);
        ended := GarageMoves(i);
      }
    }

    ghost function TheFork(): Fork
      reads this
    {
      Fork(forkSmState, forkDistance, forkNum, gyroY, En())
    }

    // The transitions that both branches of a fork share.
    method PatchBranch(i: Input, startRow: int)
      modifies `garageEnable, `forkEnable, `loopEnable, `tagEnable, `rampEnable, `startEnable
      modifies `forkSmState, `forkDistance, `gyroY
      ensures TheFork() == ForkBranch(old(TheFork()), i, startRow)
    {
      if forkSmState == 1 {
        if startRow < 75 && forkDistance > 10.0 {
          forkSmState, forkDistance := 2, 0.0;
        }
      }
      if forkSmState == 2 && !i.forkStill {
        if forkDistance > 70.0 {
          forkSmState := 0;
          EnableAllElements();
          gyroY := 0.0;
        }
      }
    }

    method ForkPhases(i: Input)
      modifies `garageEnable, `forkEnable, `loopEnable, `tagEnable, `rampEnable, `startEnable
      modifies `forkSmState, `forkDistance, `forkNum, `gyroY
      ensures TheFork() == ForkSteps(old(TheFork()), fork1Dir, fork2Dir, i)
    {
      if forkSmState == 0 {
        if i.forkSeen {
          forkNum, forkSmState, forkDistance := forkNum + 1, 1, 0.0;
          DisableAllElements();
          forkEnable := true;
        }
      }
      if forkSmState == 1 || forkSmState == 2 {
        hide En, ThePhases, TheCourse, TheOdo, TheGyro, ForkBranch;
        if ForkDirIs(forkNum, fork1Dir, fork2Dir, 1) {
          PatchBranch(i, i.leftStartRow);
        }
        if ForkDirIs(forkNum, fork1Dir, fork2Dir, 0) {
          PatchBranch(i, i.rightStartRow);
        }
      }
    }

    method ForkPart(i: Input)
      modifies `garageEnable, `forkEnable, `loopEnable, `tagEnable, `rampEnable, `startEnable
      modifies `forkSmState, `forkDistance, `forkNum, `gyroY
      ensures State() == ForkBlock(old(State()), i)
      ensures Inv(old(State())) ==> Inv(State())
    {
      hide En, Inv, ForkSteps;
      EnIs();
      ForkPartKeeps(State(), i);
      if forkEnable {
        ForkPhases(i);
      }
    }

    ghost function TheLoop(left: bool): Loop
      reads this
    {
      Loop(if left then lLoopSmState else rLoopSmState, loopDistance, gyroY, En())
    }

    // The phase moves along the roundabout, out of it only after 70 units in phase 7, which enables
    // every element again; the other roundabout is not touched.
    method LLoopPatch(i: Input)
      requires Sees(i)
      modifies `garageEnable, `forkEnable, `loopEnable, `tagEnable, `rampEnable, `startEnable
      modifies `lLoopSmState, `loopDistance, `gyroY
      ensures TheLoop(true) == LeftSteps(old(TheLoop(true)), gyroZ, i)
      ensures 1 <= old(lLoopSmState) <= 7 ==>
                && lLoopSmState == LeftAfter(old(lLoopSmState), old(loopDistance), gyroZ, i)
                && LoopEnds(old(lLoopSmState), old(loopDistance), old(En()), lLoopSmState, loopDistance, En())
                && LoopMoves(old(lLoopSmState), old(loopDistance), 0.0, lLoopSmState, loopDistance)
    {
      hide IsNonlose, LoopMoves, LoopEnds, LeftAfter;
      LeftStepsKeep(TheLoop(true), gyroZ, i);
      if lLoopSmState == 1 {
        if i.leftStartRow < 73 && loopDistance >= 25.0 {
          lLoopSmState, loopDistance := 3, 0.0;
        }
      }
      if lLoopSmState == 3 {
        if i.leftStartRow > 105 && loopDistance >= 10.0 {
          lLoopSmState, loopDistance := 2, 0.0;
        }
      }
      if lLoopSmState == 2 {
        if i.rightStartRow < 75 { lLoopSmState := 4; }
      }
      if lLoopSmState == 4 {
        if i.rightStartRow > 110 { lLoopSmState := 5; }
      }
      if lLoopSmState == 5 {
        if Abs(gyroZ) >= 255.0 { lLoopSmState := 6; }
      }
      if lLoopSmState == 6 {
        if Abs(gyroZ) >= 335.0 {
          loopDistance, lLoopSmState := 0.0, 7;
        }
      }
      if lLoopSmState == 7 {
        var found := IsLRNonlose(leftLineFlag, rightLineFlag, 75, 110, 2, 95);
        if (found && loopDistance > 70.0) || loopDistance > 200.0 {
          lLoopSmState := 0;
          EnableAllElements();
          gyroY := 0.0;
        }
      }
    }

    method RLoopPatch(i: Input)
      requires Sees(i)
      modifies `garageEnable, `forkEnable, `loopEnable, `tagEnable, `rampEnable, `startEnable
      modifies `rLoopSmState, `loopDistance, `gyroY
      ensures TheLoop(false) == RightSteps(old(TheLoop(false)), gyroZ, i)
      ensures 1 <= old(rLoopSmState) <= 7 ==>
                && rLoopSmState == RightAfter(old(rLoopSmState), old(loopDistance), gyroZ, i)
                && LoopEnds(old(rLoopSmState), old(loopDistance), old(En()), rLoopSmState, loopDistance, En())
                && LoopMoves(old(rLoopSmState), old(loopDistance), 0.0, rLoopSmState, loopDistance)
    {
      hide IsLose, IsNonlose, LoopMoves, LoopEnds, RightAfter;
      RightStepsKeep(TheLoop(false), gyroZ, i);
      if rLoopSmState == 1 {
        if i.rightStartRow < 77 && loopDistance >= 10.0 {
          rLoopSmState, loopDistance := 3, 0.0;
        }
      }
      if rLoopSmState == 3 {
        if i.rightStartRow > 100 && loopDistance >= 10.0 {
          rLoopSmState, loopDistance := 2, 0.0;
        }
      }
      if rLoopSmState == 2 {
        var lost := IsLRLose(leftLineFlag, rightLineFlag, 90, 118, 0, 90);
        if lost { rLoopSmState := 4; }
      }
      if rLoopSmState == 4 {
        var found := IsLRNonlose(leftLineFlag, rightLineFlag, 80, 110, 0, 80);
        if found { rLoopSmState := 5; }
      }
      if rLoopSmState == 5 {
        if Abs(gyroZ) >= 270.0 { rLoopSmState := 6; }
      }
      if rLoopSmState == 6 {
        if Abs(gyroZ) >= 335.0 {
          rLoopSmState, loopDistance := 7, 0.0;
        }
      }
      if rLoopSmState == 7 {
        var found := IsLRNonlose(leftLineFlag, rightLineFlag, 75, 110, 2, 80);
        if (found && loopDistance > 70.0) || loopDistance > 200.0 {
          rLoopSmState := 0;
          EnableAllElements();
          gyroY := 0.0;
        }
      }
    }

    ghost function TheEntry(): Entry
      reads this
    {
      Entry(lLoopSmState, rLoopSmState, loopDistance, gyroZ, En())
    }

    // A roundabout seen while there is none, the left-hand one first.
    method EnterLoop(i: Input)
      modifies `garageEnable, `forkEnable, `loopEnable, `tagEnable, `rampEnable, `startEnable
      modifies `lLoopSmState, `rLoopSmState, `loopDistance, `gyroZ
      ensures TheEntry() == EntrySteps(old(TheEntry()), i)
    {
      if lLoopSmState == 0 && rLoopSmState == 0 {
        if i.lLoopSeen {
          lLoopSmState := 1;
          DisableAllElements();
          loopEnable, gyroZ, loopDistance := true, 0.0, 0.0;
        }
      }
      if lLoopSmState == 0 && rLoopSmState == 0 {
        if i.rLoopSeen {
          rLoopSmState := 1;
          DisableAllElements();
          loopEnable, gyroZ, loopDistance := true, 0.0, 0.0;
        }
      }
    }

    method EntryPart(i: Input)
      modifies `garageEnable, `forkEnable, `loopEnable, `tagEnable, `rampEnable, `startEnable
      modifies `lLoopSmState, `rLoopSmState, `loopDistance, `gyroZ
      ensures State() == LoopEntry(old(State()), i)
    {
      hide En, TheCourse, EntrySteps;
      EnterLoop(i);
    }

    method PatchLoop(i: Input)
      requires Sees(i)
      modifies `garageEnable, `forkEnable, `loopEnable, `tagEnable, `rampEnable, `startEnable
      modifies `lLoopSmState, `rLoopSmState, `loopDistance, `gyroY
      ensures State() == if old(State()).phases.lLoop != 0 then LeftLoopPatch(old(State()), i)
                         else if old(State()).phases.rLoop != 0 then RightLoopPatch(old(State()), i)
                         else old(State())
    {
      hide En, TheCourse, LeftSteps, RightSteps, LoopMoves;
      if lLoopSmState != 0 {
        LLoopPatch(i);
        return;
      }
      if rLoopSmState != 0 {
        RLoopPatch(i);
        return;
      }
    }

    method LoopPart(i: Input)
      requires Sees(i)
      modifies `garageEnable, `forkEnable, `loopEnable, `tagEnable, `rampEnable, `startEnable
      modifies `lLoopSmState, `rLoopSmState, `loopDistance, `gyroY, `gyroZ
      ensures State() == LoopBlock(old(State()), i)
      ensures Inv(old(State())) ==> Inv(State())
    {
      hide En, ThePhases, TheCourse, TheOdo, TheGyro, Inv, LoopEntry, LeftLoopPatch, RightLoopPatch;
      EnIs();
      LoopPartKeeps(State(), i);
      if loopEnable {
        EntryPart(i);
        PatchLoop(i);
      }
    }

    // -----------------------------------------------------------------------------------
    // Frames
    // -----------------------------------------------------------------------------------

    // One call refines its specification, and so keeps the arbiter's invariant.
    method FindElementsInPlace(i: Input)
      requires Sees(i)
      modifies this
      ensures State() == FindElements(old(State()), i)
      ensures Inv(old(State())) ==> Inv(State())
      ensures Inv(old(State())) && !i.reset ==>
                && LoopSucc(old(State()).phases.lLoop, State().phases.lLoop)
                && LoopSucc(old(State()).phases.rLoop, State().phases.rLoop)
    {
      hide State, En, Reset, RampBlock, StartBlock, TagBlock, GarageBlock, ForkBlock, LoopBlock;
      hide Inv, LoopSucc, RampMoves;
      KeepsElements(State(), i);
      ResetElements(i);
      if i.eleEnable {
        RampPart(i);
        var ended := StartPart();
        if ended { return; }
        ended := TagPart(i);
        if ended { return; }
        ended := GaragePart(i);
        if ended { return; }
        ForkPart(i);
        LoopPart(i);
      }
    }

    method ClearStates()
      modifies `rampSmState, `startSmState, `tagSmState, `garageSmState, `forkSmState, `lLoopSmState, `rLoopSmState
      modifies `enStart, `forkNum, `fork1Dir, `fork2Dir
      ensures rampSmState == startSmState == tagSmState == garageSmState == forkSmState == 0
      ensures lLoopSmState == rLoopSmState == forkNum == fork1Dir == fork2Dir == 0 && !enStart
    {
      rampSmState, startSmState, tagSmState, garageSmState, forkSmState := 0, 0, 0, 0, 0;
      lLoopSmState, rLoopSmState := 0, 0;
      enStart, forkNum, fork1Dir, fork2Dir := false, 0, 0, 0;
    }

    // A pending reset clears the element states and enables every element.
    method ResetElements(i: Input)
      modifies this
      ensures State() == Reset(old(State()), i)
    {
      hide En, TheOdo, TheGyro;
      if i.reset {
        ClearStates();
        EnableAllElements();
      }
    }

    method ReadSensors(i: Input)
      modifies `gyroY, `gyroZ, `startAngle, `enStart, `tagSmState
      ensures gyroY == i.gyroY && gyroZ == i.gyroZ && startAngle == i.startAngle
      ensures enStart == (old(enStart) || i.pressStart)
      ensures tagSmState == if i.tagDone && old(tagSmState) == 1 then 2 else old(tagSmState)
    {
      gyroY, gyroZ, startAngle := i.gyroY, i.gyroZ, i.startAngle;
      if i.pressStart {
        enStart := true;
      }
      if i.tagDone && tagSmState == 1 {
        tagSmState := 2;
      }
    }

    method ScanEdges(i: Input)
      requires Valid() && WellFormed(i)
      modifies leftLineFlag, rightLineFlag
      ensures Sees(i)
    {
      forall k | 0 <= k < 120 {
        leftLineFlag[k] := i.leftFlags[k];
      }
      forall k | 0 <= k < 120 {
        rightLineFlag[k] := i.rightFlags[k];
      }
      assert leftLineFlag[..] == i.leftFlags;
    }

    // What happens between two frames: the wheels turn, the gyro and the buttons are read, the
    // recogniser may finish a tag, and the scan of the new image leaves its edge flags.
    method Observe(i: Input)
      requires Valid() && WellFormed(i)
      modifies this, leftLineFlag, rightLineFlag
      ensures Sees(i) && State() == World(old(State()), i)
    {
      hide En, Sees;
      UpdateDis(i.travel, i.travel, false);
      ReadSensors(i);
      ScanEdges(i);
    }

    // One frame: the world's step and find_elements. It keeps the invariant, and moves the ramp and
    // both roundabouts only along their phases, out of a roundabout only after 70 units in phase 7.
    method RunFrame(i: Input)
      requires Valid() && WellFormed(i)
      modifies this, leftLineFlag, rightLineFlag
      ensures State() == Frame(old(State()), i)
      ensures Inv(old(State())) ==> Inv(State())
      ensures Inv(old(State())) && !i.reset ==> LoopsMoved(old(State()), i.travel, State())
      ensures Inv(old(State())) && !i.reset && i.eleEnable ==> Turns(old(State()), i, State())
      ensures Inv(old(State())) && RampDriven(i, i.travel) && old(State()).phases.ramp != 0 ==>
                RampMoved(old(State()), i.travel, State())
    {
      hide State, En, Inv, World, FindElements, LoopSucc, LoopsMoved, RampMoved, RampDriven, Turns;
      FrameFacts(State(), i);
      Observe(i);
      FindElementsInPlace(i);
    }

    // Frame after frame: the state is the run's, at most one element is active, and it alone is
    // enabled; and whenever a roundabout was left, phase 7 had lasted for more than 70 units.
    method RunFrames(ins: seq<Input>)
      requires Valid() && Inputs(ins)
      modifies this, leftLineFlag, rightLineFlag
      ensures State() == Run(old(State()), ins)
      ensures Inv(old(State())) ==> Inv(State()) && Active(State()) <= 1 && State().en == OwnEnables(State())
      ensures Inv(old(State())) ==> LateExits(old(State()), ins)
    {
      hide State, Frame, Inv, Active, OwnEnables, LoopsMoved, RampMoved, RampDriven, WellFormed, LateExits, Turns;
      ghost var c := State();
      var k := 0;
      assert ins[..0] == [];
      while k < |ins|
        invariant 0 <= k <= |ins| && Valid()
        invariant State() == Run(c, ins[..k])
        invariant Inv(c) ==> Inv(State())
      {
        assert ins[..k + 1][..k] == ins[..k];
        InputAt(ins, k);
        RunFrame(ins[k]);
        k := k + 1;
      }
      assert ins[..k] == ins;
      OneActive(State());
      AllLate(c, ins);
    }
  }

  ghost predicate LateExits(c: Car, ins: seq<Input>)
    requires Inputs(ins)
  {
    forall n, left :: 0 <= n <= |ins| && Inputs(ins[..n]) && Phase(c, left) != 7 && LeavesLoop(c, ins[..n], left) ==>
      exists e :: LongSince(c, ins[..n], left, e)
  }

  lemma AllLate(c: Car, ins: seq<Input>)
    requires Inputs(ins)
    ensures Inv(c) ==> LateExits(c, ins)
  {
    hide Inv, Inputs, Phase, LeavesLoop, LongSince;
    if Inv(c) {
      if Phase(c, true) != 7 { ExitsAreLate(c, ins, true); }
      if Phase(c, false) != 7 { ExitsAreLate(c, ins, false); }
    }
  }

  // What the specification of each handler keeps.
  lemma RampPartKeeps(c: Car, i: Input)
    ensures Inv(c) ==> Inv(RampBlock(c, i))
    ensures c.en.ramp && i.rampDet && 1 <= c.phases.ramp <= 4 ==>
              RampMoves(c.phases.ramp, c.odo.rampDist, 0.0, RampBlock(c, i).phases.ramp, RampBlock(c, i).odo.rampDist)
  {
    if Inv(c) {
      RampKeeps(c, i);
    }
    hide Inv;
  }

  lemma StartPartKeeps(c: Car)
    ensures Inv(c) ==> Inv(StartBlock(c).0)
    ensures StartBlock(c).1 ==> StartBlock(c).0.phases.start != 0
    ensures Inv(c) && !StartBlock(c).1 && StartBlock(c).0.phases.start != 0 ==> !StartBlock(c).0.course.enStart
  {
    if Inv(c) {
      StartKeeps(c);
    }
  }

  lemma TagPartKeeps(c: Car, i: Input)
    ensures Inv(c) ==> Inv(TagBlock(c, i).0)
    ensures TagBlock(c, i).1 <==> c.en.tag && i.friutRegco && TagBlock(c, i).0.phases.tag == 1
  {
    if Inv(c) {
      TagKeeps(c, i);
    }
    hide Inv;
  }

  lemma GaragePartKeeps(c: Car, i: Input)
    ensures Inv(c) ==> Inv(GarageBlock(c, i).0)
  {
    hide Inv, GarageBlock;
    if Inv(c) {
      GarageKeeps(c, i);
    }
  }

  lemma ForkPartKeeps(c: Car, i: Input)
    ensures Inv(c) ==> Inv(ForkBlock(c, i))
  {
    hide Inv, ForkBlock;
    if Inv(c) {
      ForkKeeps(c, i);
    }
  }

  lemma LeftStepsKeep(l: Loop, gyroZ: real, i: Input)
    requires WellFormed(i)
    ensures var m := LeftSteps(l, gyroZ, i);
            1 <= l.phase <= 7 ==>
              && m.phase == LeftAfter(l.phase, l.dist, gyroZ, i)
              && LoopEnds(l.phase, l.dist, l.en, m.phase, m.dist, m.en)
              && LoopMoves(l.phase, l.dist, 0.0, m.phase, m.dist)
  {
    hide IsNonlose, LeftAfter, LoopEnds;
    if 1 <= l.phase <= 7 {
      LeftStepsTurn(l, gyroZ, i);
    }
  }

  lemma RightStepsKeep(l: Loop, gyroZ: real, i: Input)
    requires WellFormed(i)
    ensures var m := RightSteps(l, gyroZ, i);
            1 <= l.phase <= 7 ==>
              && m.phase == RightAfter(l.phase, l.dist, gyroZ, i)
              && LoopEnds(l.phase, l.dist, l.en, m.phase, m.dist, m.en)
              && LoopMoves(l.phase, l.dist, 0.0, m.phase, m.dist)
  {
    if IsLose(i.leftFlags, i.rightFlags, 90, 118, 0, 90) {
      LoseExcludesNonlose(i.leftFlags, i.rightFlags);
    }
    hide IsLose, IsNonlose, RightAfter, LoopEnds;
    if 1 <= l.phase <= 7 {
      RightStepsTurn(l, gyroZ, i);
    }
  }

  lemma LoopPartKeeps(c: Car, i: Input)
    requires WellFormed(i)
    ensures Inv(c) ==> Inv(LoopBlock(c, i))
  {
    hide Inv, LoopBlock;
    if Inv(c) {
      LoopKeeps(c, i);
    }
  }

  lemma KeepsElements(c: Car, i: Input)
    requires WellFormed(i)
    ensures Inv(c) ==> Inv(FindElements(c, i))
    ensures Inv(c) && !i.reset ==>
              && LoopSucc(c.phases.lLoop, FindElements(c, i).phases.lLoop)
              && LoopSucc(c.phases.rLoop, FindElements(c, i).phases.rLoop)
  {
    hide Inv, FindElements, LoopSucc;
    if Inv(c) {
      FindElementsKeeps(c, i);
      if !i.reset {
        LoopFind(c, i, true);
        LoopFind(c, i, false);
      }
    }
  }

  // Both roundabouts moved along their phases, and out of phase 7 only.
  predicate LoopsMoved(c: Car, travel: real, d: Car) {
    && LoopMoves(c.phases.lLoop, c.odo.loopDist, travel, d.phases.lLoop, d.odo.loopDist)
    && LoopMoves(c.phases.rLoop, c.odo.loopDist, travel, d.phases.rLoop, d.odo.loopDist)
  }

  predicate RampMoved(c: Car, travel: real, d: Car) {
    RampMoves(c.phases.ramp, c.odo.rampDist, travel, d.phases.ramp, d.odo.rampDist)
  }

  // What a frame makes of the active roundabout, or of a car with no active element.
  ghost predicate Turns(c: Car, i: Input, d: Car)
    requires WellFormed(i)
  {
    var dist := c.odo.loopDist + i.travel;
    && (c.phases.lLoop != 0 ==> d.phases.lLoop == LeftAfter(c.phases.lLoop, dist, i.gyroZ, i))
    && (c.phases.rLoop != 0 ==> d.phases.rLoop == RightAfter(c.phases.rLoop, dist, i.gyroZ, i))
    && (NothingActive(c) ==> d.phases == Entered(c, i))
  }

  lemma FrameTurns(c: Car, i: Input)
    requires Inv(c) && WellFormed(i) && !i.reset && i.eleEnable
    ensures Turns(c, i, Frame(c, i))
  {
    hide Inv, Frame, LeftAfter, RightAfter, NothingActive, Entered, LoopEnds;
    if c.phases.lLoop != 0 {
      LeftLoopTurns(c, i);
    }
    if c.phases.rLoop != 0 {
      RightLoopTurns(c, i);
    }
    if NothingActive(c) {
      IdleTurns(c, i);
    }
  }

  lemma FrameFacts(c: Car, i: Input)
    requires WellFormed(i)
    ensures Inv(c) ==> Inv(Frame(c, i))
    ensures Inv(c) && !i.reset ==> LoopsMoved(c, i.travel, Frame(c, i))
    ensures Inv(c) && !i.reset && i.eleEnable ==> Turns(c, i, Frame(c, i))
    ensures Inv(c) && RampDriven(i, i.travel) && c.phases.ramp != 0 ==> RampMoved(c, i.travel, Frame(c, i))
  {
    hide Inv, Frame, LoopMoves, RampMoves, RampDriven, Turns;
    if Inv(c) {
      FrameKeeps(c, i);
      if !i.reset && i.eleEnable {
        FrameTurns(c, i);
      }
      if !i.reset {
        LoopFrame(c, i, true);
        LoopFrame(c, i, false);
      }
      if RampDriven(i, i.travel) && c.phases.ramp != 0 {
        RampFrame(c, i, i.travel);
      }
    }
  }

  lemma InputAt(ins: seq<Input>, k: nat)
    requires Inputs(ins) && k < |ins|
    ensures WellFormed(ins[k])
  {
  }

  lemma OneActive(c: Car)
    ensures Inv(c) ==> Active(c) <= 1 && c.en == OwnEnables(c)
  {
  }
}
