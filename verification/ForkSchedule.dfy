/** The fork schedule of the racing firmware: which branch each fork takes. */
module ForkSchedule {

  // state 0: looking for a fork, 1: before it, 2: in it. completed counts the forks left since the
  // last reset; the firmware does not store it.
  datatype Fork = Fork(num: nat, state: int, dir: int, dist: real, completed: nat)

  // reached tells whether this frame gets to the fork code at all.
  datatype Input = Input(reset: bool, reached: bool, travel: real, seen: bool,
                         stillAfterRight: bool, stillAfterLeft: bool, leftStartRow: int, rightStartRow: int)

  const INITIAL := Fork(0, 0, 0, 0.0, 0)

  function Leave(f: Fork): Fork {
    f.(state := 0, dist := 0.0, dir := if f.num % 2 == 0 then (if f.dir == 0 then 1 else 0) else f.dir,
       completed := f.completed + 1)
  }

  function Branch(f: Fork, startRow: int, still: bool): Fork {
    var f := if f.state == 1 && startRow < 75 && f.dist > 10.0 then f.(state := 2, dist := 0.0) else f;
    if f.state == 2 && !still && startRow > 105 && f.dist > 10.0 then Leave(f) else f
  }

  function Step(f: Fork, i: Input): Fork {
    var f := if i.reset then f.(num := 0, state := 0, dir := 0, completed := 0) else f;
    if !i.reached then f else
      var f := if f.state == 0 && (i.seen || (f.num % 2 == 1 && f.dist > 155.0))
               then f.(num := f.num + 1, state := 1, dist := 0.0) else f;
      if f.state == 1 || f.state == 2 then
        var f := if f.dir == 1 then Branch(f, i.leftStartRow, i.stillAfterRight) else f;
        if f.dir == 0 then Branch(f, i.rightStartRow, i.stillAfterLeft) else f
      else f
  }

  function Frame(f: Fork, i: Input): Fork {
    Step(f.(dist := f.dist + i.travel), i)
  }

  ghost function Run(f: Fork, ins: seq<Input>): Fork {
    if ins == [] then f else Frame(Run(f, ins[..|ins| - 1]), ins[|ins| - 1])
  }

  // The numbers of forks entered and left differ by one exactly inside a fork, and the branch
  // changes sides after every second fork.
  predicate Inv(f: Fork) {
    && 0 <= f.state <= 2
    && f.num == f.completed + (if f.state != 0 then 1 else 0)
    && f.dir == (f.completed / 2) % 2
  }

  // One frame leaves at most one fork, and none that it entered.
  lemma FrameKeeps(f: Fork, i: Input)
    requires Inv(f)
    ensures Inv(Frame(f, i))
    ensures !i.reset ==> f.completed <= Frame(f, i).completed <= f.completed + 1
    ensures !i.reset && f.state == 0 ==> Frame(f, i).completed == f.completed
    ensures !i.reset && Frame(f, i).num > f.num ==> f.state == 0 && Frame(f, i).state == 1
    ensures !i.reset && Frame(f, i).completed > f.completed ==> f.state == 2 && Frame(f, i).state == 0
  {
    var g := f.(dist := f.dist + i.travel);
    var h := if i.reset then g.(num := 0, state := 0, dir := 0, completed := 0) else g;
    var n := h.completed;
    assert n % 2 == 0 ==> (n + 1) / 2 == n / 2;
    assert n % 2 == 1 ==> (n + 1) / 2 == n / 2 + 1;
  }

  // When a frame without a reset moves a fork on: one is entered when it is seen, or 155 units after the
  // last odd one; its branch begins when the edge opposite to it starts above row 75, 10 units on; it is
  // left when it is out of sight and that edge starts below row 105, another 10 units on.
  lemma ForkTurns(f: Fork, i: Input)
    requires Inv(f) && !i.reset
    ensures var g, dist := Frame(f, i), f.dist + i.travel;
            var row := if f.dir == 1 then i.leftStartRow else i.rightStartRow;
            var still := if f.dir == 1 then i.stillAfterRight else i.stillAfterLeft;
            var enters := i.reached && f.state == 0 && (i.seen || (f.num % 2 == 1 && dist > 155.0));
            var begins := i.reached && f.state == 1 && row < 75 && dist > 10.0;
            var leaves := i.reached && f.state == 2 && !still && row > 105 && dist > 10.0;
            && g.state == (if enters then 1 else if begins then 2 else if leaves then 0 else f.state)
            && g.num == f.num + (if enters then 1 else 0)
            && g.dist == (if enters || begins || leaves then 0.0 else dist)
            && g.dir == if leaves && f.num % 2 == 0 then 1 - f.dir else f.dir
  {
  }

  // A reset is as if there had been no fork yet.
  lemma ResetTurns(f: Fork, i: Input)
    requires i.reset
    ensures Frame(f, i) == Frame(Fork(0, 0, 0, f.dist, 0), i.(reset := false))
  {
  }

  lemma {:induction false} RunKeeps(ins: seq<Input>)
    ensures Inv(Run(INITIAL, ins))
  {
    if ins != [] {
      RunKeeps(ins[..|ins| - 1]);
      FrameKeeps(Run(INITIAL, ins[..|ins| - 1]), ins[|ins| - 1]);
    }
  }

  // While in its n-th fork since the reset, the car keeps left for n = 1, 2, right for 3, 4, and so on.
  lemma BranchOfFork(ins: seq<Input>)
    ensures var f := Run(INITIAL, ins); f.state != 0 ==> (f.dir == 0 <==> f.num % 4 == 1 || f.num % 4 == 2)
  {
    RunKeeps(ins);
    var f := Run(INITIAL, ins);
    QuarterTurn(f.completed);
    hide Run;
  }

  lemma QuarterTurn(n: nat)
    ensures (n / 2) % 2 == 0 <==> (n + 1) % 4 == 1 || (n + 1) % 4 == 2
  {
    var q, r := n / 4, n % 4;
    assert n == 4 * q + r;
    assert n / 2 == 2 * q + r / 2;
  }

  // Leaving in the right-hand branch can turn the direction within the frame; the left-hand branch,
  // tried next, then finds the fork already left.
  lemma FallThrough(f: Fork, i: Input)
    requires Inv(f) && f.state == 2 && f.dir == 1 && !i.reset && i.reached
    requires Branch(f.(dist := f.dist + i.travel), i.leftStartRow, i.stillAfterRight).state == 0
    ensures Frame(f, i) == Leave(f.(dist := f.dist + i.travel))
    ensures f.num % 2 == 0 ==> Frame(f, i).dir == 0
  {
  }

  class Forks {
    var fork: Fork

    constructor ()
      ensures fork == INITIAL
    {
      fork := INITIAL;
    }

    method BranchPart(startRow: int, still: bool)
      modifies this
      ensures fork == Branch(old(fork), startRow, still)
    {
      if fork.state == 1 {
        if startRow < 75 && fork.dist > 10.0 {
          fork := fork.(state := 2, dist := 0.0);
        }
      }
      if fork.state == 2 && !still {
        if startRow > 105 && fork.dist > 10.0 {
          fork := fork.(state := 0, completed := fork.completed + 1);
          if fork.num % 2 == 0 {
            fork := fork.(dir := if fork.dir == 0 then 1 else 0);
          }
          fork := fork.(dist := 0.0);
        }
      }
    }

    method FindForks(i: Input)
      modifies this
      ensures fork == Step(old(fork), i)
      ensures Inv(old(fork)) ==> Inv(fork)
    {
      if Inv(fork) {
        FrameKeeps(fork, i.(travel := 0.0));
        assert fork.(dist := fork.dist + 0.0) == fork;
      }
      hide Inv;
      if i.reset {
        fork := fork.(num := 0, state := 0, dir := 0, completed := 0);
      }
      if i.reached {
        if fork.state == 0 {
          if i.seen || (fork.num % 2 == 1 && fork.dist > 155.0) {
            fork := fork.(num := fork.num + 1, state := 1, dist := 0.0);
          }
        }
        if fork.state == 1 || fork.state == 2 {
          if fork.dir == 1 {
            BranchPart(i.leftStartRow, i.stillAfterRight);
          }
          if fork.dir == 0 {
            BranchPart(i.rightStartRow, i.stillAfterLeft);
          }
        }
      }
    }
  }
}
