/** The stop detector: how many of the last 19 frames showed a black road. */
module StopWindow {

  function Bit(b: bool): int {
    if b then 1 else 0
  }

  // Marked entries among r[lo..hi].
  function Marks(r: seq<int>, lo: nat, hi: nat): (n: nat)
    requires lo <= hi <= |r|
    decreases hi - lo
  {
    if lo == hi then 0 else Marks(r, lo + 1, hi) + if r[lo] != 0 then 1 else 0
  }

  // The register after one more frame.
  function Shifted(r: seq<int>, black: bool): (s: seq<int>)
    requires |r| == 20
    ensures |s| == 20
  {
    [Bit(black), Bit(black)] + r[1..19]
  }

  function Flag(r: seq<int>): int
    requires |r| == 20
  {
    if Marks(r, 1, 20) >= 8 then 1 else 0
  }

  // The register after a run of frames from the cleared one.
  function Register(history: seq<bool>): (r: seq<int>)
    ensures |r| == 20
  {
    if history == [] then seq(20, _ => 0)
    else Shifted(Register(history[..|history| - 1]), history[|history| - 1])
  }

  function Blacks(history: seq<bool>): nat {
    if history == [] then 0 else Blacks(history[1..]) + if history[0] then 1 else 0
  }

  // The last 19 frames, or all of them.
  function Recent(history: seq<bool>): seq<bool> {
    if |history| <= 19 then history else history[|history| - 19..]
  }

  lemma {:induction false} RegisterHolds(history: seq<bool>)
    ensures forall k :: 1 <= k < 20 ==>
      Register(history)[k] == if k <= |history| then Bit(history[|history| - k]) else 0
  {
    if history != [] {
      var n := |history| - 1;
      RegisterHolds(history[..n]);
      var r, was := Register(history), Register(history[..n]);
      assert r == Shifted(was, history[n]);
      assert forall k :: 2 <= k < 20 ==> r[k] == was[k - 1];
    }
  }

  lemma {:induction false} BlacksAppend(history: seq<bool>, b: bool)
    ensures Blacks(history + [b]) == Blacks(history) + if b then 1 else 0
  {
    if history == [] {
    } else {
      assert (history + [b])[1..] == history[1..] + [b];
      BlacksAppend(history[1..], b);
    }
  }

  // Entries k and up of the register count the frames further back.
  lemma {:induction false} MarksAreBlacks(history: seq<bool>, k: nat)
    requires 1 <= k <= 20
    ensures Marks(Register(history), k, 20)
         == if k > |history| then 0 else Blacks(Recent(history)[..|Recent(history)| - k + 1])
    decreases 20 - k
  {
    RegisterHolds(history);
    if k < 20 {
      MarksAreBlacks(history, k + 1);
      if k <= |history| {
        var r := Recent(history);
        var n := |r| - k;
        assert r[..n + 1] == r[..n] + [r[n]];
        BlacksAppend(r[..n], r[n]);
        assert r[n] == history[|history| - k];
      }
    } else if |history| >= 20 {
      assert Recent(history)[..0] == [];
    }
  }

  // From the cleared register the flag is set exactly when at least 8 of the last 19 frames,
  // the current one included, were black.
  lemma SlidingWindow(history: seq<bool>)
    ensures Flag(Register(history)) == 1 <==> Blacks(Recent(history)) >= 8
  {
    MarksAreBlacks(history, 1);
    assert Recent(history)[..|Recent(history)|] == Recent(history);
  }

  lemma ShiftedAt(r: seq<int>, black: bool)
    requires |r| == 20
    ensures var s := Shifted(r, black);
            && s[0] == (if black then 1 else 0) && s[1] == s[0]
            && forall k :: 2 <= k < 20 ==> s[k] == r[k - 1]
  {
  }

  lemma MarksStep(r: seq<int>, lo: nat)
    requires lo <= |r| == 20
    ensures Marks(r, lo, 20) == if lo == 20 then 0 else Marks(r, lo + 1, 20) + if r[lo] != 0 then 1 else 0
  {
  }

  lemma FlagIs(r: seq<int>)
    requires |r| == 20
    ensures Flag(r) == if Marks(r, 1, 20) >= 8 then 1 else 0
  {
  }

  class StopJudge {
    const stopCarReg: array<int>
    var stopCarFlag: int

    constructor ()
      ensures stopCarReg[..] == Register([]) && fresh(stopCarReg)
    {
      stopCarReg := new int[20](_ => 0);
      stopCarFlag := 0;
    }

    method Judge(black: bool)
      requires stopCarReg.Length == 20
      modifies this, stopCarReg
      ensures stopCarReg[..] == Shifted(old(stopCarReg[..]), black)
      ensures stopCarFlag == Flag(stopCarReg[..])
    {
      hide *;
      ghost var was := stopCarReg[..];
      ghost var now := Shifted(was, black);
      ShiftedAt(was, black);
      stopCarFlag := 0;
      stopCarReg[0] := 0;
      if black {
        stopCarReg[0] := 1;
      }
      var stopCount := 0;
      MarksStep(now, 20);
      var i := 19;
      while i >= 1
        invariant 0 <= i <= 19 && stopCarFlag == 0
        invariant stopCarReg[0] == now[0]
        invariant forall k :: 1 <= k <= i ==> stopCarReg[k] == was[k]
        invariant forall k :: i < k < 20 ==> stopCarReg[k] == now[k]
        invariant stopCount == Marks(now, i + 1, 20)
      {
        MarksStep(now, i);
        stopCarReg[i] := stopCarReg[i - 1];
        if stopCarReg[i] != 0 {
          stopCount := stopCount + 1;
        }
        i := i - 1;
      }
      assert stopCarReg[..] == now;
      FlagIs(now);
      if stopCount >= 8 {
        stopCarFlag := 1;
      }
    }
  }
}
