/** Share of rows on which the track edges were lost, or were found. */
module LineFlags {

  // Mode 0 looks at the left edge, mode 1 at the right one, any other at both together.
  predicate Lost(mode: int, left: int, right: int) {
    if mode == 0 then left == 0 else if mode == 1 then right == 0 else left == 0 && right == 0
  }

  predicate Kept(mode: int, left: int, right: int) {
    if mode == 0 then left == 1 else if mode == 1 then right == 1 else left == 1 && right == 1
  }

  function CountLost(left: seq<int>, right: seq<int>, lo: nat, hi: nat, mode: int): (n: nat)
    requires lo <= hi <= |left| && hi <= |right|
  {
    if lo == hi then 0
    else CountLost(left, right, lo, hi - 1, mode) + if Lost(mode, left[hi - 1], right[hi - 1]) then 1 else 0
  }

  function CountKept(left: seq<int>, right: seq<int>, lo: nat, hi: nat, mode: int): (n: nat)
    requires lo <= hi <= |left| && hi <= |right|
  {
    if lo == hi then 0
    else CountKept(left, right, lo, hi - 1, mode) + if Kept(mode, left[hi - 1], right[hi - 1]) then 1 else 0
  }

  predicate IsLose(left: seq<int>, right: seq<int>, start: nat, end: nat, mode: int, threshold: int)
    requires start <= |left| && end <= |left| && |left| == |right|
  {
    var (lo, hi) := if start > end then (end, start) else (start, end);
    lo < hi && CountLost(left, right, lo, hi, mode) * 100 / (hi - lo) >= threshold
  }

  predicate IsNonlose(left: seq<int>, right: seq<int>, start: nat, end: nat, mode: int, threshold: int)
    requires start <= |left| && end <= |left| && |left| == |right|
  {
    var (lo, hi) := if start > end then (end, start) else (start, end);
    lo < hi && CountKept(left, right, lo, hi, mode) * 100 / (hi - lo) >= threshold
  }

  method IsLRLose(left: array<int>, right: array<int>, start: nat, end: nat, mode: int, threshold: int)
    returns (r: bool)
    requires start <= left.Length && end <= left.Length && left.Length == right.Length
    ensures r == IsLose(left[..], right[..], start, end, mode, threshold)
  {
    if start == end {
      return false;
    }
    var lo, hi := start, end;
    if start > end {
      lo, hi := end, start;
    }
    var lostCnt, totalCnt := 0, 0;
    for i := lo to hi
      invariant totalCnt == i - lo
      invariant lostCnt == CountLost(left[..], right[..], lo, i, mode)
    {
      totalCnt := totalCnt + 1;
      if mode == 0 {
        if left[i] == 0 { lostCnt := lostCnt + 1; }
      } else if mode == 1 {
        if right[i] == 0 { lostCnt := lostCnt + 1; }
      } else {
        if left[i] == 0 && right[i] == 0 { lostCnt := lostCnt + 1; }
      }
    }
    r := lostCnt * 100 / totalCnt >= threshold;
  }

  method IsLRNonlose(left: array<int>, right: array<int>, start: nat, end: nat, mode: int, threshold: int)
    returns (r: bool)
    requires start <= left.Length && end <= left.Length && left.Length == right.Length
    ensures r == IsNonlose(left[..], right[..], start, end, mode, threshold)
  {
    if start == end {
      return false;
    }
    var lo, hi := start, end;
    if start > end {
      lo, hi := end, start;
    }
    var nonlostCnt, totalCnt := 0, 0;
    for i := lo to hi
      invariant totalCnt == i - lo
      invariant nonlostCnt == CountKept(left[..], right[..], lo, i, mode)
    {
      totalCnt := totalCnt + 1;
      if mode == 0 {
        if left[i] == 1 { nonlostCnt := nonlostCnt + 1; }
      } else if mode == 1 {
        if right[i] == 1 { nonlostCnt := nonlostCnt + 1; }
      } else {
        if left[i] == 1 && right[i] == 1 { nonlostCnt := nonlostCnt + 1; }
      }
    }
    r := nonlostCnt * 100 / totalCnt >= threshold;
  }

  lemma {:induction false} CountsSplit(left: seq<int>, right: seq<int>, lo: nat, mid: nat, hi: nat, mode: int)
    requires lo <= mid <= hi <= |left| && hi <= |right|
    ensures CountLost(left, right, lo, hi, mode)
         == CountLost(left, right, lo, mid, mode) + CountLost(left, right, mid, hi, mode)
    ensures CountKept(left, right, lo, hi, mode)
         == CountKept(left, right, lo, mid, mode) + CountKept(left, right, mid, hi, mode)
  {
    if mid < hi {
      CountsSplit(left, right, lo, mid, hi - 1, mode);
    }
  }

  // In terms of the rows themselves: a share of them, whichever end comes first, and none of no rows.
  lemma LoseIff(left: seq<int>, right: seq<int>, start: nat, end: nat, mode: int, threshold: int)
    requires start <= |left| && end <= |left| && |left| == |right|
    ensures IsLose(left, right, start, end, mode, threshold) <==>
              var (lo, hi) := if start > end then (end, start) else (start, end);
              var rows := set k | lo <= k < hi && (mode != 1 ==> left[k] == 0) && (mode != 0 ==> right[k] == 0);
              start != end && 100 * |rows| >= threshold * (hi - lo)
  {
    var (lo, hi) := if start > end then (end, start) else (start, end);
    LostRows(left, right, lo, hi, mode);
    if lo < hi {
      ShareIff(CountLost(left, right, lo, hi, mode) * 100, hi - lo, threshold);
    }
  }

  lemma NonloseIff(left: seq<int>, right: seq<int>, start: nat, end: nat, mode: int, threshold: int)
    requires start <= |left| && end <= |left| && |left| == |right|
    ensures IsNonlose(left, right, start, end, mode, threshold) <==>
              var (lo, hi) := if start > end then (end, start) else (start, end);
              var rows := set k | lo <= k < hi && (mode != 1 ==> left[k] == 1) && (mode != 0 ==> right[k] == 1);
              start != end && 100 * |rows| >= threshold * (hi - lo)
  {
    var (lo, hi) := if start > end then (end, start) else (start, end);
    KeptRows(left, right, lo, hi, mode);
    if lo < hi {
      ShareIff(CountKept(left, right, lo, hi, mode) * 100, hi - lo, threshold);
    }
  }

  lemma ShareIff(x: nat, n: int, threshold: int)
    requires n > 0
    ensures x / n >= threshold <==> x >= threshold * n
  {
    var q, r := x / n, x % n;
    assert x == n * q + r;
    if q >= threshold {
      assert n * q >= n * threshold;
    } else {
      assert n * q <= n * (threshold - 1);
    }
  }

  lemma {:induction false} LostRows(left: seq<int>, right: seq<int>, lo: nat, hi: nat, mode: int)
    requires lo <= hi <= |left| && hi <= |right|
    ensures CountLost(left, right, lo, hi, mode)
         == |set k | lo <= k < hi && (mode != 1 ==> left[k] == 0) && (mode != 0 ==> right[k] == 0)|
  {
    var rows := set k | lo <= k < hi && (mode != 1 ==> left[k] == 0) && (mode != 0 ==> right[k] == 0);
    if lo < hi {
      LostRows(left, right, lo, hi - 1, mode);
      var rest := set k | lo <= k < hi - 1 && (mode != 1 ==> left[k] == 0) && (mode != 0 ==> right[k] == 0);
      assert rows == if Lost(mode, left[hi - 1], right[hi - 1]) then rest + {hi - 1} else rest;
    } else {
      assert rows == {};
    }
  }

  lemma {:induction false} KeptRows(left: seq<int>, right: seq<int>, lo: nat, hi: nat, mode: int)
    requires lo <= hi <= |left| && hi <= |right|
    ensures CountKept(left, right, lo, hi, mode)
         == |set k | lo <= k < hi && (mode != 1 ==> left[k] == 1) && (mode != 0 ==> right[k] == 1)|
  {
    var rows := set k | lo <= k < hi && (mode != 1 ==> left[k] == 1) && (mode != 0 ==> right[k] == 1);
    if lo < hi {
      KeptRows(left, right, lo, hi - 1, mode);
      var rest := set k | lo <= k < hi - 1 && (mode != 1 ==> left[k] == 1) && (mode != 0 ==> right[k] == 1);
      assert rows == if Kept(mode, left[hi - 1], right[hi - 1]) then rest + {hi - 1} else rest;
    } else {
      assert rows == {};
    }
  }

  // No row counts both as lost and as found.
  lemma {:induction false} CountsDisjoint(left: seq<int>, right: seq<int>, lo: nat, hi: nat, mode: int)
    requires lo <= hi <= |left| && hi <= |right|
    ensures CountLost(left, right, lo, hi, mode) + CountKept(left, right, lo, hi, mode) <= hi - lo
  {
    if lo < hi {
      CountsDisjoint(left, right, lo, hi - 1, mode);
    }
  }

  // Losing the left edge on 90% of rows 90..117 leaves too few rows among 80..109 to find it on 80%.
  lemma LoseExcludesNonlose(left: seq<int>, right: seq<int>)
    requires |left| == |right| == 120 && IsLose(left, right, 90, 118, 0, 90)
    ensures !IsNonlose(left, right, 80, 110, 0, 80)
  {
    CountsSplit(left, right, 90, 110, 118, 0);
    CountsSplit(left, right, 80, 90, 110, 0);
    CountsDisjoint(left, right, 80, 90, 0);
    CountsDisjoint(left, right, 90, 110, 0);
    CountsDisjoint(left, right, 110, 118, 0);
  }
}
