/** Line framing of the recogniser's serial stream: one byte per receive interrupt. */
module Framing {

  type Byte = b: int | 0 <= b < 256

  const NEWLINE: Byte := 10
  const MAXLEN: nat := 50

  // ---------------------------------------------------------------------------------------
  // Reference: splitting a stream at its newlines
  // ---------------------------------------------------------------------------------------

  // Where the first newline is, or the length of a stream without one.
  function LineEnd(s: seq<Byte>): (k: nat)
    ensures k <= |s| && (k < |s| ==> s[k] == NEWLINE) && NEWLINE !in s[..k]
  {
    if s == [] || s[0] == NEWLINE then 0
    else
      assert s[..1 + LineEnd(s[1..])] == [s[0]] + s[1..][..LineEnd(s[1..])];
      1 + LineEnd(s[1..])
  }

  function Lines(s: seq<Byte>): seq<seq<Byte>> {
    var k := LineEnd(s);
    if k == |s| then [] else [s[..k]] + Lines(s[k + 1..])
  }

  // What follows the last newline.
  function Tail(s: seq<Byte>): seq<Byte> {
    var k := LineEnd(s);
    if k == |s| then s else Tail(s[k + 1..])
  }

  function Unlines(lines: seq<seq<Byte>>): seq<Byte> {
    if lines == [] then [] else lines[0] + [NEWLINE] + Unlines(lines[1..])
  }

  lemma {:induction false} SplitInverse(s: seq<Byte>)
    ensures Unlines(Lines(s)) + Tail(s) == s && NEWLINE !in Tail(s)
  {
    var k := LineEnd(s);
    if k < |s| {
      var l, rest := s[..k], s[k + 1..];
      SplitInverse(rest);
      UnlinesCons(l, Lines(rest));
      assert Lines(s) == [l] + Lines(rest) && Tail(s) == Tail(rest);
      Reassemble(s, k, Unlines(Lines(rest)), Tail(rest));
    } else {
      assert s[..k] == s;
    }
  }

  lemma UnlinesCons(l: seq<Byte>, lines: seq<seq<Byte>>)
    ensures Unlines([l] + lines) == l + [NEWLINE] + Unlines(lines)
  {
    assert ([l] + lines)[1..] == lines;
  }

  lemma Reassemble(s: seq<Byte>, k: nat, u: seq<Byte>, t: seq<Byte>)
    requires k < |s| && s[k] == NEWLINE && u + t == s[k + 1..]
    ensures (s[..k] + [NEWLINE] + u) + t == s
  {
    assert (s[..k] + [NEWLINE] + u) + t == s[..k] + [NEWLINE] + (u + t);
  }

  lemma {:induction false} SplitOfJoin(lines: seq<seq<Byte>>, tail: seq<Byte>)
    requires NEWLINE !in tail && forall l :: l in lines ==> NEWLINE !in l
    ensures Lines(Unlines(lines) + tail) == lines && Tail(Unlines(lines) + tail) == tail
  {
    if lines == [] {
      assert Unlines(lines) + tail == tail;
      assert LineEnd(tail) == |tail|;
    } else {
      var s := Unlines(lines) + tail;
      var l, rest := lines[0], Unlines(lines[1..]) + tail;
      assert s == l + [NEWLINE] + rest;
      SplitFirst(l, rest);
      hide Lines, Tail;
      SplitOfJoin(lines[1..], tail);
    }
  }

  lemma {:induction false} EndAfter(l: seq<Byte>, rest: seq<Byte>)
    requires NEWLINE !in l
    ensures LineEnd(l + [NEWLINE] + rest) == |l|
  {
    var s := l + [NEWLINE] + rest;
    if l != [] {
      assert s[1..] == l[1..] + [NEWLINE] + rest;
      EndAfter(l[1..], rest);
    }
  }

  // Splitting at the first newline.
  lemma SplitFirst(l: seq<Byte>, rest: seq<Byte>)
    requires NEWLINE !in l
    ensures Lines(l + [NEWLINE] + rest) == [l] + Lines(rest) && Tail(l + [NEWLINE] + rest) == Tail(rest)
  {
    var s := l + [NEWLINE] + rest;
    EndAfter(l, rest);
    assert s[..|l|] == l && s[|l| + 1..] == rest;
  }

  lemma SplitNone(l: seq<Byte>)
    requires NEWLINE !in l
    ensures Lines(l) == [] && Tail(l) == l
  {
    assert LineEnd(l) == |l|;
  }

  // ---------------------------------------------------------------------------------------
  // Byte by byte
  // ---------------------------------------------------------------------------------------

  datatype Framer = Framer(partial: seq<Byte>, lines: seq<seq<Byte>>)

  function Feed(f: Framer, b: Byte): Framer {
    if b == NEWLINE then Framer([], f.lines + [f.partial]) else Framer(f.partial + [b], f.lines)
  }

  function FeedAll(f: Framer, s: seq<Byte>): Framer
    decreases |s|
  {
    if s == [] then f else FeedAll(Feed(f, s[0]), s[1..])
  }

  lemma {:induction false} FeedsSplit(f: Framer, s: seq<Byte>)
    requires NEWLINE !in f.partial
    ensures FeedAll(f, s) == Framer(Tail(f.partial + s), f.lines + Lines(f.partial + s))
    decreases |s|
  {
    hide Lines, Tail;
    var p := f.partial;
    if s == [] {
      assert p + s == p;
      SplitNone(p);
    } else {
      var b, rest := s[0], s[1..];
      FeedsSplit(Feed(f, b), rest);
      if b == NEWLINE {
        assert p + s == p + [NEWLINE] + rest && [] + rest == rest;
        SplitFirst(p, rest);
        assert f.lines + ([p] + Lines(rest)) == (f.lines + [p]) + Lines(rest);
      } else {
        assert (p + [b]) + rest == p + s;
      }
    }
  }

  // Every line that the stream completes leaves room for its terminator.
  ghost predicate Short(f: Framer, s: seq<Byte>)
    decreases |s|
  {
    s == [] || ((s[0] == NEWLINE ==> |f.partial| < MAXLEN) && Short(Feed(f, s[0]), s[1..]))
  }

  // ---------------------------------------------------------------------------------------
  // The interrupt handler
  // ---------------------------------------------------------------------------------------

  // What the buffer holds of an unfinished line: once it is full, the last cell takes every byte.
  function Kept(partial: seq<Byte>): seq<Byte> {
    if |partial| <= MAXLEN then partial else partial[..MAXLEN - 1] + [partial[|partial| - 1]]
  }

  class Receiver {
    const data: array<Byte>
    var i: nat
    // The line received so far, and the buffers handed to the command parser.
    ghost var partial: seq<Byte>
    ghost var parsed: seq<seq<Byte>>

    ghost predicate Valid()
      reads this, data
    {
      data.Length == MAXLEN && i <= MAXLEN && data[..i] == Kept(partial) && NEWLINE !in partial
    }

    constructor ()
      ensures Valid() && fresh(data) && partial == [] && parsed == []
    {
      data := new Byte[MAXLEN];
      i := 0;
      partial, parsed := [], [];
    }

    // The terminator lands inside the buffer exactly for lines of at most 49 bytes; the model
    // leaves a longer line unfinished, where the firmware writes past the buffer.
    method OpenartCallback(rxIdle: bool, b: Byte) returns (inside: bool)
      requires Valid()
      modifies this, data
      ensures Valid()
      ensures inside <==> !(rxIdle && b == NEWLINE && |old(partial)| >= MAXLEN)
      ensures inside && rxIdle ==> Framer(partial, parsed) == Feed(old(Framer(partial, parsed)), b)
      ensures !inside || !rxIdle ==> partial == old(partial) && parsed == old(parsed)
      ensures inside && rxIdle && b == NEWLINE ==>
        data[..|old(partial)|] == old(partial) && data[|old(partial)|] == 0 && i == 0
    {
      inside := true;
      if rxIdle {
        if b == NEWLINE {
          if i >= MAXLEN {
            return false;
          }
          data[i] := 0;
          assert data[..i] == old(data[..i]);
          parsed := parsed + [data[..i]];
          partial := [];
          i := 0;
        } else {
          ghost var was := data[..i];
          i := if i >= MAXLEN - 1 then MAXLEN - 1 else i;
          data[i] := b;
          i := i + 1;
          partial := partial + [b];
          assert data[..i] == was[..i - 1] + [b];
        }
      }
    }

    // Feeding a stream of short lines parses exactly its lines, in order.
    method ReceiveAll(stream: seq<Byte>)
      requires Valid() && Short(Framer(partial, []), stream)
      modifies this, data
      ensures Valid()
      ensures parsed == old(parsed) + Lines(old(partial) + stream)
      ensures partial == Tail(old(partial) + stream)
    {
      ghost var f0 := Framer(partial, parsed);
      FeedsSplit(f0, stream);
      var k := 0;
      while k < |stream|
        invariant k <= |stream| && Valid()
        invariant FeedAll(Framer(partial, parsed), stream[k..]) == FeedAll(f0, stream)
        invariant Short(Framer(partial, []), stream[k..])
      {
        ShortIgnoresLines(Feed(Framer(partial, []), stream[k]), Framer(Feed(Framer(partial, []), stream[k]).partial, []),
                          stream[k..][1..]);
        var inside := OpenartCallback(true, stream[k]);
        assert stream[k + 1..] == stream[k..][1..];
        k := k + 1;
      }
    }
  }

  lemma {:induction false} ShortIgnoresLines(f: Framer, g: Framer, s: seq<Byte>)
    requires f.partial == g.partial
    ensures Short(f, s) <==> Short(g, s)
    decreases |s|
  {
    if s != [] {
      ShortIgnoresLines(Feed(f, s[0]), Feed(g, s[0]), s[1..]);
    }
  }

  // In terms of the split stream: every line fits the buffer.
  lemma {:induction false} ShortIff(f: Framer, s: seq<Byte>)
    requires NEWLINE !in f.partial
    ensures Short(f, s) <==> Fits(Lines(f.partial + s))
    decreases |s|
  {
    ShortStep(f, s);
    hide Lines, Tail, Fits, Short;
    var p := f.partial;
    FitsNone();
    if s == [] {
      assert p + s == p;
      SplitNone(p);
    } else {
      var b, rest := s[0], s[1..];
      ShortIff(Feed(f, b), rest);
      if b == NEWLINE {
        assert p + s == p + [NEWLINE] + rest && [] + rest == rest;
        SplitFirst(p, rest);
        FitsCons(p, Lines(rest));
      } else {
        assert (p + [b]) + rest == p + s;
      }
    }
  }

  // One line fits exactly if it has at most 49 bytes; 50 bytes and a newline do not.
  lemma LongLine(l: seq<Byte>)
    requires NEWLINE !in l
    ensures Short(Framer([], []), l + [NEWLINE]) <==> |l| <= 49
    ensures !Short(Framer([], []), seq(50, _ => 65) + [NEWLINE])
  {
    OneLine(l);
    OneLine(seq(50, _ => 65));
  }

  lemma OneLine(l: seq<Byte>)
    requires NEWLINE !in l
    ensures Short(Framer([], []), l + [NEWLINE]) <==> |l| < MAXLEN
  {
    ShortIff(Framer([], []), l + [NEWLINE]);
    SplitFirst(l, []);
    SplitNone([]);
    FitsNone();
    FitsCons(l, []);
    hide Short, Lines, Tail, Fits;
    assert [] + (l + [NEWLINE]) == l + [NEWLINE] + [];
  }

  lemma ShortStep(f: Framer, s: seq<Byte>)
    ensures s == [] ==> Short(f, s)
    ensures s != [] ==>
      (Short(f, s) <==> ((s[0] == NEWLINE ==> |f.partial| < MAXLEN) && Short(Feed(f, s[0]), s[1..])))
  {
  }

  ghost predicate Fits(lines: seq<seq<Byte>>) {
    forall l :: l in lines ==> |l| < MAXLEN
  }

  lemma FitsNone()
    ensures Fits([])
  {
  }

  lemma FitsCons(l: seq<Byte>, lines: seq<seq<Byte>>)
    ensures Fits([l] + lines) <==> |l| < MAXLEN && Fits(lines)
  {
    assert forall k :: k in lines ==> k in [l] + lines;
  }
}
