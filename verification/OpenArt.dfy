/** The command parser of the receive interrupt, which fills the mailbox. */
module OpenArt {
  import Mailbox
  import opened Framing

  // What scanning the text for "number,number" found.
  datatype Scan = Two(n: int, conf: int) | One(n: int) | None

  // A number, and the text after it.
  datatype Leading = Leading(n: int, rest: seq<Byte>) | NoNumber

  // The acknowledgement, as the parser spells it: its newline included.
  const OK: seq<Byte> := [111, 107, 10]

  // The buffer read as a C string.
  function CString(line: seq<Byte>): seq<Byte> {
    if line == [] || line[0] == 0 then [] else [line[0]] + CString(line[1..])
  }

  // ---------------------------------------------------------------------------------------
  // Scanning decimal numbers
  // ---------------------------------------------------------------------------------------

  const COMMA: Byte := 44
  const PLUS: Byte := 43
  const MINUS: Byte := 45

  predicate IsDigit(b: Byte) {
    48 <= b <= 57
  }

  predicate IsSpace(b: Byte) {
    b == 32 || 9 <= b <= 13
  }

  function SkipSpaces(s: seq<Byte>): seq<Byte> {
    if s != [] && IsSpace(s[0]) then SkipSpaces(s[1..]) else s
  }

  // The digits at the front continue the number read so far.
  function ReadDigits(s: seq<Byte>, n: nat): (nat, seq<Byte>) {
    if s != [] && IsDigit(s[0]) then ReadDigits(s[1..], 10 * n + (s[0] - 48)) else (n, s)
  }

  // Leading spaces, a sign perhaps, and at least one digit.
  function ScanNumber(text: seq<Byte>): Leading {
    var s := SkipSpaces(text);
    var signed := s != [] && (s[0] == PLUS || s[0] == MINUS);
    var t := if signed then s[1..] else s;
    if t == [] || !IsDigit(t[0]) then NoNumber
    else
      var (n, rest) := ReadDigits(t, 0);
      Leading(if signed && s[0] == MINUS then 0 - n as int else n, rest)
  }

  // A number, and, if a comma follows directly, a second one.
  function ScanPair(text: seq<Byte>): Scan {
    match ScanNumber(text)
    case NoNumber => None
    case Leading(n, rest) =>
      if rest == [] || rest[0] != COMMA then One(n)
      else match ScanNumber(rest[1..])
        case Leading(conf, _) => Two(n, conf)
        case NoNumber => One(n)
  }

  // A number as it is written.
  function Digits(n: nat): (s: seq<Byte>)
    ensures s != [] && forall k :: 0 <= k < |s| ==> IsDigit(s[k])
  {
    if n < 10 then [48 + n] else Digits(n / 10) + [48 + n % 10]
  }

  function Written(n: int): seq<Byte> {
    if n < 0 then [MINUS] + Digits(-n) else Digits(n)
  }

  predicate EndsNumber(rest: seq<Byte>) {
    rest == [] || !IsDigit(rest[0])
  }

  lemma {:induction false} ReadWritten(n: nat, rest: seq<Byte>)
    ensures ReadDigits(Digits(n) + rest, 0) == ReadDigits(rest, n)
  {
    if n < 10 {
      assert ([48 + n] + rest)[1..] == rest;
    } else {
      var d: Byte := 48 + n % 10;
      ReadWritten(n / 10, [d] + rest);
      assert Digits(n / 10) + [d] + rest == Digits(n / 10) + ([d] + rest);
      assert ([d] + rest)[1..] == rest;
    }
  }

  // Scanning a written number gives it back.
  lemma ScanWritten(n: int, rest: seq<Byte>)
    requires EndsNumber(rest)
    ensures ScanNumber(Written(n) + rest) == Leading(n, rest)
  {
    hide Digits, ReadDigits;
    var m: nat := if n < 0 then -n else n;
    ReadWritten(m, rest);
    ReadEnds(m, rest);
    var s := Written(n) + rest;
    assert s[if n < 0 then 1 else 0..] == Digits(m) + rest;
    assert SkipSpaces(s) == s;
  }

  lemma ReadEnds(n: nat, rest: seq<Byte>)
    requires EndsNumber(rest)
    ensures ReadDigits(rest, n) == (n, rest)
  {
  }

  // A plus sign changes nothing, and spaces in front are skipped.
  lemma ScanPlus(n: nat, rest: seq<Byte>)
    requires EndsNumber(rest)
    ensures ScanNumber([PLUS] + Digits(n) + rest) == Leading(n, rest)
  {
    hide Digits, ReadDigits;
    ReadWritten(n, rest);
    ReadEnds(n, rest);
    var s := [PLUS] + Digits(n) + rest;
    assert s[1..] == Digits(n) + rest;
    assert SkipSpaces(s) == s;
  }

  lemma {:induction false} ScanSpaces(spaces: seq<Byte>, text: seq<Byte>)
    requires forall k :: 0 <= k < |spaces| ==> spaces[k] == 32 || 9 <= spaces[k] <= 13
    ensures ScanNumber(spaces + text) == ScanNumber(text)
  {
    if spaces == [] {
      assert spaces + text == text;
    } else {
      ScanSpaces(spaces[1..], text);
      assert (spaces + text)[1..] == spaces[1..] + text;
      assert IsSpace((spaces + text)[0]);
    }
  }

  // There is no number exactly if neither a digit nor a sign and a digit come first.
  lemma NoNumberIff(text: seq<Byte>)
    requires text == [] || !(text[0] == 32 || 9 <= text[0] <= 13)
    ensures ScanNumber(text).NoNumber? <==>
            && !(|text| >= 1 && 48 <= text[0] <= 57)
            && !(|text| >= 2 && (text[0] == 43 || text[0] == 45) && 48 <= text[1] <= 57)
  {
  }

  // A message of two numbers is read as these two numbers, one of a single number as that one.
  lemma ScanMessage(n: int, conf: int)
    ensures ScanPair(Written(n) + [COMMA] + Written(conf)) == Two(n, conf)
    ensures ScanPair(Written(n)) == One(n)
  {
    hide ScanNumber, Written;
    var rest := [COMMA] + Written(conf);
    ScanWritten(n, rest);
    ScanWritten(n, []);
    ScanWritten(conf, []);
    assert Written(n) + [COMMA] + Written(conf) == Written(n) + rest;
    assert Written(n) + [] == Written(n) && Written(conf) + [] == Written(conf);
    assert rest[1..] == Written(conf);
  }

  // ---------------------------------------------------------------------------------------
  // The acknowledgement
  // ---------------------------------------------------------------------------------------

  lemma {:induction false} CStringWithin(line: seq<Byte>)
    ensures forall b :: b in CString(line) ==> b in line
  {
    if line != [] && line[0] != 0 {
      CStringWithin(line[1..]);
    }
  }

  // It is the line up to its first zero byte.
  lemma {:induction false} CStringEnds(line: seq<Byte>)
    ensures CString(line) <= line && 0 !in CString(line)
    ensures |CString(line)| < |line| ==> line[|CString(line)|] == 0
  {
    if line != [] && line[0] != 0 {
      CStringEnds(line[1..]);
    }
  }

  lemma {:induction false} LinesHaveNoNewline(s: seq<Byte>)
    ensures forall l :: l in Lines(s) ==> NEWLINE !in l
  {
    var k := LineEnd(s);
    if k < |s| {
      LinesHaveNoNewline(s[k + 1..]);
    }
  }

  // The framing strips every newline, so no received line is ever the acknowledgement.
  lemma AckNeverMatches(s: seq<Byte>, l: seq<Byte>)
    requires l in Lines(s)
    ensures CString(l) != OK
  {
    LinesHaveNoNewline(s);
    CStringWithin(l);
    assert OK[2] == NEWLINE && NEWLINE in OK;
  }

  class Parser {
    var revNum: int
    var revConf: int
    var revEdMsg: bool
    var revOkFlag: bool
    var finishRegcoFlag: bool
    var regcoNum: int
    const revNumList: array<int>

    constructor ()
      ensures fresh(revNumList) && Shows(Mailbox.INITIAL)
    {
      revConf := 0;
      revNum, revEdMsg, revOkFlag, finishRegcoFlag, regcoNum := 0, false, false, false, Mailbox.NOTHING;
      revNumList := new int[10](k => if k == 0 then -1 else 0);
    }

    ghost predicate Shows(b: Mailbox.Box)
      reads this, revNumList
    {
      finishRegcoFlag == b.finish && regcoNum == b.num && revNumList[..] == b.list
    }

    method PushIntPull(newData: int)
      requires revNumList.Length > 0
      modifies revNumList
      ensures revNumList[..] == Mailbox.Pushed(old(revNumList[..]), newData)
    {
      ghost var was := revNumList[..];
      var i := revNumList.Length - 1;
      while i > 0
        invariant 0 <= i < revNumList.Length
        invariant forall k :: 0 <= k <= i ==> revNumList[k] == was[k]
        invariant forall k :: i < k < revNumList.Length ==> revNumList[k] == was[k - 1]
      {
        revNumList[i] := revNumList[i - 1];
        i := i - 1;
      }
      revNumList[0] := newData;
    }

    // A number fills a free slot in recognition mode and is dropped otherwise; numbers and confidence
    // are stored in any mode. What is left of a text without a number is an acknowledgement or nothing.
    method CmdParse(text: seq<Byte>, regco: bool, ghost b: Mailbox.Box)
      requires |b.list| == 10 && Shows(b)
      modifies this, revNumList
      ensures var scan := ScanPair(text);
              && Shows(if scan.None? then b else Mailbox.Accept(b, scan.n, regco))
              && revNum == (if scan.None? then old(revNum) else scan.n)
              && revConf == (if scan.Two? then scan.conf else old(revConf))
              && revEdMsg == (old(revEdMsg) || (!scan.None? && regco))
              && revOkFlag == (old(revOkFlag) || (text == OK && !(!scan.None? && regco)))
      ensures var scan := ScanPair(text);
              if !scan.None? && regco && !old(finishRegcoFlag)
              then finishRegcoFlag && regcoNum == scan.n && revNumList[..] == [scan.n] + old(revNumList[..])[..9]
              else finishRegcoFlag == old(finishRegcoFlag) && regcoNum == old(regcoNum)
                   && revNumList[..] == old(revNumList[..])
    {
      var scan := ScanPair(text);
      if !scan.None? {
        revNum := scan.n;
      }
      if scan.Two? {
        revConf := scan.conf;
      }
      if !scan.None? && regco {
        revEdMsg := true;
        if !finishRegcoFlag {
          PushIntPull(revNum);
          regcoNum := revNumList[0];
          finishRegcoFlag := true;
        }
      } else if text == OK {
        revOkFlag := true;
      }
    }
  }
}
