/**
 * The one-slot mailbox between the recogniser's receive interrupt and the main loop. The main loop
 * reads the slot, acts, and clears flag and number in two separate writes; an interrupt may come
 * between any two of its accesses.
 */
module Mailbox {

  // Where the main loop stands: before the branch, having read the flag, comparing the number with
  // task k, carrying out task k, and between the two clearing writes.
  datatype Pc = Idle | SawFlag | Compare(k: int) | Acting(task: int) | FlagCleared

  const TASKS := 6
  const NOTHING := -1

  // accepted, offered and acted are history: all numbers taken into the slot, the numbers received
  // in recognition mode since the flag was last cleared, and the indices into accepted of the tasks
  // carried out.
  datatype Box = Box(finish: bool, num: int, list: seq<int>, pc: Pc,
                     accepted: seq<int>, offered: seq<int>, acted: seq<nat>)

  // A parsed number arrives, in recognition mode or not; or the main loop makes its next access.
  datatype Event = Receive(n: int, regco: bool) | MainStep(regco: bool)

  const INITIAL := Box(false, NOTHING, [-1, 0, 0, 0, 0, 0, 0, 0, 0, 0], Idle, [], [], [])

  predicate IsTask(n: int) {
    0 <= n < TASKS
  }

  function Pushed(list: seq<int>, n: int): (r: seq<int>)
    requires |list| > 0
    ensures |r| == |list|
  {
    [n] + list[..|list| - 1]
  }

  function Accept(b: Box, n: int, regco: bool): Box
    requires |b.list| == 10
  {
    if !regco then b
    else if b.finish then b.(offered := b.offered + [n])
    else b.(list := Pushed(b.list, n), num := n, finish := true,
            accepted := b.accepted + [n], offered := b.offered + [n])
  }

  function Access(b: Box, regco: bool): Box
    requires b.pc.Acting? ==> b.accepted != []
  {
    match b.pc
    case Idle => if regco && b.finish then b.(pc := SawFlag) else b
    case SawFlag => if b.num != NOTHING then b.(pc := Compare(0)) else b.(pc := Idle)
    case Compare(k) =>
      if b.num == k then b.(pc := Acting(k), acted := b.acted + [if |b.accepted| == 0 then 0 else |b.accepted| - 1])
      else if k + 1 < TASKS then b.(pc := Compare(k + 1)) else b.(pc := Idle)
    case Acting(_) => b.(finish := false, offered := [], pc := FlagCleared)
    case FlagCleared => b.(num := NOTHING, pc := Idle)
  }

  // Indices below n, each acted on once and in order.
  ghost predicate InOrder(acted: seq<nat>, n: nat) {
    && (forall j :: 0 <= j < |acted| ==> acted[j] < n)
    && (forall j, k :: 0 <= j < k < |acted| ==> acted[j] < acted[k])
  }

  ghost predicate Inv(b: Box) {
    && |b.list| == 10
    && (b.finish <==> b.offered != [])
    && (b.finish ==> b.accepted != [] && b.accepted[|b.accepted| - 1] == b.offered[0] && b.list[0] == b.offered[0])
    && (b.finish ==> b.num == b.offered[0] || (b.num == NOTHING && Wedged(b)))
    && (!b.pc.Idle? && !b.pc.FlagCleared? ==> b.finish)
    && (b.pc.Compare? ==> 0 <= b.pc.k < TASKS && (b.num < 0 || b.pc.k <= b.num))
    && (b.pc.Acting? ==> b.num == b.pc.task && IsTask(b.num) && b.acted != []
                         && b.acted[|b.acted| - 1] == |b.accepted| - 1)
    && InOrder(b.acted, |b.accepted|)
    // All accepted numbers but one waiting in the slot were acted on.
    && (b.acted != [] && b.finish && !b.pc.Acting? ==> b.acted[|b.acted| - 1] < |b.accepted| - 1)
    && |b.acted| == |b.accepted| - (if b.finish && !b.pc.Acting? then 1 else 0)
  }

  // The slot is taken for good: by a number without a task, or by one about to be wiped.
  predicate Wedged(b: Box) {
    b.finish && (b.pc.FlagCleared? || (!b.pc.Acting? && !IsTask(b.num)))
  }

  function Step(b: Box, e: Event): Box
    requires Inv(b)
  {
    match e
    case Receive(n, regco) => Accept(b, n, regco)
    case MainStep(regco) => Access(b, regco)
  }

  // Every step of either side keeps the invariant.
  lemma StepKeeps(b: Box, e: Event)
    requires Inv(b)
    ensures Inv(Step(b, e))
  {
    match e
    case Receive(n, regco) => AcceptKeeps(b, n, regco);
    case MainStep(regco) => AccessKeeps(b, regco);
  }

  lemma AcceptKeeps(b: Box, n: int, regco: bool)
    requires Inv(b)
    ensures Inv(Accept(b, n, regco))
  {
    InOrderGrows(b.acted, |b.accepted|);
    hide InOrder;
  }

  lemma AccessKeeps(b: Box, regco: bool)
    requires Inv(b)
    ensures Inv(Access(b, regco))
  {
    hide InOrder, IsTask;
    if b.pc.Compare? && b.num == b.pc.k {
      TaskStarts(b);
    } else {
      NoTaskStarts(b, regco);
    }
  }

  lemma TaskStarts(b: Box)
    requires Inv(b) && b.pc.Compare? && b.num == b.pc.k
    ensures Inv(Access(b, true)) && Access(b, true) == Access(b, false)
  {
    InOrderAppend(b.acted, |b.accepted|);
    hide InOrder;
  }

  lemma NoTaskStarts(b: Box, regco: bool)
    requires Inv(b) && !(b.pc.Compare? && b.num == b.pc.k)
    ensures Inv(Access(b, regco))
  {
    hide InOrder;
  }

  lemma InOrderGrows(acted: seq<nat>, n: nat)
    requires InOrder(acted, n)
    ensures InOrder(acted, n + 1)
  {
  }

  lemma InOrderAppend(acted: seq<nat>, n: nat)
    requires InOrder(acted, n) && n > 0 && (acted != [] ==> acted[|acted| - 1] < n - 1)
    ensures InOrder(acted + [n - 1], n)
  {
  }

  ghost function Run(b: Box, es: seq<Event>): (r: Box)
    requires Inv(b)
    ensures Inv(r)
  {
    if es == [] then b
    else
      StepKeeps(Run(b, es[..|es| - 1]), es[|es| - 1]);
      Step(Run(b, es[..|es| - 1]), es[|es| - 1])
  }

  // An interrupt leaves a full slot alone.
  lemma SlotHeld(b: Box, n: int, regco: bool)
    requires Inv(b) && b.finish
    ensures var c := Step(b, Receive(n, regco));
            c.num == b.num && c.list == b.list && c.accepted == b.accepted && c.finish
  {
  }

  // Whatever the interleaving: a task is carried out for the first number received since the flag
  // was last cleared, which is the last one accepted, and no accepted number is acted on twice.
  lemma TasksAreFirstOffers(b: Box, es: seq<Event>)
    requires Inv(b)
    ensures var c := Run(b, es);
            && (c.pc.Acting? ==> c.offered != [] && c.pc.task == c.offered[0]
                                 && c.acted != [] && c.accepted[c.acted[|c.acted| - 1]] == c.pc.task)
            && (forall j, k :: 0 <= j < k < |c.acted| ==> c.acted[j] != c.acted[k])
  {
  }

  // The mailbox starts empty.
  lemma InitialInv()
    ensures Inv(INITIAL) && !Wedged(INITIAL) && !INITIAL.finish
  {
  }

  // A wedged mailbox stays so: it accepts nothing, acts on nothing, and keeps its flag.
  lemma {:induction false} WedgedForever(b: Box, es: seq<Event>)
    requires Inv(b) && Wedged(b)
    ensures var c := Run(b, es);
            Wedged(c) && c.finish && c.accepted == b.accepted && c.acted == b.acted
  {
    if es != [] {
      hide *;
      WedgedForever(b, es[..|es| - 1]);
      RunLast(b, es);
      WedgedStep(Run(b, es[..|es| - 1]), es[|es| - 1]);
    }
  }

  lemma WedgedStep(b: Box, e: Event)
    requires Inv(b) && Wedged(b)
    ensures var c := Step(b, e);
            Wedged(c) && c.finish && c.accepted == b.accepted && c.acted == b.acted
  {
    StepKeeps(b, e);
  }

  // The mailbox is wedged exactly when some number was accepted that has no task, or between the
  // main loop's two clearing writes.
  ghost predicate Spoils(b: Box, e: Event)
    requires Inv(b)
  {
    e.Receive? && e.regco && !b.finish && (b.pc.FlagCleared? || !IsTask(e.n))
  }

  lemma SpoiledStep(b: Box, e: Event)
    requires Inv(b)
    ensures Wedged(Step(b, e)) <==> Wedged(b) || Spoils(b, e)
  {
    StepKeeps(b, e);
  }

  // The k-th event of a run spoils the mailbox.
  ghost predicate SpoilsAt(b: Box, es: seq<Event>, k: int)
    requires Inv(b)
  {
    0 <= k < |es| && Spoils(Run(b, es[..k]), es[k])
  }

  lemma SpoilsPrefix(b: Box, es: seq<Event>)
    requires Inv(b) && es != []
    ensures var n := |es| - 1;
            && (forall k :: SpoilsAt(b, es[..n], k) ==> SpoilsAt(b, es, k) && 0 <= k < n)
            && (forall k :: SpoilsAt(b, es, k) ==> SpoilsAt(b, es[..n], k) || k == n)
            && (SpoilsAt(b, es, n) <==> Spoils(Run(b, es[..n]), es[n]))
  {
    var n := |es| - 1;
    hide Inv, Spoils, Run;
    forall k | 0 <= k < n ensures SpoilsAt(b, es[..n], k) <==> SpoilsAt(b, es, k) {
      assert es[..n][..k] == es[..k];
    }
  }

  lemma RunLast(b: Box, es: seq<Event>)
    requires Inv(b) && es != []
    ensures Run(b, es) == Step(Run(b, es[..|es| - 1]), es[|es| - 1])
  {
  }

  lemma {:induction false} WedgedIff(b: Box, es: seq<Event>)
    requires Inv(b) && !Wedged(b)
    ensures Wedged(Run(b, es)) <==> exists k :: SpoilsAt(b, es, k)
  {
    if es != [] {
      var n := |es| - 1;
      hide *;
      WedgedIff(b, es[..n]);
      RunLast(b, es);
      SpoiledStep(Run(b, es[..n]), es[n]);
      SpoilsPrefix(b, es);
    }
  }

  // From the start, one number without a task wedges the mailbox.
  lemma WedgedByNumber(n: int)
    requires !IsTask(n)
    ensures Inv(INITIAL) && Wedged(Run(INITIAL, [Receive(n, true)]))
  {
    InitialInv();
    var es := [Receive(n, true)];
    assert es[..0] == [];
    RunLast(INITIAL, es);
  }

  // So do two numbers with a task, the second between the clearing writes for the first.
  lemma WedgedByRace(n: int, race: seq<Event>)
    requires IsTask(n)
    requires race == [Receive(0, true), MainStep(true), MainStep(true), MainStep(true), MainStep(true),
                      Receive(n, true)]
    ensures Inv(INITIAL) && Wedged(Run(INITIAL, race))
  {
    hide *;
    InitialInv();
    RunNone(INITIAL);
    var b: seq<Box> := seq(7, k requires 0 <= k <= 6 => Run(INITIAL, race[..k]));
    forall k | 0 <= k < 6 ensures Inv(b[k]) && b[k + 1] == Step(b[k], race[k]) {
      RunPrefix(INITIAL, race, k);
    }
    assert race[..6] == race && race[..0] == [];
    RaceWedges(b, n, race);
  }

  lemma RunNone(b: Box)
    requires Inv(b)
    ensures Run(b, []) == b
  {
  }

  lemma RaceWedges(b: seq<Box>, n: int, race: seq<Event>)
    requires IsTask(n) && |b| == 7 && b[0] == INITIAL
    requires race == [Receive(0, true), MainStep(true), MainStep(true), MainStep(true), MainStep(true),
                      Receive(n, true)]
    requires forall k :: 0 <= k < 6 ==> Inv(b[k]) && b[k + 1] == Step(b[k], race[k])
    ensures Wedged(b[6])
  {
    hide Inv;
    assert b[1].pc == Idle && b[1].finish && b[1].num == 0;
    assert b[2].pc == SawFlag && b[2].num == 0;
    assert b[3].pc == Compare(0) && b[3].num == 0;
    assert b[4].pc == Acting(0);
    assert b[5].pc == FlagCleared && !b[5].finish;
  }

  lemma RunPrefix(b: Box, es: seq<Event>, k: nat)
    requires Inv(b) && k < |es|
    ensures Run(b, es[..k + 1]) == Step(Run(b, es[..k]), es[k])
  {
    assert es[..k + 1][..k] == es[..k];
  }

  // Accesses the main loop still needs before it clears the flag.
  function Distance(b: Box): nat
    requires Inv(b) && b.finish && !Wedged(b)
  {
    if b.pc.Idle? then b.num + 4
    else if b.pc.SawFlag? then b.num + 3
    else if b.pc.Compare? then b.num - b.pc.k + 2
    else 1
  }

  // Unless wedged, the main loop comes closer to clearing the flag with each access, but for finding
  // the mode switched off; interrupts do not set it back.
  lemma Progress(b: Box, e: Event)
    requires Inv(b) && b.finish && !Wedged(b)
    ensures var c := Step(b, e);
            if e.Receive? || (b.pc.Idle? && !e.regco) then c.finish && !Wedged(c) && Distance(c) == Distance(b)
            else if Distance(b) == 1 then !c.finish && c.acted[|c.acted| - 1] == |c.accepted| - 1
            else c.finish && !Wedged(c) && Distance(c) == Distance(b) - 1
  {
  }

  ghost function Accesses(es: seq<Event>): nat {
    if es == [] then 0 else Accesses(es[..|es| - 1]) + if es[|es| - 1] == MainStep(true) then 1 else 0
  }

  // An accepted number with a task is acted on, and the slot freed, within nine accesses.
  lemma {:induction false} SlotFreed(b: Box, es: seq<Event>)
    requires Inv(b) && b.finish && !Wedged(b) && Accesses(es) >= 9
    ensures exists k :: 0 <= k <= |es| && !Run(b, es[..k]).finish
  {
    if forall k :: 0 <= k <= |es| ==> Run(b, es[..k]).finish {
      Approach(b, es);
    }
  }

  lemma {:induction false} Approach(b: Box, es: seq<Event>)
    requires Inv(b) && b.finish && !Wedged(b)
    requires forall k :: 0 <= k <= |es| ==> Run(b, es[..k]).finish
    ensures !Wedged(Run(b, es)) && Run(b, es).finish
    ensures Distance(Run(b, es)) + Accesses(es) <= Distance(b) <= 9
  {
    hide *;
    assert es[..|es|] == es;
    if es == [] {
      NoAccess(b);
    } else {
      var n: nat := |es| - 1;
      AccessesLast(es);
      RunLast(b, es);
      forall k | 0 <= k <= n ensures Run(b, es[..n][..k]).finish { assert es[..n][..k] == es[..k]; }
      Approach(b, es[..n]);
      Progressed(Run(b, es[..n]), es[n]);
    }
  }

  lemma NoAccess(b: Box)
    requires Inv(b) && b.finish && !Wedged(b)
    ensures Run(b, []) == b && Accesses([]) == 0 && Distance(b) <= 9
  {
  }

  lemma AccessesLast(es: seq<Event>)
    requires es != []
    ensures Accesses(es) == Accesses(es[..|es| - 1]) + if es[|es| - 1] == MainStep(true) then 1 else 0
  {
  }

  lemma Progressed(b: Box, e: Event)
    requires Inv(b) && b.finish && !Wedged(b) && Step(b, e).finish
    ensures !Wedged(Step(b, e)) && Inv(Step(b, e))
    ensures Distance(Step(b, e)) + (if e == MainStep(true) then 1 else 0) <= Distance(b)
  {
    Progress(b, e);
    StepKeeps(b, e);
    hide Inv, Wedged, Step, Distance;
  }

  // ---------------------------------------------------------------------------------------
  // In terms of the events alone
  // ---------------------------------------------------------------------------------------

  // The k-th event is a number received in recognition mode with the flag clear.
  ghost predicate Accepts(b: Box, es: seq<Event>, k: int)
    requires Inv(b)
  {
    0 <= k < |es| && es[k].Receive? && es[k].regco && !Run(b, es[..k]).finish
  }

  // The numbers of these events, in order.
  ghost function Taken(b: Box, es: seq<Event>): seq<int>
    requires Inv(b)
  {
    if es == [] then []
    else
      var n := |es| - 1;
      Taken(b, es[..n]) + if es[n].Receive? && es[n].regco && !Run(b, es[..n]).finish then [es[n].n] else []
  }

  lemma StepTakes(b: Box, e: Event)
    requires Inv(b)
    ensures var c, took := Step(b, e), e.Receive? && e.regco && !b.finish;
            && c.accepted == b.accepted + (if took then [e.n] else [])
            && (took ==> c.finish && c.num == e.n && c.list[0] == e.n)
            && (!b.finish && c.finish ==> took)
            && (b.pc.Acting? && !c.pc.Acting? ==> !c.finish)
  {
  }

  // The numbers accepted in a run are these, unchanged and in order.
  lemma {:induction false} AcceptedAre(b: Box, es: seq<Event>)
    requires Inv(b)
    ensures Run(b, es).accepted == b.accepted + Taken(b, es)
  {
    hide Inv, Step;
    if es != [] {
      AcceptedAre(b, es[..|es| - 1]);
      RunLast(b, es);
      StepTakes(Run(b, es[..|es| - 1]), es[|es| - 1]);
    }
  }

  // The k-th event of a run from an empty slot accepted a number, and the flag is set ever since.
  ghost predicate HeldSince(b: Box, es: seq<Event>, k: int)
    requires Inv(b)
  {
    && Accepts(b, es, k)
    && (forall j :: k < j <= |es| ==> Run(b, es[..j]).finish)
    && Run(b, es).accepted != [] && Run(b, es).accepted[|Run(b, es).accepted| - 1] == es[k].n
  }

  lemma {:induction false} LastAccept(b: Box, es: seq<Event>) returns (k: int)
    requires Inv(b) && !b.finish && Run(b, es).finish
    ensures HeldSince(b, es, k)
  {
    hide Inv, Step, Run;
    RunNone(b);
    RunLast(b, es);
    var n := |es| - 1;
    var p := Run(b, es[..n]);
    StepTakes(p, es[n]);
    assert es[..|es|] == es;
    if p.finish {
      k := LastAccept(b, es[..n]);
      forall j | k <= j <= n ensures es[..n][..j] == es[..j] {
      }
    } else {
      k := n;
    }
  }

  // In every run from an empty slot, a task is carried out for the number of the last event that was
  // received in recognition mode with the flag clear; the flag is set ever since, so no other was.
  lemma TaskIsLastAccept(b: Box, es: seq<Event>) returns (k: int)
    requires Inv(b) && !b.finish && Run(b, es).pc.Acting?
    ensures Accepts(b, es, k) && es[k] == Receive(Run(b, es).pc.task, true)
    ensures forall j :: k < j < |es| ==> Run(b, es[..j]).finish && !Accepts(b, es, j)
  {
    ActingHolds(Run(b, es));
    k := LastAccept(b, es);
    hide Inv, Step, Run;
  }

  lemma ActingHolds(b: Box)
    requires Inv(b) && b.pc.Acting?
    ensures b.finish && b.accepted != [] && b.accepted[|b.accepted| - 1] == b.pc.task
  {
  }

  ghost predicate StartsTask(b: Box, es: seq<Event>, k: int)
    requires Inv(b)
  {
    0 <= k < |es| && !Run(b, es[..k]).pc.Acting? && Run(b, es[..k + 1]).pc.Acting?
  }

  // Between the starts of two tasks another number was accepted.
  lemma OneTaskEach(b: Box, es: seq<Event>, k1: int, k2: int) returns (j: int)
    requires Inv(b) && !b.finish && k1 < k2 && StartsTask(b, es, k1) && StartsTask(b, es, k2)
    ensures k1 < j < k2 && Accepts(b, es, j)
  {
    hide Inv, Step, Run;
    var j0 := TaskEnds(b, es, k1 + 1, k2);
    ActingHolds(Run(b, es[..k2 + 1]));
    j := LastAccept(b, es[..k2 + 1]);
    forall i | 0 <= i <= k2 + 1 ensures es[..k2 + 1][..i] == es[..i] {
    }
    TaskStartsByStep(b, es, k2);
  }

  // A task under way at a and no more at c was ended by clearing the flag in between.
  lemma {:induction false} TaskEnds(b: Box, es: seq<Event>, a: int, c: int) returns (j: int)
    requires Inv(b) && 0 <= a < c <= |es| && Run(b, es[..a]).pc.Acting? && !Run(b, es[..c]).pc.Acting?
    ensures a < j <= c && !Run(b, es[..j]).finish
    decreases c - a
  {
    hide Inv, Step, Run;
    RunPrefix(b, es, a);
    StepTakes(Run(b, es[..a]), es[a]);
    if !Run(b, es[..a + 1]).pc.Acting? {
      j := a + 1;
    } else {
      j := TaskEnds(b, es, a + 1, c);
    }
  }

  // A number is received by an interrupt, a task started by the main loop.
  lemma TaskStartsByStep(b: Box, es: seq<Event>, k: int)
    requires Inv(b) && StartsTask(b, es, k)
    ensures es[k].MainStep?
  {
    RunPrefix(b, es, k);
    hide Inv, Run;
  }
}
