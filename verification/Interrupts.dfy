/** What an interrupt does, in terms of the lines and devices that are pending. */
module Interrupts {
  import opened Seqs
  import opened DeviceRegisters
  import opened KernelState
  import opened KernelSteps
  import opened KernelFacts
  import opened Effects
  import Runs
  import Verdicts

  /** The semaphores signalled are those of the units served, and no others. */
  lemma ServedUnits(c: Pending, u: Unit)
    requires c.Ok() && u.Exists()
    ensures ServedIndex(u) in ServedIndices(c) <==> c.Signals(u)
  {
    ForemostIsTop(c.bitmap[u.line - DEV_IL_START], u.dev);
    OwnLine(c, u);
    if u.line == IL_TERMINAL {
      TerminalUnits(c, u);
    } else {
      LineUnits(c, u);
    }
    hide ServedIndices, LineIndices, TerminalIndices, Top, Foremost;
  }

  /** A unit is served with its own line. */
  lemma OwnLine(c: Pending, u: Unit)
    requires c.Ok() && u.Exists()
    ensures ServedIndex(u) in ServedIndices(c) <==>
            if u.line == IL_TERMINAL then ServedIndex(u) in TerminalIndices(c)
            else ServedIndex(u) in LineIndices(c, u.line - DEV_IL_START)
  {
    var x, i := ServedIndex(u), u.line - DEV_IL_START;
    assert 8 * i <= x && (i < 4 ==> x < 8 * i + 8);
    InLines(c, x);
    hide ServedIndices, LineIndices, TerminalIndices, ServedIndex;
    if x in LineIndices(c, 0) {
      LineOrdered(c, 0);
    }
    if x in LineIndices(c, 1) {
      LineOrdered(c, 1);
    }
    if x in LineIndices(c, 2) {
      LineOrdered(c, 2);
    }
    if x in LineIndices(c, 3) {
      LineOrdered(c, 3);
    }
    if x in TerminalIndices(c) {
      TerminalOrdered(c);
    }
    assert i == 0 || i == 1 || i == 2 || i == 3 || i == 4;
  }

  lemma InLines(c: Pending, x: nat)
    requires c.Ok()
    ensures x in ServedIndices(c) <==>
            (exists i :: 0 <= i < DEVINTNUM - 1 && x in LineIndices(c, i)) || x in TerminalIndices(c)
  {
    hide LineIndices, TerminalIndices;
    var l0, l1, l2, l3 := LineIndices(c, 0), LineIndices(c, 1), LineIndices(c, 2), LineIndices(c, 3);
    assert x in l0 + l1 + l2 + l3 <==> x in l0 || x in l1 || x in l2 || x in l3;
  }

  lemma LineUnits(c: Pending, u: Unit)
    requires c.Ok() && u.Exists() && u.line != IL_TERMINAL
    ensures var i := u.line - DEV_IL_START;
            ServedIndex(u) in LineIndices(c, i) <==> c.lines[i] && u.dev == Top(c.bitmap[i])
  {
    TopOfByte(c.bitmap[u.line - DEV_IL_START]);
    hide Top;
  }

  lemma TerminalUnits(c: Pending, u: Unit)
    requires c.Ok() && u.Exists() && u.line == IL_TERMINAL
    ensures ServedIndex(u) in TerminalIndices(c) <==>
            c.lines[4] && u.dev == Top(c.bitmap[4]) && if u.transmitter then c.transmitted else c.received
  {
    TopOfByte(c.bitmap[4]);
    hide Top;
  }

  /** Each index is greater than those before it, but for a receiver, which comes after its transmitter. */
  ghost predicate Ordered(s: seq<nat>) {
    forall i, j :: 0 <= i < j < |s| ==> s[i] < s[j] || (32 <= s[j] && s[j] % 2 == 0 && s[i] == s[j] + 1)
  }

  lemma OrderedAppend(s: seq<nat>, t: seq<nat>, m: nat)
    requires Ordered(s) && Ordered(t) && (forall x :: x in s ==> x < m) && forall x :: x in t ==> m <= x
    ensures Ordered(s + t)
  {
    var r := s + t;
    forall i, j | 0 <= i < |s| <= j < |r|
      ensures r[i] < r[j]
    {
      assert r[i] in s && r[j] in t;
    }
  }

  lemma LineOrdered(c: Pending, i: nat)
    requires c.Ok() && i < DEVINTNUM - 1
    ensures Ordered(LineIndices(c, i)) && forall x :: x in LineIndices(c, i) ==> 8 * i <= x < 8 * i + 8
  {
    TopOfByte(c.bitmap[i]);
  }

  lemma TerminalOrdered(c: Pending)
    requires c.Ok()
    ensures Ordered(TerminalIndices(c)) && forall x :: x in TerminalIndices(c) ==> 32 <= x
  {
    TopOfByte(c.bitmap[4]);
  }

  /** Each once, line by line, and of a terminal the transmitter first. */
  lemma ServedInOrder(c: Pending)
    requires c.Ok()
    ensures NoDup(ServedIndices(c)) && Ordered(ServedIndices(c))
  {
    LineOrdered(c, 0);
    LineOrdered(c, 1);
    LineOrdered(c, 2);
    LineOrdered(c, 3);
    TerminalOrdered(c);
    hide Ordered, LineIndices, TerminalIndices;
    var l0, l1, l2, l3 := LineIndices(c, 0), LineIndices(c, 1), LineIndices(c, 2), LineIndices(c, 3);
    OrderedAppend(l0, l1, 8);
    OrderedAppend(l0 + l1, l2, 16);
    OrderedAppend(l0 + l1 + l2, l3, 24);
    OrderedAppend(l0 + l1 + l2 + l3, TerminalIndices(c), 32);
    OrderedOnce(ServedIndices(c));
  }

  lemma OrderedOnce(s: seq<nat>)
    requires Ordered(s)
    ensures NoDup(s)
  {
  }

  /** The first on the queue of each semaphore that has one, in the order of the semaphores. */
  ghost function Heads(k: K, devs: seq<nat>): (r: seq<nat>) {
    if devs == [] then []
    else
      var q := Queue(k.blocked, k.lay.DevSem(devs[0]));
      (if q == [] then [] else [q[0]]) + Heads(k, devs[1..])
  }

  lemma {:induction false} HeadsSame(k: K, r: K, devs: seq<nat>)
    requires r.lay == k.lay
    requires forall i :: i in devs ==> Queue(r.blocked, k.lay.DevSem(i)) == Queue(k.blocked, k.lay.DevSem(i))
    ensures Heads(r, devs) == Heads(k, devs)
  {
    if devs != [] {
      assert devs[0] in devs && forall i :: i in devs[1..] ==> i in devs;
      HeadsSame(k, r, devs[1..]);
    }
  }

  /** V on one semaphore: the first in the queue leaves it, or the semaphore becomes 1. */
  ghost predicate GetsV(k: K, r: K, a: int) {
    && Queue(r.blocked, a) == (if Queue(k.blocked, a) == [] then [] else Queue(k.blocked, a)[1..])
    && (if Queue(k.blocked, a) == [] then a in r.mem && r.mem[a] == 1 else Word(r, a) == Word(k, a))
  }

  ghost function Word(k: K, a: int): int {
    if a in k.mem then k.mem[a] else -1
  }

  ghost predicate Untouched(k: K, r: K, a: int) {
    Queue(r.blocked, a) == Queue(k.blocked, a) && Word(r, a) == Word(k, a)
  }

  lemma OneSignalled(k: K, i: nat)
    requires Core(k) && CurrentApart(k) && i < SEM_NUM
    ensures var a := k.lay.DevSem(i);
            && (a in k.blocked ==> k.blocked[a] != [] && k.blocked[a][0] < |k.sem|)
            && var r := Signalled(k, a);
               && r.ready == k.ready + Heads(k, [i]) && r.current == k.current && r.lay == k.lay
               && Core(r) && CurrentApart(r)
               && GetsV(k, r, a) && forall b :: b != a ==> Untouched(k, r, b)
  {
    var a := k.lay.DevSem(i);
    HeadsOk(k);
    CoreSignalled(k, a);
    assert [i][1..] == [] && Heads(k, []) == [];
    if a in k.blocked {
      WokenEffect(k, a);
      hide Core, CurrentApart, Heads, Woken;
      assert Heads(k, [i]) == [k.blocked[a][0]] by {
        HeadOfOne(k, i);
      }
    } else {
      HeadOfOne(k, i);
      hide Core, CurrentApart, Heads;
    }
  }

  lemma HeadOfOne(k: K, i: nat)
    ensures var q := Queue(k.blocked, k.lay.DevSem(i)); Heads(k, [i]) == if q == [] then [] else [q[0]]
  {
    assert [i][1..] == [] && Heads(k, []) == [];
  }

  /** `a` is one of the semaphores of `devs`. */
  ghost predicate Among(lay: Layout, devs: seq<nat>, a: int) {
    exists i :: i in devs && a == lay.DevSem(i)
  }

  /** The first V and the others. */
  lemma ServedFirst(k: K, devs: seq<nat>)
    requires Core(k) && CurrentApart(k) && devs != [] && NoDup(devs) && forall i :: i in devs ==> i < SEM_NUM
    ensures var i, a := devs[0], k.lay.DevSem(devs[0]);
            && i < SEM_NUM && (a in k.blocked ==> k.blocked[a] != [] && k.blocked[a][0] < |k.sem|)
            && var s := Signalled(k, a);
               && Core(s) && CurrentApart(s) && s.lay == k.lay && s.current == k.current
               && NoDup(devs[1..]) && (forall j :: j in devs[1..] ==> j < SEM_NUM && j != i)
               && Served(k, devs) == Served(s, devs[1..])
               && s.ready == k.ready + Heads(k, [i]) && Heads(s, devs[1..]) == Heads(k, devs[1..])
               && GetsV(k, s, a) && forall b :: b != a ==> Untouched(k, s, b)
  {
    RestOf(devs);
    assert devs[0] in devs;
    OneSignalled(k, devs[0]);
    var s := Signalled(k, k.lay.DevSem(devs[0]));
    assert Served(k, devs) == Served(s, devs[1..]);
    hide Core, CurrentApart, Heads, Signalled, Served, GetsV, NoDup;
    RestUntouched(k, s, devs);
  }

  lemma RestUntouched(k: K, s: K, devs: seq<nat>)
    requires devs != [] && s.lay == k.lay && forall j :: j in devs[1..] ==> j != devs[0]
    requires forall b :: b != k.lay.DevSem(devs[0]) ==> Untouched(k, s, b)
    ensures Heads(s, devs[1..]) == Heads(k, devs[1..])
  {
    forall j | j in devs[1..]
      ensures Queue(s.blocked, k.lay.DevSem(j)) == Queue(k.blocked, k.lay.DevSem(j))
    {
      assert Untouched(k, s, k.lay.DevSem(j));
    }
    HeadsSame(k, s, devs[1..]);
  }

  lemma HeadsFirst(k: K, devs: seq<nat>)
    requires devs != []
    ensures Heads(k, [devs[0]]) + Heads(k, devs[1..]) == Heads(k, devs)
  {
    assert [devs[0]][1..] == [] && Heads(k, []) == [];
  }

  /** V on several semaphores in turn, each once: the first of every queue becomes ready, in that order. */
  lemma {:induction false} ServedReady(k: K, devs: seq<nat>)
    requires Core(k) && CurrentApart(k) && NoDup(devs) && forall i :: i in devs ==> i < SEM_NUM
    ensures Served(k, devs).ready == k.ready + Heads(k, devs) && Served(k, devs).current == k.current
    decreases |devs|
  {
    hide Core, CurrentApart, Served, Signalled, GetsV, Untouched, NoDup;
    if devs == [] {
      ServedNothing(k);
    } else {
      hide Heads;
      ServedFirst(k, devs);
      ServedReady(Signalled(k, k.lay.DevSem(devs[0])), devs[1..]);
      HeadsFirst(k, devs);
      var h, t := Heads(k, [devs[0]]), Heads(k, devs[1..]);
      assert k.ready + h + t == k.ready + (h + t);
    }
  }

  /** And each of the semaphores gets its V, and no other word or queue is touched. */
  lemma {:induction false} ServedWord(k: K, devs: seq<nat>, b: int)
    requires Core(k) && CurrentApart(k) && NoDup(devs) && forall i :: i in devs ==> i < SEM_NUM
    ensures var r := Served(k, devs); if Among(k.lay, devs, b) then GetsV(k, r, b) else Untouched(k, r, b)
    decreases |devs|
  {
    hide Core, CurrentApart, Served, Signalled, Heads, NoDup, GetsV;
    if devs == [] {
      ServedNothing(k);
    } else {
      hide Untouched, Among;
      ServedFirst(k, devs);
      var s := Signalled(k, k.lay.DevSem(devs[0]));
      ServedWord(s, devs[1..], b);
      AmongFirst(k.lay, devs, b);
      TouchedTwice(k, s, Served(k, devs), b);
    }
  }

  lemma TouchedTwice(k: K, s: K, r: K, b: int)
    ensures GetsV(k, s, b) && Untouched(s, r, b) ==> GetsV(k, r, b)
    ensures Untouched(k, s, b) && GetsV(s, r, b) ==> GetsV(k, r, b)
    ensures Untouched(k, s, b) && Untouched(s, r, b) ==> Untouched(k, r, b)
  {
  }

  lemma AmongFirst(lay: Layout, devs: seq<nat>, b: int)
    requires devs != [] && forall j :: j in devs[1..] ==> j != devs[0]
    ensures Among(lay, devs, b) <==> b == lay.DevSem(devs[0]) || Among(lay, devs[1..], b)
    ensures b == lay.DevSem(devs[0]) ==> !Among(lay, devs[1..], b)
  {
    assert devs == [devs[0]] + devs[1..];
    if b == lay.DevSem(devs[0]) {
      assert devs[0] in devs;
    }
  }

  /** Nothing changes but who is ready, who runs, and who waits for what. */
  ghost predicate Between(k: K, r: K, ready: seq<nat>, current: int) {
    Core(r) && CurrentApart(r) && SamePeople(k, r) && r.ready == ready && r.current == current
  }

  /** The slice timer. */
  lemma SliceEffect(k: K, timer: bool)
    requires Inv(k) && (timer ==> k.current != -1)
    ensures timer ==> 0 <= k.current
    ensures var r := if timer then Enqueued(k, k.current) else k;
            && Between(k, r, k.ready + (if timer then [k.current as nat] else []), if timer then -1 else k.current)
            && r.blocked == k.blocked && r.mem == k.mem && Word(k, k.lay.clock) == 0
  {
    if timer {
      CoreEnqueued(k, k.current);
      MinusNone(k.ready, {k.current as nat});
    }
  }

  /** The interval timer. */
  lemma TickEffect(k: K, tick: bool)
    requires Core(k) && CurrentApart(k) && Word(k, k.lay.clock) == 0
    ensures var q := Queue(k.blocked, k.lay.clock);
            var r := if tick then Ticked(k) else k;
            && Between(k, r, k.ready + (if tick then q else []), k.current)
            && Queue(r.blocked, k.lay.clock) == (if tick then [] else q) && Word(r, k.lay.clock) == 0
            && forall b :: b != k.lay.clock ==> Untouched(k, r, b)
  {
    if tick {
      CoreTicked(k);
      Verdicts.TickOrder(k);
      hide Core, CurrentApart;
    }
  }

  /** The devices. */
  lemma DevicesEffect(k: K, devs: seq<nat>)
    requires Core(k) && CurrentApart(k) && NoDup(devs) && forall i :: i in devs ==> i < SEM_NUM
    ensures var r := Served(k, devs);
            && Between(k, r, k.ready + Heads(k, devs), k.current) && Untouched(k, r, k.lay.clock)
            && forall b :: if Among(k.lay, devs, b) then GetsV(k, r, b) else Untouched(k, r, b)
  {
    Runs.ServedFrame(k, devs);
    ServedReady(k, devs);
    forall b
      ensures if Among(k.lay, devs, b) then GetsV(k, Served(k, devs), b) else Untouched(k, Served(k, devs), b)
    {
      ServedWord(k, devs, b);
    }
    assert !Among(k.lay, devs, k.lay.clock);
    hide Core, CurrentApart, Heads, GetsV, Untouched;
  }

  /** The ready processes after an interrupt: the running one last if its time slice is over, then all that wait
      for the clock if the interval timer has expired, then the first on the queue of every unit served. */
  ghost function ReadyAfter(k: K, c: Pending): seq<nat>
    requires c.Ok() && (c.slice && c.te ==> 0 <= k.current)
  {
    k.ready + (if c.slice && c.te then [k.current as nat] else [])
    + (if c.tick then Queue(k.blocked, k.lay.clock) else []) + Heads(k, ServedIndices(c))
  }

  /** What an interrupt does, as the lines and devices that are pending say: the units that are served, and they
      alone, lose the first of their queue, or their semaphore becomes 1 if they have none; and the scheduler
      runs if nobody is running then. */
  ghost predicate Attends(k: K, c: Pending, r: K, o: Outcome)
    requires c.Ok() && (c.slice && c.te ==> 0 <= k.current)
  {
    && SamePeople(k, r)
    && (if (c.slice && c.te) || k.current == -1 then Schedules(ReadyAfter(k, c), r, o)
        else r.ready == ReadyAfter(k, c) && Returns(k, r, o))
    && Queue(r.blocked, k.lay.clock) == (if c.tick then [] else Queue(k.blocked, k.lay.clock))
    && Word(r, k.lay.clock) == 0
    && (forall u: Unit {:trigger u.Exists()} :: u.Exists() ==>
          var a := k.lay.DevSem(ServedIndex(u));
          if c.Signals(u) then GetsV(k, r, a) else Untouched(k, r, a))
    && (forall b :: b != k.lay.clock && !Among(k.lay, ServedIndices(c), b) ==> Untouched(k, r, b))
  }

  /** The state before the scheduler runs, if it does. */
  ghost predicate Attended(k: K, c: Pending, m: K)
    requires c.Ok() && (c.slice && c.te ==> 0 <= k.current)
  {
    && Between(k, m, ReadyAfter(k, c), if c.slice && c.te then -1 else k.current)
    && Queue(m.blocked, k.lay.clock) == (if c.tick then [] else Queue(k.blocked, k.lay.clock))
    && Word(m, k.lay.clock) == 0
    && forall b :: b != k.lay.clock ==>
         if Among(k.lay, ServedIndices(c), b) then GetsV(k, m, b) else Untouched(k, m, b)
  }

  lemma ChainAttends(k: K, k1: K, k2: K, m: K, c: Pending)
    requires c.Ok() && (c.slice && c.te ==> 0 <= k.current) && k.lay.WellPlaced()
    requires Between(k, k1, k.ready + (if c.slice && c.te then [k.current as nat] else []),
                     if c.slice && c.te then -1 else k.current)
    requires k1.blocked == k.blocked && k1.mem == k.mem
    requires Between(k1, k2, k1.ready + (if c.tick then Queue(k1.blocked, k1.lay.clock) else []), k1.current)
    requires Queue(k2.blocked, k1.lay.clock) == (if c.tick then [] else Queue(k1.blocked, k1.lay.clock))
    requires Word(k2, k1.lay.clock) == 0 && forall b :: b != k1.lay.clock ==> Untouched(k1, k2, b)
    requires Between(k2, m, k2.ready + Heads(k2, ServedIndices(c)), k2.current) && Untouched(k2, m, k2.lay.clock)
    requires forall b :: if Among(k2.lay, ServedIndices(c), b) then GetsV(k2, m, b) else Untouched(k2, m, b)
    ensures Attended(k, c, m)
  {
    hide Core, CurrentApart, Heads, Among, GetsV;
    var devs := ServedIndices(c);
    assert forall b :: b != k.lay.clock ==> Untouched(k1, k2, b) ==> Untouched(k, k2, b);
    HeadsKept(k, k2, devs);
    forall b | b != k.lay.clock
      ensures if Among(k.lay, devs, b) then GetsV(k, m, b) else Untouched(k, m, b)
    {
      TouchedTwice(k, k2, m, b);
    }
  }

  lemma InterruptAttends(k: K, c: Pending)
    requires Inv(k) && c.Ok() && (c.slice && c.te ==> k.current != -1)
    ensures c.slice && c.te ==> 0 <= k.current
    ensures var k1 := if c.slice && c.te then Enqueued(k, k.current) else k;
            && Core(k1) && Core(Ticked(k1))
            && Attended(k, c, Served(if c.tick then Ticked(k1) else k1, ServedIndices(c)))
  {
    SliceEffect(k, c.slice && c.te);
    InterruptParts(k, c);
    ServedInOrder(c);
    assert k.lay.WellPlaced();
    hide Inv, Legal, InterruptEvent, Served, Ticked, Enqueued, Heads, Attended;
    var k1 := if c.slice && c.te then Enqueued(k, k.current) else k;
    TickEffect(k1, c.tick);
    var k2 := if c.tick then Ticked(k1) else k1;
    DevicesEffect(k2, ServedIndices(c));
    hide Core, CurrentApart, ServedIndices, Among, GetsV, SamePeople, Word, Queue;
    ChainAttends(k, k1, k2, Served(k2, ServedIndices(c)), c);
  }

  lemma UnitAmong(lay: Layout, c: Pending, u: Unit)
    requires c.Ok() && u.Exists() && lay.WellPlaced()
    ensures Among(lay, ServedIndices(c), lay.DevSem(ServedIndex(u))) <==> c.Signals(u)
    ensures lay.DevSem(ServedIndex(u)) != lay.clock
  {
    ServedUnits(c, u);
    hide ServedIndices;
    assert forall i: nat :: lay.DevSem(i) == lay.DevSem(ServedIndex(u)) ==> i == ServedIndex(u);
  }

  lemma AttendedAttends(k: K, c: Pending, m: K)
    requires c.Ok() && (c.slice && c.te ==> 0 <= k.current) && k.lay.WellPlaced() && -1 <= k.current
    requires Attended(k, c, m)
    ensures -1 <= m.current
    ensures var (r, o) := if m.current == -1 then Scheduled(m) else (m, Resume(m.current));
            Attends(k, c, r, o)
  {
    hide Core, CurrentApart, Among, ServedIndices, Heads, ReadyAfter;
    SchedulesReady(m);
    forall u: Unit {:trigger u.Exists()} | u.Exists()
      ensures var a := k.lay.DevSem(ServedIndex(u)); if c.Signals(u) then GetsV(k, m, a) else Untouched(k, m, a)
    {
      UnitAmong(k.lay, c, u);
    }
  }

  lemma InterruptEffect(k: K, c: Pending)
    requires Inv(k) && c.Ok() && (c.slice && c.te ==> k.current != -1)
    ensures Legal(k, InterruptEvent(c)) && (c.slice && c.te ==> 0 <= k.current)
    ensures var (r, o) := Step(k, InterruptEvent(c)); Attends(k, c, r, o)
  {
    InterruptAttends(k, c);
    InterruptParts(k, c);
    var k1 := if c.slice && c.te then Enqueued(k, k.current) else k;
    assert k.lay.WellPlaced() && -1 <= k.current;
    hide Inv, Core, CurrentApart, Legal, InterruptEvent, Served, Ticked, Enqueued, ServedIndices, Step, Attends;
    hide Attended;
    AttendedAttends(k, c, Served(if c.tick then Ticked(k1) else k1, ServedIndices(c)));
  }

  lemma HeadsKept(k: K, r: K, devs: seq<nat>)
    requires k.lay.WellPlaced() && r.lay == k.lay && forall i :: i in devs ==> i < SEM_NUM
    requires forall b :: b != k.lay.clock ==> Untouched(k, r, b)
    ensures Heads(r, devs) == Heads(k, devs)
  {
    forall i | i in devs
      ensures Queue(r.blocked, k.lay.DevSem(i)) == Queue(k.blocked, k.lay.DevSem(i))
    {
      assert Untouched(k, r, k.lay.DevSem(i));
    }
    HeadsSame(k, r, devs);
  }
}
