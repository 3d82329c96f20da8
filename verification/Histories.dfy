/** The history of a semaphore that programs use: PASSEREN blocks at 0 and VERHOGEN blocks at 1. */
module Histories {
  import DeviceRegisters
  import opened KernelState
  import opened Machine
  import opened KernelSteps
  import KernelInvariant
  import opened Runs

  datatype Op = P | V

  /** What has happened to one semaphore: by which operation each process last blocked on it, and how
      many P and V operations on it have completed. */
  datatype History = History(how: seq<Op>, ps: nat, vs: nat) {
    function Completed(op: Op): History {
      if op == P then this.(ps := ps + 1) else this.(vs := vs + 1)
    }
  }

  /** An operation of the running process on semaphore `a`: it blocks, or it completes and so does the
      operation of the process that it wakes, whichever that was. */
  ghost function Operated(k: K, h: History, a: int, op: Op): History
    requires Inv(k) && Legal(k, Passeren(a)) && |h.how| == |k.sem|
  {
    HeadsOk(k);
    if k.mem[a] == (if op == P then 0 else 1) then h.(how := h.how[k.current := op])
    else if a in k.blocked then h.Completed(op).Completed(h.how[k.blocked[a][0]])
    else h.Completed(op)
  }

  ghost function Noted(k: K, h: History, a: int, e: Event): (r: History)
    requires Inv(k) && Legal(k, e) && |h.how| == |k.sem|
    ensures |r.how| == |h.how|
  {
    match e
    case Passeren(b) => if b == a then Operated(k, h, a, P) else h
    case Verhogen(b) => if b == a then Operated(k, h, a, V) else h
    case _ => h
  }

  /** The word holds its first value plus the completed V minus the completed P, in the arithmetic of
      the machine; a semaphore that starts at 0 or 1 stays there.  Whoever waits does so for P while
      the value is 0, and for V while it is 1. */
  ghost predicate Law(k: K, h: History, a: int, init: nat) {
    && |h.how| == |k.sem| && a in k.mem
    && (k.mem[a] - init - h.vs + h.ps) % WORD == 0
    && (init <= 1 ==> k.mem[a] <= 1 && k.mem[a] == init + h.vs - h.ps)
    && (a in k.blocked ==>
          k.mem[a] <= 1 && forall x :: x in k.blocked[a] ==> x < |h.how| && h.how[x] == if k.mem[a] == 0 then P else V)
  }

  /** Semaphore `a` is as it was, but for processes that have left its queue. */
  ghost predicate OnlyLeft(k: K, r: K, a: int) {
    && |r.sem| == |k.sem| && a in k.mem && a in r.mem && r.mem[a] == k.mem[a]
    && (a in r.blocked ==> a in k.blocked && forall x :: x in r.blocked[a] ==> x in k.blocked[a])
  }

  lemma LawLeft(k: K, r: K, h: History, a: int, init: nat)
    requires Law(k, h, a, init) && OnlyLeft(k, r, a)
    ensures Law(r, h, a, init)
  {
  }

  lemma {:induction false} ServedLeft(k: K, devs: seq<nat>, a: int)
    requires Core(k) && (forall i :: i in devs ==> i < DeviceRegisters.SEM_NUM) && a in k.mem && !k.lay.Soft(a)
    ensures OnlyLeft(k, Served(k, devs), a)
    decreases |devs|
  {
    if devs != [] {
      assert devs[0] in devs && forall i :: i in devs[1..] ==> i in devs;
      HeadsOk(k);
      CoreSignalled(k, k.lay.DevSem(devs[0]));
      ServedLeft(Signalled(k, k.lay.DevSem(devs[0])), devs[1..], a);
    }
  }

  lemma InterruptedLeft(k: K, timer: bool, tick: bool, devs: seq<nat>, a: int)
    requires Inv(k) && Legal(k, Interrupt(timer, tick, devs)) && a in k.mem && !k.lay.Soft(a)
    ensures OnlyLeft(k, Interrupted(k, timer, tick, devs), a)
  {
    InterruptOk(k, timer, tick);
    var k1 := if timer then Enqueued(k, k.current) else k;
    var k2 := if tick then Ticked(k1) else k1;
    assert OnlyLeft(k, k2, a);
    ServedLeft(k2, devs, a);
    hide Inv, Core, Legal, Served, Ticked, Enqueued;
  }

  lemma InterruptLeft(k: K, timer: bool, tick: bool, devs: seq<nat>, a: int)
    requires Inv(k) && Legal(k, Interrupt(timer, tick, devs)) && a in k.mem && !k.lay.Soft(a)
    ensures OnlyLeft(k, Step(k, Interrupt(timer, tick, devs)).0, a)
  {
    InterruptedLeft(k, timer, tick, devs, a);
    ScheduledSemaphore(Interrupted(k, timer, tick, devs));
    hide Inv, Core, Legal, Interrupted;
  }

  /** Requests that are not for this semaphore, terminations of processes that wait for it included. */
  lemma OtherLeft(k: K, e: Event, a: int)
    requires Inv(k) && Legal(k, e) && a in k.mem && !k.lay.Soft(a) && !e.Interrupt?
    requires e != Passeren(a) && e != Verhogen(a)
    ensures OnlyLeft(k, Step(k, e).0, a)
  {
    match e
    case Passeren(b) => SemaphoreLeft(k, b, a);
    case Verhogen(b) => SemaphoreLeft(k, b, a);
    case Create(d) => CreateLeft(k, d, a);
    case DoIo(d, installed) => WaitLeft(k, k.lay.DevSem(d), a);
    case ClockWait => WaitLeft(k, k.lay.clock, a);
    case Terminate(pid, t) => TerminateLeft(k, pid, t, a);
    case _ =>
  }

  lemma CreateLeft(k: K, nsd: int, a: int)
    requires Inv(k) && Legal(k, Create(nsd)) && a in k.mem
    ensures OnlyLeft(k, Created(k, nsd).0, a)
  {
  }

  lemma TerminateLeft(k: K, pid: nat, t: int, a: int)
    requires Inv(k) && Legal(k, Terminate(pid, t)) && a in k.mem
    ensures OnlyLeft(k, Step(k, Terminate(pid, t)).0, a)
  {
  }

  lemma WaitLeft(k: K, b: int, a: int)
    requires Inv(k) && k.current != -1 && a in k.mem && b in k.mem && a != b
    ensures OnlyLeft(k, Scheduled(Waited(k, b)).0, a) && OnlyLeft(k, Scheduled(k).0, a)
  {
  }

  lemma SemaphoreLeft(k: K, b: int, a: int)
    requires Inv(k) && Legal(k, Passeren(b)) && a in k.mem && a != b
    ensures OnlyLeft(k, Step(k, Passeren(b)).0, a) && OnlyLeft(k, Step(k, Verhogen(b)).0, a)
  {
    HeadsOk(k);
  }

  lemma ScheduledSemaphore(k: K)
    ensures var r := Scheduled(k).0; r.sem == k.sem && r.mem == k.mem && r.blocked == k.blocked
  {
  }

  lemma WrappedUp(m: nat, init: nat, h: History)
    requires (m - init - h.vs + h.ps) % WORD == 0
    ensures ((m + 1) % WORD - init - (h.vs + 1) + h.ps) % WORD == 0
  {
    var d := (m + 1) / WORD;
    assert (m + 1) % WORD == m + 1 - d * WORD;
    MultipleOff(m - init - h.vs + h.ps, d);
  }

  lemma MultipleOff(x: int, d: int)
    requires x % WORD == 0
    ensures (x - d * WORD) % WORD == 0
  {
    var q := x / WORD;
    assert x - d * WORD == WORD * (q - d);
  }

  /** P and V that go through. */
  lemma OperatedThrough(k: K, h: History, a: int, op: Op, init: nat)
    requires Inv(k) && Legal(k, Passeren(a)) && Law(k, h, a, init)
    requires k.mem[a] != (if op == P then 0 else 1)
    ensures (a in k.blocked ==> k.blocked[a] != [] && k.blocked[a][0] < |k.sem|)
            && Law(if op == P then Passed(k, a) else Raised(k, a), Operated(k, h, a, op), a, init)
  {
    HeadsOk(k);
    var q := Queue(k.blocked, a);
    if a in k.blocked {
      assert q[0] in q && forall x :: x in q[1..] ==> x in q;
    } else if op == V {
      WrappedUp(k.mem[a], init, h);
    }
  }

  /** P and V that block the caller. */
  lemma OperatedBlocks(k: K, h: History, a: int, op: Op, init: nat)
    requires Inv(k) && Legal(k, Passeren(a)) && Law(k, h, a, init)
    requires k.mem[a] == (if op == P then 0 else 1)
    ensures (a in k.blocked ==> k.blocked[a] != [] && k.blocked[a][0] < |k.sem|)
            && Law(Blocked(k, a, k.current), Operated(k, h, a, op), a, init)
  {
    HeadsOk(k);
    assert forall x :: x in Queue(k.blocked, a) ==> x != k.current;
  }

  lemma StepKeepsLaw(k: K, h: History, a: int, init: nat, e: Event)
    requires Inv(k) && Legal(k, e) && Law(k, h, a, init) && !k.lay.Soft(a)
    ensures Law(Step(k, e).0, Noted(k, h, a, e), a, init)
  {
    if e == Passeren(a) || e == Verhogen(a) {
      var op := if e == Passeren(a) then P else V;
      HeadsOk(k);
      if k.mem[a] == (if op == P then 0 else 1) {
        OperatedBlocks(k, h, a, op, init);
        ScheduledSemaphore(Blocked(k, a, k.current));
      } else {
        OperatedThrough(k, h, a, op, init);
      }
    } else {
      if e.Interrupt? {
        InterruptLeft(k, e.timer, e.tick, e.devs, a);
      } else {
        OtherLeft(k, e, a);
      }
      LawLeft(k, Step(k, e).0, h, a, init);
    }
  }

  /** The history over a run. */
  ghost function Recorded(k: K, h: History, a: int, es: seq<Event>): History
    requires Inv(k) && LegalRun(k, es) && |h.how| == |k.sem|
    decreases |es|
  {
    if es == [] then h
    else
      KernelInvariant.StepKeepsInv(k, es[0]);
      StepSize(k, es[0]);
      Recorded(Step(k, es[0]).0, Noted(k, h, a, es[0]), a, es[1..])
  }

  lemma {:induction false} RunKeepsLaw(k: K, h: History, a: int, init: nat, es: seq<Event>)
    requires Inv(k) && LegalRun(k, es) && Law(k, h, a, init) && !k.lay.Soft(a)
    ensures Law(Run(k, es), Recorded(k, h, a, es), a, init)
    decreases |es|
  {
    if es != [] {
      KernelInvariant.StepKeepsInv(k, es[0]);
      StepSize(k, es[0]);
      StepKeepsLaw(k, h, a, init, es[0]);
      RunKeepsLaw(Step(k, es[0]).0, Noted(k, h, a, es[0]), a, init, es[1..]);
    }
  }

  /** From initKernel on: a semaphore that starts at 0 or 1 is always 0 or 1, and always its first
      value plus the completed V minus the completed P. */
  lemma BinarySemaphore(lay: Layout, n: nat, kind: seq<int>, mem: map<int, nat>, es: seq<Event>, a: int, how: seq<Op>)
    requires n > 0 && lay.WellPlaced() && KernelInvariant.KernelMemory(lay, mem) && |how| == n
    requires LegalRun(Started(lay, n, kind, mem), es)
    requires a in mem && !lay.Soft(a) && mem[a] <= 1
    ensures |how| == |Started(lay, n, kind, mem).sem|
    ensures var k := Run(Started(lay, n, kind, mem), es);
            var h := Recorded(Started(lay, n, kind, mem), History(how, 0, 0), a, es);
            a in k.mem && k.mem[a] <= 1 && k.mem[a] == mem[a] + h.vs - h.ps
            && (a in k.blocked ==> forall x :: x in k.blocked[a] ==>
                                     x < |h.how| && h.how[x] == if k.mem[a] == 0 then P else V)
  {
    RunKeepsLaw(Started(lay, n, kind, mem), History(how, 0, 0), a, mem[a], es);
  }
}
