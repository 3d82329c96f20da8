/** The history of a device semaphore: only interrupts raise it, and only the next request for the device
    lowers it again. */
module DeviceSemaphores {
  import DeviceRegisters
  import opened KernelState
  import opened KernelSteps
  import opened KernelInvariant
  import opened Effects
  import opened Runs

  ghost function Value(k: K, i: nat): int
    requires Inv(k) && i < DeviceRegisters.SEM_NUM
  {
    k.mem[k.lay.DevSem(i)]
  }

  /** What __terminateProcess takes for a semaphore of the kernel's own is one, if it is a word that could be. */
  lemma SoftWords(lay: Layout, a: int)
    requires (a - lay.devBase) % 4 == 0
    ensures lay.Soft(a) <==> a == lay.clock || exists i: nat :: i < DeviceRegisters.SEM_NUM && a == lay.DevSem(i)
  {
    if lay.DevSem(0) <= a <= lay.DevSem(DeviceRegisters.SEM_NUM - 1) {
      assert a == lay.DevSem((a - lay.devBase) / 4);
    }
  }

  ghost function Waiting(k: K, i: nat): nat {
    |Queue(k.blocked, k.lay.DevSem(i))|
  }

  /** A request for an installed device leaves its semaphore at 0 and all other words as they are. */
  lemma RequestLowers(k: K, d: nat)
    requires Inv(k) && Legal(k, DoIo(d, true))
    ensures Step(k, DoIo(d, true)).0.mem == k.mem[k.lay.DevSem(d) := 0]
  {
    DoIoEffect(k, d, true);
  }

  /** No other event but an interrupt changes the semaphore of a device. */
  lemma OthersKeep(k: K, e: Event, i: nat)
    requires Inv(k) && Legal(k, e) && i < DeviceRegisters.SEM_NUM && !e.Interrupt? && e != DoIo(i, true)
    ensures Inv(Step(k, e).0) && Value(Step(k, e).0, i) == Value(k, i)
  {
    StepKeepsInv(k, e);
    StepSize(k, e);
    OthersKeepWord(k, e, k.lay.DevSem(i));
    hide Step, Legal;
  }

  /** Nor do they change any word but the semaphore of the request. */
  lemma OthersKeepWord(k: K, e: Event, a: int)
    requires Inv(k) && Legal(k, e) && !e.Interrupt? && a in k.mem
    requires e != Passeren(a) && e != Verhogen(a) && (e.DoIo? && e.installed ==> a != k.lay.DevSem(e.dev))
    ensures var r := Step(k, e).0; a in r.mem && r.mem[a] == k.mem[a]
  {
    assert k.mem[k.lay.clock] == 0;
    hide Step, Inv, Legal, SamePeople, Schedules, Returns, OtherQueues, Queue, Freed, Wakes, Blocks;
    match e
    case Create(d) => CreateEffect(k, d);
    case Terminate(pid, t) => TerminateEffect(k, pid, t);
    case Passeren(b) => PasserenWords(k, b);
    case Verhogen(b) => VerhogenWords(k, b);
    case DoIo(d, installed) => DoIoEffect(k, d, installed);
    case ClockWait => ClockWaitEffect(k);
    case _ => OthersKeepWords(k, e);
  }

  lemma PasserenWords(k: K, b: int)
    requires Inv(k) && Legal(k, Passeren(b))
    ensures var r := Step(k, Passeren(b)).0; forall a :: a in k.mem && a != b ==> a in r.mem && r.mem[a] == k.mem[a]
  {
    PasserenEffect(k, b);
    hide Step, Inv;
  }

  lemma VerhogenWords(k: K, b: int)
    requires Inv(k) && Legal(k, Verhogen(b))
    ensures var r := Step(k, Verhogen(b)).0; forall a :: a in k.mem && a != b ==> a in r.mem && r.mem[a] == k.mem[a]
  {
    VerhogenEffect(k, b);
    hide Step, Inv;
  }

  lemma OthersKeepWords(k: K, e: Event)
    requires Inv(k) && Legal(k, e) && (e.AllocSpace? || e.FreeSpace? || e.Query?)
    ensures Step(k, e).0.mem == k.mem
  {
  }

  /** `n` of the V in `devs` are on semaphore `i`. */
  ghost function Signals(devs: seq<nat>, i: nat): nat {
    multiset(devs)[i]
  }

  /** A V wakes the first that waits as long as there is one, and the next V raises the semaphore. */
  lemma {:induction false} ServedRaises(k: K, devs: seq<nat>, i: nat)
    requires Core(k) && i < DeviceRegisters.SEM_NUM && k.lay.DevSem(i) in k.mem
    requires forall j :: j in devs ==> j < DeviceRegisters.SEM_NUM
    ensures var r, a := Served(k, devs), k.lay.DevSem(i);
            a in r.mem && r.mem[a] == if Signals(devs, i) > Waiting(k, i) then 1 else k.mem[a]
    decreases |devs|
  {
    if devs != [] {
      var rest, a := devs[1..], k.lay.DevSem(devs[0]);
      assert devs == [devs[0]] + rest && devs[0] in devs && forall j :: j in rest ==> j in devs;
      HeadsOk(k);
      CoreSignalled(k, a);
      var s := Signalled(k, a);
      SignalledOnce(k, devs[0], i);
      ServedRaises(s, rest, i);
      assert Signals(devs, i) == Signals(rest, i) + if devs[0] == i then 1 else 0;
      hide Core, Queue, Signalled, Signals;
    }
  }

  lemma SignalledOnce(k: K, j: nat, i: nat)
    requires Core(k) && j < DeviceRegisters.SEM_NUM && k.lay.DevSem(i) in k.mem
    ensures var b, a := k.lay.DevSem(j), k.lay.DevSem(i);
            && (b in k.blocked ==> k.blocked[b] != [] && k.blocked[b][0] < |k.sem|)
            && var s := Signalled(k, b);
               && a in s.mem && s.lay == k.lay
               && s.mem[a] == (if i == j && Waiting(k, i) == 0 then 1 else k.mem[a])
               && Waiting(s, i) == if i == j && Waiting(k, i) > 0 then Waiting(k, i) - 1 else Waiting(k, i)
  {
    HeadsOk(k);
  }

  /** The timers do not touch it. */
  lemma TimersKeep(k: K, timer: bool, tick: bool, i: nat)
    requires Inv(k) && (timer ==> k.current != -1) && i < DeviceRegisters.SEM_NUM
    ensures var a := k.lay.DevSem(i);
            var k1 := if timer then Enqueued(k, k.current) else k;
            var k2 := if tick then Ticked(k1) else k1;
            && Core(k2) && k2.lay == k.lay && a in k2.mem && k2.mem[a] == Value(k, i) && Waiting(k2, i) == Waiting(k, i)
  {
    InterruptOk(k, timer, tick);
  }

  lemma InterruptedRaises(k: K, timer: bool, tick: bool, devs: seq<nat>, i: nat)
    requires Inv(k) && Legal(k, Interrupt(timer, tick, devs)) && i < DeviceRegisters.SEM_NUM
    ensures var m, a := Interrupted(k, timer, tick, devs), k.lay.DevSem(i);
            a in m.mem && m.mem[a] == if Signals(devs, i) > Waiting(k, i) then 1 else Value(k, i)
  {
    TimersKeep(k, timer, tick, i);
    var k1 := if timer then Enqueued(k, k.current) else k;
    ServedRaises(if tick then Ticked(k1) else k1, devs, i);
    hide Inv, Core, CurrentApart, Legal, Served, Signals, Waiting, Value, Ticked, Enqueued;
  }

  lemma InterruptRaises(k: K, timer: bool, tick: bool, devs: seq<nat>, i: nat)
    requires Inv(k) && Legal(k, Interrupt(timer, tick, devs)) && i < DeviceRegisters.SEM_NUM
    ensures var r := Step(k, Interrupt(timer, tick, devs)).0;
            Inv(r) && Value(r, i) == if Signals(devs, i) > Waiting(k, i) then 1 else Value(k, i)
  {
    StepKeepsInv(k, Interrupt(timer, tick, devs));
    InterruptedRaises(k, timer, tick, devs, i);
    InterruptFrame(k, timer, tick, devs);
    hide Inv, Core, CurrentApart, Legal, Interrupted, Signals, Waiting;
  }

  /** Whether the last operation on the semaphore, if the run has any on it, was a V that found nobody waiting;
      otherwise `was`. */
  ghost predicate Unclaimed(k: K, es: seq<Event>, i: nat, was: bool)
    requires Inv(k) && LegalRun(k, es)
    decreases |es|
  {
    if es == [] then was
    else
      StepKeepsInv(k, es[0]);
      Unclaimed(Step(k, es[0]).0, es[1..], i,
                if es[0] == DoIo(i, true) then false
                else if es[0].Interrupt? && i in es[0].devs then Signals(es[0].devs, i) > Waiting(k, i)
                else was)
  }

  /** Over any run a device semaphore is 0 or 1, and it is 1 exactly if the last operation on it was a V that
      found nobody waiting; and nobody waits then. */
  lemma {:induction false} RaisedWhenUnclaimed(k: K, es: seq<Event>, i: nat)
    requires Inv(k) && LegalRun(k, es) && i < DeviceRegisters.SEM_NUM
    ensures var r := Run(k, es);
            && (Value(r, i) == 0 || (Value(r, i) == 1 && Waiting(r, i) == 0))
            && (Value(r, i) == 1 <==> Unclaimed(k, es, i, Value(k, i) == 1))
    decreases |es|
  {
    if es == [] {
      OneHasNoQueue(k, i);
    } else {
      StepKeepsInv(k, es[0]);
      StepRaises(k, es[0], i);
      hide Inv, Legal, Step, Value, Waiting, Signals;
      RaisedWhenUnclaimed(Step(k, es[0]).0, es[1..], i);
    }
  }

  lemma OneHasNoQueue(k: K, i: nat)
    requires Inv(k) && i < DeviceRegisters.SEM_NUM
    ensures Value(k, i) == 0 || (Value(k, i) == 1 && Waiting(k, i) == 0)
  {
  }

  lemma StepRaises(k: K, e: Event, i: nat)
    requires Inv(k) && Legal(k, e) && i < DeviceRegisters.SEM_NUM
    ensures Inv(Step(k, e).0)
    ensures Value(Step(k, e).0, i) == 1 <==>
            if e == DoIo(i, true) then false
            else if e.Interrupt? && i in e.devs then Signals(e.devs, i) > Waiting(k, i)
            else Value(k, i) == 1
  {
    StepKeepsInv(k, e);
    if e == DoIo(i, true) {
      RequestLowers(k, i);
      StepSize(k, e);
    } else if e.Interrupt? {
      InterruptRaises(k, e.timer, e.tick, e.devs, i);
      OneHasNoQueue(k, i);
      assert i in e.devs <==> Signals(e.devs, i) > 0;
    } else {
      OthersKeep(k, e, i);
    }
    hide Step, Inv, Legal, Signals;
  }

  /** From initKernel on. */
  lemma DeviceHistory(lay: Layout, n: nat, kind: seq<int>, mem: map<int, nat>, es: seq<Event>, i: nat)
    requires n > 0 && lay.WellPlaced() && KernelMemory(lay, mem) && i < DeviceRegisters.SEM_NUM
    requires LegalRun(Started(lay, n, kind, mem), es)
    ensures var s := Started(lay, n, kind, mem);
            Value(Run(s, es), i) == if Unclaimed(s, es, i, false) then 1 else 0
  {
    var s := Started(lay, n, kind, mem);
    assert s.mem == mem && s.lay == lay;
    RaisedWhenUnclaimed(s, es, i);
    hide Inv, LegalRun, Run, Unclaimed;
  }
}
