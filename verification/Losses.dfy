/** Which processes the scheduler forgets.  `schedule` drops the running process unless it has been
    queued, blocked or freed before; four requests enter it otherwise. */
module Losses {
  import Seqs
  import Trees
  import DeviceRegisters
  import opened KernelState
  import opened KernelSteps
  import opened KernelInvariant
  import KernelFacts
  import opened Runs

  /** A live process in no queue. */
  ghost predicate Adrift(k: K, x: nat) {
    x < |k.sem| && x !in k.free && x !in k.ready && k.sem[x] == 0
  }

  /** A live process that is not running and that nothing will ever make ready. */
  ghost predicate Lost(k: K, x: nat) {
    Adrift(k, x) && k.current != x
  }

  /** The requests on which `schedule` forgets the caller: terminating a PID that findPcb does not find,
      terminating a process that the caller does not descend from, I/O on a device that is not
      installed, and I/O on a device whose semaphore is already raised. */
  ghost predicate Drops(k: K, e: Event)
    requires Inv(k) && Legal(k, e)
  {
    match e
    case Terminate(_, t) => t == -1 || !Trees.Within(k.tree, k.current, t)
    case DoIo(d, installed) => !installed || k.mem[k.lay.DevSem(d)] != 0
    case _ => false
  }

  lemma ScheduledLost(k: K, x: nat)
    requires Core(k)
    ensures Lost(Scheduled(k).0, x) <==> Adrift(k, x)
  {
    if k.ready != [] {
      assert k.ready == [k.ready[0]] + k.ready[1..];
    }
  }

  lemma BlockedAdrift(k: K, a: int, p: nat, x: nat)
    requires p < |k.sem| && a != 0
    ensures Adrift(Blocked(k, a, p), x) <==> Adrift(k, x) && x != p
  {
  }

  lemma WokenAdrift(k: K, a: int, x: nat)
    requires Core(k) && CurrentApart(k) && a in k.blocked
    ensures k.blocked[a] != [] && k.blocked[a][0] < |k.sem|
    ensures Adrift(Woken(k, a), x) <==> Adrift(k, x)
    ensures Woken(k, a).current == k.current && Woken(k, a).free == k.free
  {
    WokenIsUnblocked(k, a);
  }

  lemma KilledAdrift(k: K, dead: seq<nat>, x: nat)
    requires Core(k)
    ensures Adrift(Killed(k, dead), x) <==> Adrift(k, x) && x !in dead
  {
  }

  lemma TickedAdrift(k: K, x: nat)
    requires Core(k)
    ensures Adrift(Ticked(k), x) <==> Adrift(k, x)
  {
    var q := Queue(k.blocked, k.lay.clock);
    assert forall y :: y in q ==> k.sem[y] == k.lay.clock;
  }

  lemma {:induction false} ServedAdrift(k: K, devs: seq<nat>, x: nat)
    requires Core(k) && CurrentApart(k) && forall i :: i in devs ==> i < DeviceRegisters.SEM_NUM
    ensures Adrift(Served(k, devs), x) <==> Adrift(k, x)
    ensures Served(k, devs).current == k.current && Served(k, devs).free == k.free
    decreases |devs|
  {
    if devs != [] {
      assert devs[0] in devs && forall i :: i in devs[1..] ==> i in devs;
      var a := k.lay.DevSem(devs[0]);
      HeadsOk(k);
      CoreSignalled(k, a);
      if a in k.blocked {
        WokenAdrift(k, a, x);
      }
      ServedAdrift(Signalled(k, a), devs[1..], x);
    }
  }

  lemma SpawnedAdrift(k: K, x: nat)
    requires Inv(k) && k.current != -1 && k.free != []
    ensures Adrift(Spawned(k), x) <==> Adrift(k, x)
    ensures x !in k.free ==> x !in Spawned(k).free
  {
    assert k.free == [k.free[0]] + k.free[1..];
    CoreSpawned(k);
  }

  lemma CreateLost(k: K, nsd: int, x: nat)
    requires Inv(k) && Legal(k, Create(nsd))
    ensures Lost(Created(k, nsd).0, x) <==> Lost(k, x)
    ensures x !in k.free ==> x !in Created(k, nsd).0.free
  {
    if k.free != [] {
      SpawnedAdrift(k, x);
    }
  }

  lemma TerminateLost(k: K, t: nat, x: nat)
    requires Inv(k) && k.current != -1 && t < |k.sem| && t !in k.free
    ensures var r := Scheduled(Terminated(k, t)).0;
            Lost(r, x) <==> (Lost(k, x) && x !in r.free) || (x == k.current && !Trees.Within(k.tree, k.current, t))
  {
    CoreTerminated(k, t);
    ScheduledLost(Terminated(k, t), x);
    KilledAdrift(k, Trees.Post(k.tree, t), x);
    if x < |k.sem| {
      Trees.PostIsSubtree(k.tree, t, x);
    }
  }

  lemma WaitLost(k: K, a: int, x: nat)
    requires Inv(k) && k.current != -1
    requires a == k.lay.clock || exists i: nat :: i < DeviceRegisters.SEM_NUM && a == k.lay.DevSem(i)
    ensures var r := Scheduled(Waited(k, a)).0;
            (Lost(r, x) <==> Lost(k, x) || (x == k.current && k.mem[a] != 0)) && (x !in k.free ==> x !in r.free)
  {
    WaitedOk(k, a);
    ScheduledLost(Waited(k, a), x);
    if k.mem[a] == 0 {
      BlockedAdrift(k, a, k.current, x);
    }
  }

  lemma SemaphoreLost(k: K, a: int, x: nat)
    requires Inv(k) && Legal(k, Passeren(a))
    ensures Lost(Step(k, Passeren(a)).0, x) <==> Lost(k, x)
    ensures Lost(Step(k, Verhogen(a)).0, x) <==> Lost(k, x)
    ensures x !in k.free ==> x !in Step(k, Passeren(a)).0.free && x !in Step(k, Verhogen(a)).0.free
  {
    HeadsOk(k);
    PassedOk(k, a);
    RaisedOk(k, a);
    BlockedAdrift(k, a, k.current, x);
    if a in k.blocked {
      WokenAdrift(k, a, x);
    }
    if k.mem[a] == 0 {
      ScheduledLost(Passed(k, a), x);
    }
    if k.mem[a] == 1 {
      ScheduledLost(Raised(k, a), x);
    }
  }

  lemma InterruptedAdrift(k: K, timer: bool, tick: bool, devs: seq<nat>, x: nat)
    requires Inv(k) && Legal(k, Interrupt(timer, tick, devs))
    ensures var r := Interrupted(k, timer, tick, devs);
            && r.free == k.free && r.current == (if timer then -1 else k.current)
            && (Adrift(r, x) <==> if timer then Lost(k, x) else Adrift(k, x))
  {
    InterruptOk(k, timer, tick);
    var k1 := if timer then Enqueued(k, k.current) else k;
    TickedAdrift(k1, x);
    ServedAdrift(if tick then Ticked(k1) else k1, devs, x);
    assert Adrift(k1, x) <==> if timer then Lost(k, x) else Adrift(k, x);
    hide Inv, Core, Adrift, Lost, Served;
  }

  lemma InterruptLost(k: K, timer: bool, tick: bool, devs: seq<nat>, x: nat)
    requires Inv(k) && Legal(k, Interrupt(timer, tick, devs))
    ensures var r := Step(k, Interrupt(timer, tick, devs)).0;
            (Lost(r, x) <==> Lost(k, x)) && (x !in k.free ==> x !in r.free)
  {
    InterruptedAdrift(k, timer, tick, devs, x);
    ScheduledLost(Interrupted(k, timer, tick, devs), x);
    hide Inv, Core, Legal, Interrupted, Adrift;
  }

  /** A step loses a process exactly when it is one of the four requests, and then the caller. */
  lemma StepLosses(k: K, e: Event, x: nat)
    requires Inv(k) && Legal(k, e)
    ensures Lost(Step(k, e).0, x) <==> (Lost(k, x) && x !in Step(k, e).0.free) || (Drops(k, e) && x == k.current)
  {
    match e
    case Create(d) => CreateLost(k, d, x);
    case Terminate(pid, t) =>
      if t == -1 {
        CoreNulled(k);
        ScheduledLost(Nulled(k), x);
      } else {
        if pid != 0 {
          ListedIsLive(k, t, pid);
        }
        TerminateLost(k, t, x);
      }
    case Passeren(a) => SemaphoreLost(k, a, x);
    case Verhogen(a) => SemaphoreLost(k, a, x);
    case DoIo(d, installed) =>
      WaitLost(k, k.lay.DevSem(d), x);
      ScheduledLost(k, x);
    case ClockWait => WaitLost(k, k.lay.clock, x);
    case AllocSpace(_) =>
    case FreeSpace(_) =>
    case Query =>
    case Interrupt(timer, tick, devs) => InterruptLost(k, timer, tick, devs, x);
  }

  ghost predicate NobodyLost(k: K) {
    forall x: nat :: !Lost(k, x)
  }

  /** No event of the run is one of the four requests. */
  ghost predicate Careful(k: K, es: seq<Event>)
    requires Inv(k) && LegalRun(k, es)
    decreases |es|
  {
    es == [] || (!Drops(k, es[0]) && (StepKeepsInv(k, es[0]); Careful(Step(k, es[0]).0, es[1..])))
  }

  /** Nobody is lost at any point of the run. */
  ghost predicate KeepsEverybody(k: K, es: seq<Event>)
    requires Inv(k) && LegalRun(k, es)
    decreases |es|
  {
    NobodyLost(k) && (es == [] || (StepKeepsInv(k, es[0]); KeepsEverybody(Step(k, es[0]).0, es[1..])))
  }

  /** A run keeps every process exactly when it avoids the four requests. */
  lemma {:induction false} NobodyIsLost(k: K, es: seq<Event>)
    requires Inv(k) && LegalRun(k, es) && NobodyLost(k)
    ensures KeepsEverybody(k, es) <==> Careful(k, es)
    decreases |es|
  {
    if es != [] {
      StepKeepsInv(k, es[0]);
      var r := Step(k, es[0]).0;
      if Drops(k, es[0]) {
        StepLosses(k, es[0], k.current);
        assert Lost(r, k.current);
      } else {
        forall x: nat
          ensures !Lost(r, x)
        {
          StepLosses(k, es[0], x);
        }
        NobodyIsLost(r, es[1..]);
      }
    }
  }

  /** From initKernel on, a live process is running, ready, or on the queue of the semaphore that its
      `p_semAdd` names, as long as no request is one of the four. */
  lemma LiveProcessesHavePlaces(lay: Layout, n: nat, kind: seq<int>, mem: map<int, nat>, es: seq<Event>, x: nat)
    requires n > 0 && lay.WellPlaced() && KernelMemory(lay, mem)
    requires LegalRun(Started(lay, n, kind, mem), es) && Careful(Started(lay, n, kind, mem), es) && x < n
    ensures var k := Run(Started(lay, n, kind, mem), es);
            |k.sem| == n && (x !in k.free ==>
              k.current == x || x in k.ready || (k.sem[x] != 0 && k.sem[x] in k.blocked && x in k.blocked[k.sem[x]]))
  {
    var s := Started(lay, n, kind, mem);
    assert NobodyLost(s) by {
      Seqs.DescendingElems(n - 1);
    }
    NobodyIsLost(s, es);
    LastKept(s, es);
    SizeKept(s, es);
    assert !Lost(Run(s, es), x);
  }

  lemma {:induction false} LastKept(k: K, es: seq<Event>)
    requires Inv(k) && LegalRun(k, es) && KeepsEverybody(k, es)
    ensures NobodyLost(Run(k, es))
    decreases |es|
  {
    if es != [] {
      StepKeepsInv(k, es[0]);
      LastKept(Step(k, es[0]).0, es[1..]);
    }
  }

  /** The first process names itself, or any other PID that findPcb does not find: it is lost, and the kernel
      halts with it still live, whatever a read through NULL sees. */
  lemma NullTargetLosesCaller(lay: Layout, n: nat, kind: seq<int>, mem: map<int, nat>, pid: nat)
    requires n > 0 && lay.WellPlaced() && KernelMemory(lay, mem) && pid != 0
    ensures var k := Started(lay, n, kind, mem);
            var e := Terminate(pid, -1);
            Legal(k, e) && Lost(Step(k, e).0, n - 1) && Step(k, e).1 == Halt
  {
    var k := Started(lay, n, kind, mem);
    assert k.ready == [] && forall x: nat :: x < n ==> k.sem[x] == 0;
    StepLosses(k, Terminate(pid, -1), n - 1);
  }

  /** The first process asks for a device that is not there: it is lost, and the kernel panics. */
  lemma MissingDeviceLosesCaller(lay: Layout, n: nat, kind: seq<int>, mem: map<int, nat>)
    requires n > 0 && lay.WellPlaced() && KernelMemory(lay, mem)
    ensures var k := Started(lay, n, kind, mem);
            Legal(k, DoIo(0, false)) && Lost(Step(k, DoIo(0, false)).0, n - 1) && Step(k, DoIo(0, false)).1 == Deadlock
  {
    var k := Started(lay, n, kind, mem);
    assert k.ready == [];
    StepLosses(k, DoIo(0, false), n - 1);
  }

  /** The first process asks for a device that has interrupted before: it is lost. */
  lemma RaisedDeviceLosesCaller(lay: Layout, n: nat, kind: seq<int>, mem: map<int, nat>)
    requires n > 0 && lay.WellPlaced() && KernelMemory(lay, mem)
    ensures var es := [Interrupt(false, false, [0]), DoIo(0, true)];
            LegalRun(Started(lay, n, kind, mem), es) && Lost(Run(Started(lay, n, kind, mem), es), n - 1)
  {
    var k := Started(lay, n, kind, mem);
    var a, b := Interrupt(false, false, [0]), DoIo(0, true);
    assert lay.DevSem(0) !in k.blocked && k.lay == lay && |k.sem| == n;
    hide Started;
    InterruptRaises(k, 0);
    var r := Step(k, a).0;
    assert Legal(r, b);
    StepKeepsInv(r, b);
    StepLosses(r, b, n - 1);
    hide Inv, Legal, Step;
    TwoSteps(k, a, b);
  }

  /** A device that nobody waits for raises its semaphore. */
  lemma InterruptRaises(k: K, i: nat)
    requires Inv(k) && k.current != -1 && i < DeviceRegisters.SEM_NUM && k.lay.DevSem(i) !in k.blocked
    ensures var e := Interrupt(false, false, [i]);
            Legal(k, e) && Inv(Step(k, e).0) && Step(k, e).0 == k.(mem := k.mem[k.lay.DevSem(i) := 1])
  {
    InterruptOk(k, false, false);
    KernelFacts.ServedOne(k, i);
    StepKeepsInv(k, Interrupt(false, false, [i]));
  }

  lemma TwoSteps(k: K, a: Event, b: Event)
    requires Inv(k) && Legal(k, a) && Inv(Step(k, a).0) && Legal(Step(k, a).0, b)
    ensures LegalRun(k, [a, b]) && Run(k, [a, b]) == Step(Step(k, a).0, b).0
  {
    hide Inv, Legal, Step;
    OneStep(k, a);
    OneStep(Step(k, a).0, b);
    RunAppend(k, [a], [b]);
    assert [a] + [b] == [a, b];
  }

  /** A process that terminates its own child is lost: it does not descend from the child. */
  lemma TerminatingChildLosesCaller(lay: Layout, n: nat, kind: seq<int>, mem: map<int, nat>)
    requires n > 1 && lay.WellPlaced() && KernelMemory(lay, mem)
    ensures var es := [Create(-1), Terminate(2, n - 2)];
            LegalRun(Started(lay, n, kind, mem), es) && Lost(Run(Started(lay, n, kind, mem), es), n - 1)
  {
    var k := Started(lay, n, kind, mem);
    var a, b := Create(-1), Terminate(2, n - 2);
    assert k.free == Seqs.Descending(n - 1) && k.free[0] == n - 2;
    StepKeepsInv(k, a);
    CreateFrame(k, -1);
    var r := Step(k, a).0;
    assert r.ready == Spawned(k).ready && r.ready[|r.ready| - 1] == n - 2;
    assert Listed(r, n - 2, 2);
    assert r.tree.parent[n - 1] == -1;
    StepKeepsInv(r, b);
    assert !Trees.Within(r.tree, n - 1, n - 2);
    StepLosses(r, b, n - 1);
    TwoSteps(k, a, b);
  }
}
