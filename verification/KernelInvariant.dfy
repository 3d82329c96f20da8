/** Every step keeps the kernel invariant, and initKernel establishes it. */
module KernelInvariant {
  import opened Seqs
  import opened Trees
  import opened DeviceRegisters
  import opened KernelState
  import opened KernelSteps

  /** The state that initKernel leaves: one process, in the last entry of the table, which is
      the first on the free list; every semaphore of the kernel at 0. */
  ghost function Booted(lay: Layout, n: nat, kind: seq<int>, mem: map<int, nat>): K
    requires n > 0
  {
    K(lay, Descending(n - 1), [n - 1], map[], -1,
      Fill(n, 0),
      Tree(Fill(n, []), Fill(n, -1), Fill(n, 0)[n - 1 := 1], 2),
      Fill(n, 0)[n - 1 := 1], 2,
      Spaces(Fill(n, Fill(NS_TYPE_MAX, -1)), kind, Ascending(|kind|), []),
      mem, 1, 0, 0)
  }

  ghost predicate KernelMemory(lay: Layout, mem: map<int, nat>) {
    && 0 !in mem && lay.clock in mem && mem[lay.clock] == 0
    && forall i {:trigger lay.DevSem(i)} :: 0 <= i < SEM_NUM ==> lay.DevSem(i) in mem && mem[lay.DevSem(i)] == 0
  }

  /** The state that initKernel has built before it allocates the first process. */
  ghost function Cold(lay: Layout, n: nat, kind: seq<int>, mem: map<int, nat>): K {
    K(lay, Descending(n), [], map[], -1, Fill(n, 0), Tree(Fill(n, []), Fill(n, -1), Fill(n, 0), 1), Fill(n, 0), 1,
      Spaces(Fill(n, Fill(NS_TYPE_MAX, -1)), kind, Ascending(|kind|), []), mem, 0, 0, 0)
  }

  lemma ColdCore(lay: Layout, n: nat, kind: seq<int>, mem: map<int, nat>)
    requires lay.WellPlaced()
    ensures Core(Cold(lay, n, kind, mem))
  {
    assert SoftSet(Cold(lay, n, kind, mem)) == {};
  }

  /** initDevSems: the device semaphores and the pseudo clock at 0, all other words as they were. */
  ghost function Cleared(lay: Layout, mem: map<int, nat>, count: nat): (r: map<int, nat>)
    ensures forall i {:trigger lay.DevSem(i)} :: 0 <= i < count ==> lay.DevSem(i) in r && r[lay.DevSem(i)] == 0
    ensures forall a :: a in r ==> a in mem || exists i :: 0 <= i < count && a == lay.DevSem(i)
    ensures forall a :: a in mem ==> a in r && (r[a] == mem[a] || exists i :: 0 <= i < count && a == lay.DevSem(i))
  {
    if count == 0 then mem else Cleared(lay, mem, count - 1)[lay.DevSem(count - 1) := 0]
  }

  lemma ClearedNone(lay: Layout, mem: map<int, nat>)
    ensures Cleared(lay, mem, 0) == mem
  {
  }

  lemma ClearedNext(lay: Layout, mem: map<int, nat>, i: nat)
    ensures Cleared(lay, mem, i + 1) == Cleared(lay, mem, i)[lay.DevSem(i) := 0]
  {
  }

  lemma ClearedMemory(lay: Layout, mem: map<int, nat>)
    requires lay.WellPlaced() && 0 !in mem
    ensures KernelMemory(lay, Cleared(lay, mem, SEM_NUM)[lay.clock := 0])
  {
  }

  lemma BootedInv(lay: Layout, n: nat, kind: seq<int>, mem: map<int, nat>)
    requires n > 0 && lay.WellPlaced() && KernelMemory(lay, mem)
    ensures Inv(Booted(lay, n, kind, mem))
  {
    var k := Booted(lay, n, kind, mem);
    BootedPlaces(lay, n, kind, mem);
    BootedDevices(lay, n, kind, mem);
    assert SoftSet(k) == {};
    hide Fill, Descending, Ascending, Places, Devices;
  }

  lemma BootedPlaces(lay: Layout, n: nat, kind: seq<int>, mem: map<int, nat>)
    requires n > 0
    ensures Places(Booted(lay, n, kind, mem))
  {
    DescendingElems(n - 1);
  }

  lemma BootedDevices(lay: Layout, n: nat, kind: seq<int>, mem: map<int, nat>)
    requires n > 0 && KernelMemory(lay, mem)
    ensures Devices(Booted(lay, n, kind, mem))
  {
    hide Fill, Descending, Ascending;
  }

  lemma CoreScheduled(k: K)
    requires Core(k)
    ensures Core(Scheduled(k).0) && CurrentApart(Scheduled(k).0)
  {
    var r := Scheduled(k).0;
    SoftSetOf(k, r);
    hide Forest, Queues, SoftSet;
    if k.ready != [] {
      RestOf(k.ready);
      assert k.ready[0] in k.ready;
    }
  }

  lemma DeadIsSubtree(k: K, p: nat)
    requires Core(k) && p < |k.sem| && p !in k.free
    ensures NoDup(Post(k.tree, p))
    ensures forall x :: x in Post(k.tree, p) ==> x < |k.sem| && x !in k.free
    ensures forall x, c :: x in Post(k.tree, p) && c in k.tree.kids[x] ==> c in Post(k.tree, p)
  {
    PostNoDup(k.tree, p);
    forall x | x in Post(k.tree, p)
      ensures x !in k.free
      ensures forall c :: c in k.tree.kids[x] ==> c in Post(k.tree, p)
    {
      PostIsSubtree(k.tree, p, x);
      forall c | c in k.tree.kids[x]
        ensures c in Post(k.tree, p)
      {
        PostIsSubtree(k.tree, p, c);
        assert Within(k.tree, c, p);
      }
    }
  }

  lemma CoreTerminated(k: K, p: nat)
    requires Core(k) && p < |k.sem| && p !in k.free
    ensures Core(Terminated(k, p))
  {
    DeadIsSubtree(k, p);
    CoreKilled(k, Post(k.tree, p));
  }

  lemma PlacesCreated(k: K, r: K)
    requires Places(k) && k.free != []
    requires r.free == k.free[1..] && r.ready == Minus(k.ready, {k.free[0]}) + [k.free[0]]
    requires r.sem == k.sem && r.blocked == k.blocked
    ensures Places(r)
  {
    var p := k.free[0];
    assert k.free == [p] + k.free[1..];
    assert p in k.free && p !in k.free[1..];
    MinusNone(k.ready, {p});
    NoDupAppend(k.ready, [p]);
    assert r.ready == k.ready + [p];
    assert forall x :: x in r.free ==> x in k.free;
  }

  lemma CoreSpawned(k: K)
    requires Inv(k) && k.current != -1 && k.free != []
    ensures Core(Spawned(k)) && CurrentApart(Spawned(k))
  {
    var p := k.free[0];
    var r := Spawned(k);
    assert p in k.free && k.free == [p] + k.free[1..];
    PlacesCreated(k, r);
    assert SoftSet(r) == SoftSet(k);
    forall x | x in r.free
      ensures r.tree.parent[x] == -1 && r.tree.kids[x] == []
    {
      assert x in k.free && x != p && x != k.current;
    }
  }

  lemma CoreCreated(k: K, nsd: int)
    requires Inv(k) && Legal(k, Create(nsd)) && k.free != []
    ensures Core(Created(k, nsd).0) && CurrentApart(Created(k, nsd).0)
  {
    CoreSpawned(k);
    assert SoftSet(Created(k, nsd).0) == SoftSet(k);
  }

  /** The device invariant depends on the semaphores and on which of them have a queue. */
  lemma DevicesFrame(k: K, r: K)
    requires Devices(k) && r.lay == k.lay && r.mem == k.mem && r.blocked.Keys <= k.blocked.Keys
    ensures Devices(r)
  {
    assert forall a :: a in r.blocked ==> a in r.blocked.Keys;
  }

  lemma DevicesPlain(k: K, a: int, r: K)
    requires Devices(k) && !k.lay.Soft(a) && a in k.mem && r.lay == k.lay
    requires r.mem.Keys == k.mem.Keys && (forall b :: b in k.mem && b != a ==> r.mem[b] == k.mem[b])
    requires r.blocked.Keys <= k.blocked.Keys + {a}
    ensures Devices(r)
  {
    assert forall b :: b in r.blocked ==> b in r.blocked.Keys;
  }

  lemma DevicesSignalled(k: K, i: nat)
    requires Core(k) && Devices(k) && i < SEM_NUM
    ensures var a := k.lay.DevSem(i);
            (a in k.blocked ==> k.blocked[a] != [] && k.blocked[a][0] < |k.sem|) && Devices(Signalled(k, a))
  {
    HeadsOk(k);
    var a := k.lay.DevSem(i);
    if a in k.blocked {
      DevicesFrame(k, Signalled(k, a));
    }
  }

  lemma {:induction false} DevicesServed(k: K, devs: seq<nat>)
    requires Core(k) && Devices(k) && forall i :: i in devs ==> i < SEM_NUM
    ensures Devices(Served(k, devs)) && Served(k, devs).spaces == k.spaces
    decreases |devs|
  {
    if devs != [] {
      assert devs[0] in devs && forall i :: i in devs[1..] ==> i in devs;
      HeadsOk(k);
      CoreSignalled(k, k.lay.DevSem(devs[0]));
      DevicesSignalled(k, devs[0]);
      DevicesServed(Signalled(k, k.lay.DevSem(devs[0])), devs[1..]);
    }
  }

  lemma WaitedOk(k: K, a: int)
    requires Inv(k) && k.current != -1
    requires a == k.lay.clock || exists i: nat :: i < SEM_NUM && a == k.lay.DevSem(i)
    ensures Core(Waited(k, a)) && Devices(Waited(k, a))
  {
    if k.mem[a] == 0 {
      CoreBlocked(k, a, k.current);
    } else {
      assert SoftSet(Waited(k, a)) == SoftSet(k);
    }
    DevicesWaited(k, a);
  }

  lemma DevicesWaited(k: K, a: int)
    requires Devices(k) && 0 <= k.current < |k.sem|
    requires a == k.lay.clock || exists i: nat :: i < SEM_NUM && a == k.lay.DevSem(i)
    ensures Devices(Waited(k, a))
  {
  }

  lemma PassedOk(k: K, a: int)
    requires Inv(k) && Legal(k, Passeren(a))
    ensures a in k.blocked ==> k.blocked[a] != [] && k.blocked[a][0] < |k.sem|
    ensures Core(Passed(k, a)) && Devices(Passed(k, a))
    ensures k.mem[a] != 0 ==> CurrentApart(Passed(k, a))
  {
    HeadsOk(k);
    if k.mem[a] == 0 {
      CoreBlocked(k, a, k.current);
    } else if a in k.blocked {
      CoreWoken(k, a);
    } else {
      assert SoftSet(Passed(k, a)) == SoftSet(k);
    }
    DevicesPlain(k, a, Passed(k, a));
  }

  lemma RaisedOk(k: K, a: int)
    requires Inv(k) && Legal(k, Verhogen(a))
    ensures a in k.blocked ==> k.blocked[a] != [] && k.blocked[a][0] < |k.sem|
    ensures Core(Raised(k, a)) && Devices(Raised(k, a))
    ensures k.mem[a] != 1 ==> CurrentApart(Raised(k, a))
  {
    HeadsOk(k);
    if k.mem[a] == 1 {
      CoreBlocked(k, a, k.current);
    } else if a in k.blocked {
      CoreWoken(k, a);
    } else {
      assert SoftSet(Raised(k, a)) == SoftSet(k);
    }
    DevicesPlain(k, a, Raised(k, a));
  }

  lemma ScheduledInv(k: K)
    requires Core(k) && SpacesOk(k.spaces) && Devices(k)
    ensures Inv(Scheduled(k).0)
  {
    CoreScheduled(k);
    DevicesFrame(k, Scheduled(k).0);
  }

  lemma CreateKeepsInv(k: K, nsd: int)
    requires Inv(k) && Legal(k, Create(nsd))
    ensures Inv(Created(k, nsd).0)
  {
    if k.free != [] {
      CoreCreated(k, nsd);
      DevicesFrame(k, Created(k, nsd).0);
    }
  }

  lemma TerminateKeepsInv(k: K, p: nat)
    requires Inv(k) && p < |k.sem| && p !in k.free
    ensures Inv(Scheduled(Terminated(k, p)).0)
  {
    CoreTerminated(k, p);
    DevicesFrame(k, Terminated(k, p));
    ScheduledInv(Terminated(k, p));
  }

  lemma NullKeepsInv(k: K)
    requires Inv(k)
    ensures Inv(Scheduled(Nulled(k)).0)
  {
    CoreNulled(k);
    DevicesFrame(k, Nulled(k));
    ScheduledInv(Nulled(k));
  }

  lemma SpacesKeepInv(k: K, s: Spaces)
    requires Inv(k) && SpacesOk(s) && |s.slots| == |k.spaces.slots|
    ensures Inv(k.(spaces := s))
  {
    SoftSetOf(k, k.(spaces := s));
    DevicesFrame(k, k.(spaces := s));
  }

  lemma DevicesEnqueued(k: K, p: nat)
    requires Devices(k)
    ensures Devices(Enqueued(k, p))
  {
    DevicesFrame(k, Enqueued(k, p));
  }

  lemma DevicesTicked(k: K)
    requires Devices(k)
    ensures Devices(Ticked(k))
  {
    assert (k.blocked - {k.lay.clock}).Keys <= k.blocked.Keys;
    DevicesFrame(k, Ticked(k).(mem := k.mem));
    assert k.mem[k.lay.clock := 0] == k.mem;
  }

  lemma InterruptKeepsInv(k: K, timer: bool, tick: bool, devs: seq<nat>)
    requires Inv(k) && Legal(k, Interrupt(timer, tick, devs))
    ensures var r := Interrupted(k, timer, tick, devs); Inv(r) && Inv(Scheduled(r).0)
  {
    InterruptOk(k, timer, tick);
    if timer {
      DevicesEnqueued(k, k.current);
    }
    var k1 := if timer then Enqueued(k, k.current) else k;
    DevicesTicked(k1);
    DevicesServed(if tick then Ticked(k1) else k1, devs);
    ScheduledInv(Interrupted(k, timer, tick, devs));
  }

  lemma SemaphoreKeepsInv(k: K, a: int)
    requires Inv(k) && Legal(k, Passeren(a))
    ensures Inv(Step(k, Passeren(a)).0) && Inv(Step(k, Verhogen(a)).0)
  {
    PassedOk(k, a);
    RaisedOk(k, a);
    ScheduledInv(Passed(k, a));
    ScheduledInv(Raised(k, a));
  }

  lemma WaitKeepsInv(k: K, a: int)
    requires Inv(k) && k.current != -1
    requires a == k.lay.clock || exists i: nat :: i < SEM_NUM && a == k.lay.DevSem(i)
    ensures Inv(Scheduled(Waited(k, a)).0) && Inv(Scheduled(k).0)
  {
    WaitedOk(k, a);
    ScheduledInv(Waited(k, a));
    ScheduledInv(k);
  }

  lemma ListedIsLive(k: K, p: int, pid: nat)
    requires Core(k) && Listed(k, p, pid)
    ensures p !in k.free
  {
  }

  /** Whatever the exception, the invariant holds again when the kernel leaves. */
  lemma StepKeepsInv(k: K, e: Event)
    requires Inv(k) && Legal(k, e)
    ensures Inv(Step(k, e).0)
  {
    match e
    case Create(d) => CreateKeepsInv(k, d);
    case Terminate(pid, t) =>
      if t == -1 {
        NullKeepsInv(k);
      } else {
        if pid != 0 {
          ListedIsLive(k, t, pid);
        }
        TerminateKeepsInv(k, t);
      }
    case Passeren(a) => SemaphoreKeepsInv(k, a);
    case Verhogen(a) => SemaphoreKeepsInv(k, a);
    case DoIo(d, installed) => WaitKeepsInv(k, k.lay.DevSem(d));
    case ClockWait => WaitKeepsInv(k, k.lay.clock);
    case AllocSpace(ty) =>
      SpacesOkAllocated(k.spaces, ty);
      SpacesKeepInv(k, SpaceAllocated(k.spaces, ty));
    case FreeSpace(d) =>
      SpacesOkFreed(k.spaces, d);
      SpacesKeepInv(k, SpaceFreed(k.spaces, d));
    case Query =>
    case Interrupt(timer, tick, devs) => InterruptKeepsInv(k, timer, tick, devs);
  }
}
