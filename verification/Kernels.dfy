/** The kernel proper: the scheduler, the system calls and the interrupts, over the processes and
    the namespaces. */
module Kernels {
  import Seqs
  import Lists
  import opened Trees
  import opened Namespaces
  import opened DeviceRegisters
  import opened KernelState
  import Machine
  import opened KernelSteps
  import opened KernelInvariant
  import opened Terminations
  import opened KernelFacts
  import opened Pools
  import Creations
  import opened Effects
  import opened Interrupts

  /** A request of the running process, with its arguments; `Die` stands for a trap, or
      a request the kernel refuses, of a process without support structure; `Other` changes no kernel
      structure. */
  datatype Request =
    | CreateProcess(nsd: int)
    | TermProcess(pid: nat)
    | Passeren(sem: int)
    | Verhogen(sem: int)
    | DoIo(cmdAddr: int, ibitmap: nat)
    | ClockWait
    | Die
    | Other

  /** The step that a request asks for.  TERMPROCESS names a PID, and which PCB that is depends on
      the queues; DOIO names the registers of a device. */
  ghost predicate Asks(regs: Registers, r: Request, e: Event) {
    match r
    case CreateProcess(d) => e == Event.Create(d)
    case TermProcess(pid) => e.Terminate? && e.pid == pid
    case Passeren(a) => e == Event.Passeren(a)
    case Verhogen(a) => e == Event.Verhogen(a)
    case DoIo(addr, b) => exists u: Unit :: u.Exists() && addr == CmdAddr(regs, u) && e == IoEvent(u, b)
    case ClockWait => e == Event.ClockWait
    case Die => e.Terminate? && e.pid == 0
    case Other => e == Event.Query
  }

  /** What the kernel relies on: a process is running, a descriptor has a type that exists, a semaphore is a
      word outside the kernel's own, and an address is that of a register. */
  ghost predicate Permitted(regs: Registers, k: K, r: Request)
    requires Inv(k)
  {
    && k.current != -1
    && (r.CreateProcess? ==> Legal(k, Create(r.nsd)))
    && (r.Passeren? ==> Legal(k, Event.Passeren(r.sem)))
    && (r.Verhogen? ==> Legal(k, Event.Verhogen(r.sem)))
    && (r.DoIo? ==> 16 <= regs.size <= 17 && exists u: Unit :: u.Exists() && r.cmdAddr == CmdAddr(regs, u))
  }

  /** The first cells hold the PIDs of the children, as many as fit in `size`, and the others what they held. */
  ghost predicate ChildrenWritten(k: K, before: seq<int>, cells: seq<int>, size: int)
    requires Inv(k) && k.current != -1
  {
    cells == Written(before, Pids(k.pid, ChildrenOf(k)), size)
  }

  /** findPcb may return `p` for the PID: it is ready, or on the queue of some semaphore. */
  ghost predicate Findable(k: K, p: nat, pid: nat) {
    p < |k.pid| && k.pid[p] == pid && (p in k.ready || exists a :: a in k.blocked && p in k.blocked[a])
  }

  /** What each request does, whatever steps it is made of. */
  ghost predicate Answers(regs: Registers, k: K, r: Request, m: K, o: Outcome)
    requires Inv(k) && Permitted(regs, k, r)
  {
    && (r.CreateProcess? ==> Spawns(k, m, o))
    && (r.CreateProcess? && k.free != [] && k.free[0] < |k.sem| ==> Creations.Placed(k, r.nsd, m))
    && (r.TermProcess? && r.pid == 0 ==> Ends(k, k.current, m, o))
    && (r.TermProcess? && r.pid != 0 ==>
          || (exists p: nat :: Findable(k, p, r.pid) && p < |k.tree.kids| && Ends(k, p, m, o))
          || ((forall p: nat :: !Findable(k, p, r.pid)) && EndsNobody(k, m, o)))
    && (r.Passeren? ==> Operates(k, r.sem, k.mem[r.sem] == 0, (k.mem[r.sem] as int) - 1, m, o))
    && (r.Verhogen? ==> Operates(k, r.sem, k.mem[r.sem] == 1, (k.mem[r.sem] + 1) % Machine.WORD, m, o))
    && (r.DoIo? ==> forall u: Unit {:trigger u.Exists()} :: u.Exists() && r.cmdAddr == CmdAddr(regs, u) ==>
          if r.ibitmap / Pow2(u.dev) % 2 == 1 then Waits(k, k.lay.DevSem(ServedIndex(u)), m, o)
          else OnlySchedules(k, m, o))
    && (r.ClockWait? ==> Waits(k, k.lay.clock, m, o))
    && (r.Die? ==> Ends(k, k.current, m, o))
    && (r.Other? ==> m == k && Returns(k, m, o))
  }

  lemma PermittedWord(regs: Registers, k: K, r: Request)
    requires Inv(k) && Permitted(regs, k, r)
    ensures (r.Passeren? || r.Verhogen?) ==> r.sem in k.mem && r.sem != 0
  {
  }

  lemma AskedIsLegal(regs: Registers, k: K, r: Request, e: Event)
    requires Inv(k) && Permitted(regs, k, r) && Asks(regs, r, e)
    requires e.Terminate? ==> if e.pid == 0 then e.target == k.current
                              else Listed(k, e.target, e.pid) || (e.target == -1 && forall p :: !Listed(k, p, e.pid))
    ensures Legal(k, e)
  {
  }

  lemma RequestEffect(regs: Registers, k: K, r: Request, e: Event)
    requires Inv(k) && Permitted(regs, k, r) && Asks(regs, r, e) && Legal(k, e)
    ensures var (m, o) := Step(k, e); Answers(regs, k, r, m, o)
  {
    hide Step, Spawns, Operates, Waits, Ends, EndsNobody, OnlySchedules, Findable;
    match r
    case CreateProcess(d) =>
      CreateEffect(k, d);
      NewIsPlaced(k, d);
    case TermProcess(pid) =>
      FoundIsListed(k, pid);
      TerminateEffect(k, pid, e.target);
    case Passeren(a) => PasserenEffect(k, a);
    case Verhogen(a) => VerhogenEffect(k, a);
    case DoIo(addr, b) =>
      DoIoEffect(k, e.dev, e.installed);
      UnitOfAddr(regs, r.cmdAddr);
    case ClockWait => ClockWaitEffect(k);
    case Die => TerminateEffect(k, 0, e.target);
    case Other =>
      hide Inv;
      QueryEffect(k);
  }

  lemma NewIsPlaced(k: K, nsd: int)
    requires Inv(k) && Legal(k, Create(nsd))
    ensures k.free != [] ==> k.free[0] < |k.sem| && Creations.Placed(k, nsd, Step(k, Create(nsd)).0)
  {
    if k.free != [] {
      Creations.CreationSpaces(k, nsd);
    }
  }

  lemma QueryEffect(k: K)
    requires Inv(k) && k.current != -1
    ensures var (m, o) := Step(k, Query); m == k && Returns(k, m, o)
  {
  }

  lemma FoundIsListed(k: K, pid: nat)
    requires Inv(k)
    ensures |k.pid| == |k.sem| && forall p: nat :: Findable(k, p, pid) <==> Listed(k, p, pid)
  {
    forall p: nat
      ensures Findable(k, p, pid) <==> Listed(k, p, pid)
    {
      if p < |k.sem| && k.sem[p] != 0 {
        assert k.sem[p] in k.blocked && p in k.blocked[k.sem[p]];
      }
    }
  }

  /** An address is that of one unit only. */
  lemma UnitOfAddr(regs: Registers, addr: int)
    requires 16 <= regs.size <= 17
    ensures forall u: Unit, v: Unit {:trigger u.Exists(), v.Exists()} ::
              (u.Exists() && v.Exists() && addr == CmdAddr(regs, u) == CmdAddr(regs, v)) ==> u == v
  {
    forall u: Unit, v: Unit {:trigger u.Exists(), v.Exists()}
      | u.Exists() && v.Exists() && addr == CmdAddr(regs, u) == CmdAddr(regs, v)
      ensures u == v
    {
      IndexAgrees(regs);
      assert Agrees(regs, u) && Agrees(regs, v);
      IndexInjective(regs, u, v);
    }
  }

  function IoEvent(u: Unit, ibitmap: nat): Event
    requires u.Exists()
  {
    Event.DoIo(ServedIndex(u), ibitmap / Pow2(u.dev) % 2 == 1)
  }

  class Kernel {
    const lay: Layout
    const regs: Registers
    const pool: Pool
    const spaces: NamespaceTable
    ghost const Repr: set<object>
    var current: int          // current_active_process
    var processCount: nat     // unsigned, and so is softBlockCount
    var softBlockCount: nat
    ghost var procs: int      // the two counters before reduction
    ghost var soft: int
    ghost var nulls: nat
    var pidCounter: nat
    var mem: map<int, nat>    // the words used as semaphores

    ghost predicate Apart() {
      && Repr == {this} + pool.Repr + spaces.Repr
      && this !in pool.Repr && this !in spaces.Repr && spaces.Repr !! pool.Repr
      && spaces.table == pool.table && {spaces, spaces.links} <= spaces.Repr
      && {pool, pool.table, pool.table.links, pool.table.tree, pool.ash} <= pool.Repr
    }

    ghost predicate Valid()
      reads this, Repr
    {
      && Apart() && pool.Valid() && spaces.Valid() && {NS_FREE, NS_USED} <= spaces.links.up
      && processCount == procs % Machine.WORD && softBlockCount == soft % Machine.WORD
    }

    /** The state of the kernel as a value. */
    ghost function St(): K
      reads this, pool, pool.table, pool.table.links, pool.table.tree, pool.ash, spaces, spaces.links, spaces.table
    {
      var w := pool.W();
      K(lay, w.free, w.ready, w.blocked, current, w.sem, w.tree, w.pid, pidCounter,
        spaces.S(), mem, procs, soft, nulls)
    }

    constructor (lay: Layout, regs: Registers, p: Pool, s: NamespaceTable, mem: map<int, nat>)
      requires p.Repr !! s.Repr && s.table == p.table && {s, s.links} <= s.Repr
      requires {p, p.table, p.table.links, p.table.tree, p.ash} <= p.Repr
      ensures Apart() && this.lay == lay && this.regs == regs && pool == p && spaces == s && this.mem == mem
      ensures fresh(Repr - p.Repr - s.Repr)
      ensures current == -1 && processCount == 0 && softBlockCount == 0 && pidCounter == 0
      ensures procs == 0 && soft == 0 && nulls == 0
    {
      this.lay, this.regs, pool, spaces, this.mem := lay, regs, p, s, mem;
      Repr := {this} + p.Repr + s.Repr;
      current, processCount, softBlockCount, pidCounter := -1, 0, 0, 0;
      procs, soft, nulls := 0, 0, 0;
    }

    /** The kernel's data structures, as initPcbs, initASH, initNamespaces and initScheduler leave
        them; `mem` holds the words that programs use as semaphores. */
    static method Start(lay: Layout, regs: Registers, n: nat, mem: map<int, nat>) returns (o: Kernel)
      ensures o.Valid() && fresh(o.Repr) && o.regs == regs
      ensures o.St() == Cold(lay, n, Seqs.Fill(n, 0), mem)
    {
      hide Pool.Valid, NamespaceTable.Valid, Lists.Links.Valid;
      var p := Pool.Start(n);
      var s := NamespaceTable.Allocate(p.table, n);
      s.InitNamespaces();
      StartFacts(p, s);
      o := new Kernel(lay, regs, p, s, mem);
      o.pidCounter := 1;
    }

    /** initDevSems */
    method InitDevSems()
      requires Valid()
      modifies Repr
      ensures Valid()
      ensures St() == old(St()).(mem := Cleared(old(St()).lay, old(St()).mem, SEM_NUM)[old(St()).lay.clock := 0])
    {
      hide Valid, St, Cleared;
      ghost var k := St();
      ClearedNone(k.lay, k.mem);
      var i := 0;
      while i < SEM_NUM
        invariant 0 <= i <= SEM_NUM && Valid() && St() == k.(mem := Cleared(k.lay, k.mem, i))
      {
        ClearedNext(k.lay, k.mem, i);
        var a := DevSem(i);
        Store(a, 0);
        i := i + 1;
      }
      var clock := ClockSem();
      Store(clock, 0);
    }

    /** initKernel: the first process is made from the first PCB on the free list and is ready. */
    static method InitKernel(lay: Layout, regs: Registers, n: nat, mem: map<int, nat>) returns (o: Kernel)
      requires n > 0 && lay.WellPlaced() && 0 !in mem
      ensures o.Valid() && fresh(o.Repr) && o.regs == regs && Inv(o.St())
      ensures o.St() == Booted(lay, n, Seqs.Fill(n, 0), Cleared(lay, mem, SEM_NUM)[lay.clock := 0])
    {
      hide Kernel.Valid, Kernel.St, Core, Booted, Cold, Cleared, WithFirst;
      o := Start(lay, regs, n, mem);
      o.InitDevSems();
      ghost var m := Cleared(lay, mem, SEM_NUM)[lay.clock := 0];
      ColdFirst(lay, n, m);
      ColdMemory(lay, n, mem, m);
      ClearedMemory(lay, mem);
      BootedInv(lay, n, Seqs.Fill(n, 0), m);
      o.FirstProcess();
    }

    /** The part of initKernel that makes the first process. */
    method FirstProcess()
      requires Valid() && Core(St()) && St().free != [] && St().free[0] !in St().free[1..]
      modifies Repr
      ensures Valid() && St() == WithFirst(old(St()))
    {
      hide Valid, St;
      FreeHeadOk(St());
      var p := Alloc();
      EnqueueReady(p);
      CountProcesses(1);
      var pid := GetNewPid();
      SetPid(p, pid);
    }

    lemma Sizes()
      requires Valid()
      ensures |St().sem| == |pool.table.pcbs| && |St().pid| == |pool.table.pcbs|
      ensures |St().spaces.slots| == |pool.table.pcbs| && |St().tree.kids| == |pool.table.pcbs|
      ensures |St().spaces.kind| == |spaces.nsds|
    {
      pool.Sizes();
    }

    /** allocPcb; -1 when every PCB is in use. */
    method Alloc() returns (p: int)
      requires Valid() && Core(St())
      modifies Repr
      ensures Valid()
      ensures old(St()).free == [] ==> p == -1 && St() == old(St())
      ensures old(St()).free != [] ==>
                p == old(St()).free[0] && 0 <= p < |St().sem| &&
                St() == old(St()).(free := old(St()).free[1..], tree := Born(old(St()).tree, old(St()).free[0]))
    {
      hide Pool.Valid, NamespaceTable.Valid, Forest, SoftSet;
      pool.Sizes();
      assert St().free != [] ==> St().free[0] in St().free;
      p := pool.Alloc();
    }

    method SetPid(p: nat, x: nat)
      requires Valid() && p < |St().sem|
      modifies Repr
      ensures Valid() && St() == old(St()).(pid := old(St()).pid[p := x])
    {
      hide Pool.Valid, NamespaceTable.Valid;
      pool.Sizes();
      pool.SetPid(p, x);
    }

    method PidOf(p: nat) returns (x: nat)
      requires Valid() && p < |St().sem|
      ensures |St().pid| == |St().sem| && x == St().pid[p]
    {
      pool.Sizes();
      pool.TableOk();
      hide Pool.Valid, NamespaceTable.Valid;
      x := pool.table.PidOf(p);
    }

    /** insertChild of a process under the current one. */
    method Adopt(p: nat)
      requires Valid() && 0 <= St().current < |St().tree.kids| && p < |St().tree.kids| && St().current !in St().free
      requires Forest(St().tree) && St().tree.parent[p] == -1 && St().tree.birth[St().current] < St().tree.birth[p]
      modifies Repr
      ensures Valid() && St() == old(St()).(tree := Adopted(old(St()).tree, old(St()).current, p))
    {
      hide Pool.Valid, NamespaceTable.Valid, Forest;
      pool.Sizes();
      pool.InsertChild(current, p);
    }

    /** outChild; -1 is NULL. */
    method OutChild(p: int)
      requires Valid() && Core(St()) && -1 <= p < |St().sem|
      modifies Repr
      ensures Valid() && St() == if p == -1 then old(St()) else old(St()).(tree := Pruned(old(St()).tree, {p}))
    {
      hide Pool.Valid, NamespaceTable.Valid, Forest, SoftSet, Places;
      pool.Sizes();
      FreeOk(St());
      pool.OutChild(p);
    }

    /** removeChild; -1 is NULL, and when there is no child. */
    method RemoveChild(p: int) returns (c: int)
      requires Valid() && Core(St()) && -1 <= p < |St().sem| && (p != -1 ==> p !in St().free)
      modifies Repr
      ensures Valid()
      ensures p == -1 || old(St()).tree.kids[p] == [] ==> c == -1 && St() == old(St())
      ensures p != -1 && old(St()).tree.kids[p] != [] ==>
                c == old(St()).tree.kids[p][0]
                && St() == old(St()).(tree := Pruned(old(St()).tree, {old(St()).tree.kids[p][0]}))
    {
      hide Pool.Valid, NamespaceTable.Valid, Forest, SoftSet, Places;
      pool.Sizes();
      FreeOk(St());
      c := pool.RemoveChild(p);
    }

    /** outProcQ on the ready queue. */
    method OutReady(p: nat)
      requires Valid() && p < |St().sem|
      modifies Repr
      ensures Valid() && St() == old(St()).(ready := Seqs.Minus(old(St()).ready, {p}))
    {
      hide Pool.Valid, NamespaceTable.Valid;
      pool.Sizes();
      pool.DropReady(p);
    }

    /** outBlocked; -1 is NULL. */
    method OutBlocked(p: int)
      requires Valid() && -1 <= p < |St().sem|
      modifies Repr
      ensures Valid() && St() == if p == -1 then old(St()) else Unblocked(old(St()), p)
    {
      hide Pool.Valid, NamespaceTable.Valid;
      pool.Sizes();
      var r := pool.Unblock(p);
    }

    /** freePcb of a process that is not blocked; -1 is NULL. */
    method FreePcb(p: int)
      requires Valid() && -1 <= p < |St().sem| && (p != -1 ==> p !in St().free && St().sem[p] == 0)
      modifies Repr
      ensures Valid()
      ensures p == -1 ==> St() == old(St())
      ensures p != -1 ==>
                St() == old(St()).(free := [p as nat] + old(St()).free,
                                   ready := Seqs.Minus(old(St()).ready, {p as nat}))
    {
      hide Pool.Valid, NamespaceTable.Valid;
      pool.Sizes();
      pool.Free(p);
    }

    /** insertBlocked, whose result is never an error here. */
    method InsertBlocked(a: int, p: nat)
      requires Valid() && a != 0 && p < |St().sem| && p !in St().free && p !in St().ready && St().sem[p] == 0
      modifies Repr
      ensures Valid() && St() == Blocked(old(St()), a, p)
    {
      hide Pool.Valid, NamespaceTable.Valid;
      pool.Sizes();
      var r := pool.Block(a, p);
    }

    /** headBlocked */
    method HeadBlocked(a: int) returns (p: int)
      requires Valid()
      ensures p == if a in St().blocked then St().blocked[a][0] else -1
    {
      hide Pool.Valid, NamespaceTable.Valid;
      p := pool.Head(a);
    }

    /** removeBlocked and enqueueReady of the process that it returns; -1 when nobody is blocked. */
    method Wake(a: int) returns (p: int)
      requires Valid() && Core(St())
      modifies Repr
      ensures Valid()
      ensures a !in old(St()).blocked ==> p == -1 && St() == old(St())
      ensures a in old(St()).blocked ==>
                old(St()).blocked[a] != [] && p == old(St()).blocked[a][0] && 0 <= p < |old(St()).sem|
                && St() == Woken(old(St()), a)
    {
      hide Valid, St, Core;
      if a in St().blocked {
        WokenIsUnblocked(St(), a);
      }
      p := RemoveBlocked(a);
      if p != -1 {
        EnqueueReady(p);
      }
    }

    /** removeBlocked; -1 when nobody is blocked. */
    method RemoveBlocked(a: int) returns (p: int)
      requires Valid()
      modifies Repr
      ensures Valid()
      ensures a !in old(St()).blocked ==> p == -1 && St() == old(St())
      ensures a in old(St()).blocked ==>
                old(St()).blocked[a] != [] && p == old(St()).blocked[a][0] && 0 <= p < |old(St()).sem| &&
                St() == old(St()).(blocked := WithQueue(old(St()).blocked, a, old(St()).blocked[a][1..]),
                                   sem := old(St()).sem[p := 0])
    {
      hide Pool.Valid, NamespaceTable.Valid;
      pool.Sizes();
      pool.QueuesFull();
      p := pool.WakeFirst(a);
    }

    /** `*sem` */
    method Load(a: int) returns (x: nat)
      requires Valid() && a in St().mem
      ensures x == St().mem[a]
    {
      x := mem[a];
    }

    /** `*sem = x` */
    method Store(a: int, x: nat)
      requires Valid()
      modifies Repr
      ensures Valid() && St() == old(St()).(mem := old(St()).mem[a := x])
    {
      hide Pool.Valid, NamespaceTable.Valid;
      mem := mem[a := x];
    }

    /** The address test of __terminateProcess on `p_semAdd`, read through NULL for -1. */
    method IsSoftBlocked(p: int) returns (r: bool)
      requires Valid() && -1 <= p < |St().sem|
      ensures r <==> St().lay.Soft(if p == -1 then St().lay.nullSem else St().sem[p])
    {
      hide Pool.Valid, NamespaceTable.Valid;
      pool.Sizes();
      var a := lay.nullSem;
      if p != -1 {
        a := pool.SemOf(p);
      }
      r := lay.Soft(a);
    }

    /** addNamespace; -1 is the NULL descriptor. */
    method AddSpace(p: nat, d: int) returns (ok: bool)
      requires Valid() && p < |St().sem| && |St().tree.kids| == |St().sem| == |St().spaces.slots|
      requires Forest(St().tree) && forall x :: x in Post(St().tree, p) ==> x !in St().free
      requires SpacesOk(St().spaces) && -1 <= d < |St().spaces.kind|
      requires d != -1 ==> 0 <= St().spaces.kind[d] < NS_TYPE_MAX
      modifies Repr
      ensures Valid() && (ok <==> d != -1)
      ensures St() == old(St()).(spaces := if d == -1 then old(St()).spaces
                                           else SpaceAdded(old(St()).spaces, old(St()).tree, p, d))
    {
      hide Pool.Valid, NamespaceTable.Valid, Forest, Post, SpacesOk, SpaceAdded;
      Sizes();
      ok := pool.AddNamespace(spaces, p, d);
    }

    /** allocNamespace, which programs call themselves. */
    method AllocNamespace(ty: int) returns (d: int)
      requires Valid() && SpacesOk(St().spaces)
      modifies Repr
      ensures Valid() && St() == old(St()).(spaces := SpaceAllocated(old(St()).spaces, ty))
      ensures d == if old(St()).spaces.free == [] then -1 else old(St()).spaces.free[0]
    {
      hide Pool.Valid, NamespaceTable.Valid, SpacesOk;
      Sizes();
      d := spaces.AllocNamespace(ty);
    }

    /** freeNamespace, which programs call themselves. */
    method FreeNamespace(d: nat)
      requires Valid() && d < |St().spaces.kind|
      modifies Repr
      ensures Valid() && St() == old(St()).(spaces := SpaceFreed(old(St()).spaces, d))
    {
      hide Pool.Valid, NamespaceTable.Valid;
      Sizes();
      spaces.FreeNamespace(d);
    }

    /** enqueueReady */
    method EnqueueReady(p: nat)
      requires Valid() && p < |St().sem| && p !in St().free && St().sem[p] == 0
      modifies Repr
      ensures Valid() && St() == Enqueued(old(St()), p)
    {
      hide Pool.Valid, NamespaceTable.Valid;
      pool.Sizes();
      pool.MakeReady(p);
      if current == p {
        current := -1;
      }
    }

    /** getNewPid: an unsigned counter. */
    method GetNewPid() returns (pid: nat)
      requires Valid()
      modifies Repr
      ensures Valid() && pid == old(St()).nextPid
      ensures St() == old(St()).(nextPid := (old(St()).nextPid + 1) % Machine.WORD)
    {
      hide Pool.Valid, NamespaceTable.Valid;
      pid := pidCounter;
      pidCounter := (pidCounter + 1) % Machine.WORD;
    }

    /** incrementProcessCount and decrementProcessCount. */
    method CountProcesses(delta: int)
      requires Valid()
      modifies Repr
      ensures Valid() && St() == old(St()).(procs := old(St()).procs + delta)
    {
      hide Pool.Valid, NamespaceTable.Valid;
      Machine.Reduced(procs, delta);
      processCount := (processCount + delta) % Machine.WORD;
      procs := procs + delta;
    }

    /** incrementSoftBlockCount and decrementSoftBlockCount. */
    method CountSoftBlocked(delta: int)
      requires Valid()
      modifies Repr
      ensures Valid() && St() == old(St()).(soft := old(St()).soft + delta)
    {
      hide Pool.Valid, NamespaceTable.Valid;
      Machine.Reduced(soft, delta);
      softBlockCount := (softBlockCount + delta) % Machine.WORD;
      soft := soft + delta;
    }

    /** The verdict of schedule on an empty ready queue. */
    method Idle() returns (o: Outcome)
      ensures o == if processCount == 0 then Halt else if softBlockCount > 0 then Wait else Deadlock
    {
      if processCount == 0 {
        return Halt;
      } else if processCount > 0 && softBlockCount > 0 {
        return Wait;
      } else {
        return Deadlock;
      }
    }

    /** schedule, up to the instruction that leaves the kernel. */
    method Schedule() returns (o: Outcome)
      requires Valid() && Core(St())
      modifies Repr
      ensures Valid() && St() == Scheduled(old(St())).0 && o == Scheduled(old(St())).1
    {
      hide Pool.Valid, NamespaceTable.Valid, Core;
      current := -1;
      var none := pool.NoneReady();
      if none {
        o := Idle();
      } else {
        current := pool.TakeReady();
        o := Dispatch(current);
      }
    }

    /** getNamespace */
    method SpaceOf(p: nat, t: int) returns (d: int)
      requires Valid() && p < |St().sem| && SpacesOk(St().spaces) && p < |St().spaces.slots|
      ensures d == Space(St().spaces, p, t, 0, St().lay.nullWord)
    {
      Sizes();
      pool.TableOk();
      hide Pool.Valid, NamespaceTable.Valid, SpacesOk;
      d := spaces.GetNamespace(p, t, lay.nullWord);
    }

    /** currentProc */
    method CurrentProc() returns (p: int)
      requires Valid()
      ensures p == St().current
    {
      p := current;
    }

    /** The loop of createProcess over the namespace types. */
    method InheritSpaces(p: nat)
      requires Valid() && p < |St().sem| && 0 <= St().current < |St().sem|
               && |St().tree.kids| == |St().sem| == |St().spaces.slots|
      requires Forest(St().tree) && SpacesOk(St().spaces) && forall x :: x in Post(St().tree, p) ==> x !in St().free
      modifies Repr
      ensures Valid()
      ensures St() == old(St()).(spaces := SpaceInherited(old(St()).spaces, old(St()).tree, p, old(St()).current, 0,
                                                          old(St()).lay.nullWord))
    {
      hide Valid, St, Forest, Post, SpacesOk, SpaceAdded;
      ghost var k := St();
      ghost var nullWord := k.lay.nullWord;
      var from := CurrentProc();
      var i := 0;
      while i < NS_TYPE_MAX
        invariant 0 <= i <= NS_TYPE_MAX && Valid()
        invariant SpacesOk(St().spaces) && |St().spaces.slots| == |k.sem|
        invariant St() == k.(spaces := St().spaces)
        invariant SpaceInherited(St().spaces, k.tree, p, from, i, nullWord) ==
                  SpaceInherited(k.spaces, k.tree, p, from, 0, nullWord)
      {
        SpaceOfType(St().spaces, from, i, nullWord);
        var d := SpaceOf(from, i);
        var ok := AddSpace(p, d);
        i := i + 1;
      }
    }

    /** createProcess, up to the namespaces; -1 when every PCB is in use. */
    method Spawn() returns (p: int)
      requires Valid() && Inv(St()) && St().current != -1
      modifies Repr
      ensures Valid()
      ensures old(St()).free == [] ==> p == -1 && St() == old(St())
      ensures old(St()).free != [] ==> p == old(St()).free[0] && St() == Spawned(old(St()))
    {
      hide Valid, St, Core, CurrentApart, Forest, Devices, SpacesOk;
      SpawnReady(St());
      p := Alloc();
      if p == -1 {
        return;
      }
      var pid := GetNewPid();
      SetPid(p, pid);
      EnqueueReady(p);
      CountProcesses(1);
      Adopt(p);
    }

    /** createProcess */
    method CreateProcess(nsd: int) returns (pid: int)
      requires Valid() && Inv(St()) && Legal(St(), Create(nsd))
      modifies Repr
      ensures Valid() && St() == Created(old(St()), nsd).0 && pid == Created(old(St()), nsd).1
    {
      hide Valid, St, Core, CurrentApart, Forest, Devices, SpacesOk, Spawned, SpaceInherited, SpaceAdded, Post;
      ghost var k := St();
      var p := Spawn();
      if p == -1 {
        return -1;
      }
      SpawnedLive(k);
      var added := AddSpace(p, nsd);
      if !added {
        InheritSpaces(p);
      }
      pid := PidOf(p);
      pid := Machine.Signed(pid);
    }

    /** __terminateProcess on a process without parent: its children are taken apart one by one,
        then it leaves its semaphore queue and is freed.  -1 is NULL, which has no children. */
    method TerminateSubtree(p: int)
      requires Valid() && Core(St()) && -1 <= p < |St().sem|
      requires p != -1 ==> p !in St().free && St().tree.parent[p] == -1
      modifies Repr
      ensures Valid() && St() == if p == -1 then Nulled(old(St())) else Terminated(old(St()), p)
      decreases if p == -1 then 0 else St().tree.born - St().tree.birth[p]
    {
      hide Valid, St, Core, Forest, Pruned, Killed, Dead, Nulled;
      ghost var k := St();
      ghost var i := 0;
      CoreParts(k);
      if p != -1 {
        KillNone(k, p);
      }
      while true
        invariant Valid() && 0 <= i && (p != -1 ==> i <= |k.tree.kids[p]|)
        invariant St() == if p == -1 then k else Killed(k, Dead(k.tree, p, i))
        decreases if p == -1 then 0 else |k.tree.kids[p]| - i
      {
        if p != -1 {
          KillNext(k, p, i);
        }
        var child := RemoveChild(p);
        if child == -1 {
          break;
        }
        KillChild(k, p, i);
        OutReady(child);
        TerminateSubtree(child);
        i := i + 1;
      }
      if p != -1 {
        KillLast(k, p);
      }
      Bury(p);
    }

    /** The end of __terminateProcess. */
    method Bury(p: int)
      requires Valid() && -1 <= p < |St().sem| && (p != -1 ==> p !in St().free)
      modifies Repr
      ensures Valid() && St() == if p == -1 then Nulled(old(St())) else Buried(old(St()), p)
    {
      hide Valid, St;
      var isSoftBlocked := IsSoftBlocked(p);
      if isSoftBlocked {
        CountSoftBlocked(-1);
      }
      OutBlocked(p);
      FreePcb(p);
      CountProcesses(-1);
      if p == -1 {
        NoteNull();
      }
    }

    ghost method NoteNull()
      requires Valid()
      modifies Repr
      ensures Valid() && St() == old(St()).(nulls := old(St()).nulls + 1)
    {
      hide Pool.Valid, NamespaceTable.Valid;
      nulls := nulls + 1;
    }

    /** terminateProcess, of whatever findPcb has returned: -1 is NULL. */
    method TerminateProcess(p: int) returns (o: Outcome)
      requires Valid() && Core(St()) && -1 <= p < |St().sem| && (p != -1 ==> p !in St().free)
      modifies Repr
      ensures Valid() && (St(), o) == Scheduled(if p == -1 then Nulled(old(St())) else Terminated(old(St()), p))
    {
      hide Valid, St, Core, Forest, Pruned, Killed, Terminated, Nulled, Scheduled;
      ghost var k := St();
      if p == -1 {
        CoreNulled(k);
      } else {
        TopApart(k, p);
        CoreTerminated(k, p);
      }
      OutChild(p);
      TerminateSubtree(p);
      o := Schedule();
    }

    /** passeren: whether the caller is now blocked. */
    method Passeren(a: int) returns (blocking: bool)
      requires Valid() && Core(St()) && CurrentApart(St()) && St().current != -1 && a in St().mem && a != 0
      modifies Repr
      ensures Valid() && (a in old(St()).blocked
                          ==> old(St()).blocked[a] != [] && old(St()).blocked[a][0] < |old(St()).sem|)
      ensures St() == Passed(old(St()), a) && (blocking <==> old(St()).mem[a] == 0)
    {
      hide Valid, St, Core;
      HeadsFull(St());
      var value := Load(a);
      var head := HeadBlocked(a);
      if value == 0 {
        var p := CurrentProc();
        InsertBlocked(a, p);
        return true;
      } else if head != -1 {
        var p := Wake(a);
      } else {
        Store(a, value - 1);
      }
      blocking := false;
    }

    /** verhogen: whether the caller is now blocked. */
    method Verhogen(a: int) returns (blocking: bool)
      requires Valid() && Core(St()) && CurrentApart(St()) && St().current != -1 && a in St().mem && a != 0
      modifies Repr
      ensures Valid() && (a in old(St()).blocked
                          ==> old(St()).blocked[a] != [] && old(St()).blocked[a][0] < |old(St()).sem|)
      ensures St() == Raised(old(St()), a) && (blocking <==> old(St()).mem[a] == 1)
    {
      hide Valid, St, Core;
      HeadsFull(St());
      var value := Load(a);
      var head := HeadBlocked(a);
      if value == 1 {
        var p := CurrentProc();
        InsertBlocked(a, p);
        return true;
      } else if head != -1 {
        var p := Wake(a);
      } else {
        Store(a, (value + 1) % Machine.WORD);
      }
      blocking := false;
    }

    /** P: on a device or clock semaphore. */
    method P(a: int)
      requires Valid() && Core(St()) && CurrentApart(St()) && St().current != -1 && a in St().mem && a != 0
      modifies Repr
      ensures Valid() && St() == Waited(old(St()), a)
    {
      hide Valid, St, Core;
      var value := Load(a);
      if value == 0 {
        var p := CurrentProc();
        InsertBlocked(a, p);
        CountSoftBlocked(1);
      } else {
        Store(a, 0);
      }
    }

    /** V: the process it wakes, or -1. */
    method V(a: int) returns (p: int)
      requires Valid() && Core(St())
      modifies Repr
      ensures Valid() && (a in old(St()).blocked
                          ==> old(St()).blocked[a] != [] && old(St()).blocked[a][0] < |old(St()).sem|)
      ensures St() == Signalled(old(St()), a)
      ensures p == if a in old(St()).blocked then old(St()).blocked[a][0] else -1
    {
      hide Valid, St, Core;
      HeadsFull(St());
      var head := HeadBlocked(a);
      if head == -1 {
        Store(a, 1);
        return -1;
      }
      p := Wake(a);
      CountSoftBlocked(-1);
    }

    /** The wake-up of manageDevices and of the two halves of a terminal: the process that V has
        made ready is made ready once more. */
    method ServeDevice(i: nat)
      requires Valid() && Core(St()) && i < SEM_NUM
      modifies Repr
      ensures Valid() && Core(St()) && (CurrentApart(old(St())) ==> CurrentApart(St()))
      ensures Served(old(St()), [i]) == St()
    {
      hide Valid, St, Core;
      ghost var k := St();
      ghost var a := k.lay.DevSem(i);
      ServedOne(k, i);
      var sem := DevSem(i);
      var p := V(sem);
      if p != -1 {
        AlreadyReady(k, a);
        EnqueueReady(p);
      }
    }

    /** The interval timer branch of interruptHandler. */
    method TickClock()
      requires Valid() && Core(St()) && CurrentApart(St())
      modifies Repr
      ensures Valid() && St() == Ticked(old(St()))
    {
      hide Valid, St, Core, CurrentApart, Ticked;
      ghost var k := St();
      HeadsFull(St());
      var clock := ClockSem();
      var head := HeadBlocked(clock);
      while head != -1
        invariant Valid() && Core(St()) && CurrentApart(St()) && St().lay.clock == clock
        invariant Ticked(St()) == Ticked(k)
        invariant head != -1 <==> clock in St().blocked
        decreases |Queue(St().blocked, clock)|
      {
        TickOne(St());
        var p := Wake(clock);
        CountSoftBlocked(-1);
        HeadsFull(St());
        head := HeadBlocked(clock);
      }
      TickNone(St());
      Store(clock, 0);
    }

    /** findPcb on the ready queue and all semaphore queues; -1 when no process there has the PID. */
    method FindPcb(x: nat) returns (p: int)
      requires Valid() && Core(St())
      ensures |St().pid| == |St().sem|
      ensures if p == -1 then forall q :: !Listed(St(), q, x) else Listed(St(), p, x)
    {
      hide Pool.Valid, NamespaceTable.Valid, Forest, SoftSet;
      pool.Sizes();
      p := pool.Find(x);
    }

    /** doIO on the registers of a unit. */
    method DoIo(cmdAddr: int, ibitmap: nat, ghost u: Unit)
      requires Valid() && Inv(St()) && St().current != -1
      requires u.Exists() && cmdAddr == CmdAddr(regs, u) && 16 <= regs.size <= 17
      modifies Repr
      ensures Valid()
      ensures old(St()).lay.DevSem(ServedIndex(u)) in old(St()).mem && 0 <= old(St()).current < |old(St()).sem|
      ensures St() == if ibitmap / Pow2(u.dev) % 2 == 1 then Waited(old(St()), old(St()).lay.DevSem(ServedIndex(u)))
                      else old(St())
    {
      hide Valid, St, Core, Devices, SpacesOk;
      CallerApart(St());
      IndexAgrees(regs);
      assert Agrees(regs, u);
      var bit := RequestBit(regs, cmdAddr);
      BitIsShift(ibitmap, bit);
      if !Bit(ibitmap, bit) {
        return;
      }
      var dev_index := RequestIndex(regs, cmdAddr);
      var sem := DevSem(dev_index);
      P(sem);
    }

    /** One `if` of interruptHandler for the lines of disks, flash devices, network and printers. */
    method ServeLine(c: Pending, i: nat)
      requires Valid() && Core(St()) && CurrentApart(St()) && c.Ok() && i < DEVINTNUM - 1
      modifies Repr
      ensures Valid() && Core(St()) && CurrentApart(St())
      ensures Served(old(St()), LineIndices(c, i)) == St()
    {
      hide Valid, St, Core, CurrentApart;
      if c.lines[i] {
        var dev := InterruptingDevice(c.bitmap[i]);
        assert LineIndices(c, i) == [i * DEVPERINT + dev];
        ServeDevice(i * DEVPERINT + dev);
      }
    }

    /** The `if` of interruptHandler for the terminals. */
    method ServeTerminal(c: Pending)
      requires Valid() && Core(St()) && CurrentApart(St()) && c.Ok()
      modifies Repr
      ensures Valid() && Core(St()) && CurrentApart(St())
      ensures Served(old(St()), TerminalIndices(c)) == St()
    {
      hide Valid, St, Core, CurrentApart, Served, TerminalIndices, Top, Bit;
      ghost var k := St();
      TerminalParts(k, c);
      if c.lines[4] {
        var dev := InterruptingDevice(c.bitmap[4]);
        if c.transmitted {
          ServeDevice(32 + dev * 2 + 1);
        }
        assert St() == if c.transmitted then Served(k, [32 + dev * 2 + 1]) else k;
        if c.received {
          ServeDevice(32 + dev * 2);
        }
      }
    }

    /** The device lines of interruptHandler, from disks to terminals. */
    method ServeLines(c: Pending)
      requires Valid() && Core(St()) && CurrentApart(St()) && c.Ok()
      modifies Repr
      ensures Valid() && Core(St()) && CurrentApart(St())
      ensures Served(old(St()), ServedIndices(c)) == St()
    {
      hide Valid, St, Core, CurrentApart, Served, ServedIndices, LineIndices, TerminalIndices;
      ServedAll(St(), c);
      ServeLine(c, 0);
      ServeLine(c, 1);
      ServeLine(c, 2);
      ServeLine(c, 3);
      ServeTerminal(c);
    }

    /** interruptHandler */
    method InterruptHandler(c: Pending) returns (o: Outcome)
      requires Valid() && Inv(St()) && c.Ok() && (c.slice && c.te ==> St().current != -1)
      modifies Repr
      ensures Valid() && Inv(St()) && Legal(old(St()), InterruptEvent(c))
      ensures (St(), o) == Step(old(St()), InterruptEvent(c)) && Attends(old(St()), c, St(), o)
    {
      hide Valid, St, Inv, Core, CurrentApart, Served, ServedIndices, Attends, Ticked, Enqueued, Step, Legal, Scheduled;
      ghost var k := St();
      InterruptParts(k, c);
      InterruptEffect(k, c);
      hide InterruptEvent;
      if c.slice {
        if c.te {
          var p := CurrentProc();
          EnqueueReady(p);
        }
      }
      if c.tick {
        TickClock();
      }
      ServeLines(c);
      var p := CurrentProc();
      if p == -1 {
        o := Schedule();
      } else {
        o := Resume(p);
      }
    }

    /** getChildren for the running process. */
    method GetChildren(children: array<int>, size: int) returns (n: nat)
      requires Valid() && Inv(St()) && St().current != -1 && children !in Repr && size <= children.Length
      modifies children
      ensures Valid() && St() == old(St()) && n == |ChildrenOf(St())|
      ensures ChildrenWritten(St(), old(children[..]), children[..], size)
    {
      ChildrenReady();
      hide Inv, Pool.Valid, NamespaceTable.Valid, Forest, SpacesOk, Written, Pids, SpaceKids;
      n := spaces.GetChildren(current, lay.nullWord, children, size);
    }

    /** What getChildren needs of the running process. */
    lemma ChildrenReady()
      requires Valid() && Inv(St()) && St().current != -1
      ensures var t := pool.table;
              && t.Valid() && t.Repr <= Repr && spaces.Repr <= Repr && SpacesOk(St().spaces) && Forest(St().tree)
              && |St().spaces.slots| == |t.pcbs| && 0 <= current < |t.pcbs| && current in t.V().kidsUp
              && t.V().tree == St().tree && t.V().pid == St().pid
    {
      Sizes();
      pool.TableOk();
      CallerApart(St());
    }

    /** syscallHandler in kernel mode. */
    method SyscallHandler(r: Request) returns (o: Outcome, ghost e: Event)
      requires Valid() && Inv(St()) && Permitted(regs, St(), r)
      modifies Repr
      ensures Valid() && Inv(St()) && Asks(regs, r, e) && Legal(old(St()), e)
      ensures (St(), o) == Step(old(St()), e) && Answers(regs, old(St()), r, St(), o)
    {
      hide Valid, St, Answers, Legal, Core, Devices, SpacesOk;
      hide Scheduled, Created, Terminated, Nulled, Passed, Raised, Waited;
      ghost var k := St();
      CallerApart(k);
      PermittedWord(regs, k, r);
      var caller := CurrentProc();
      match r {
        case CreateProcess(d) =>
          var pid := CreateProcess(d);
          o, e := Resume(caller), Event.Create(d);
        case TermProcess(pid) =>
          var target := caller;
          if pid != 0 {
            target := FindPcb(pid);
          }
          e := Event.Terminate(pid, target);
          if target != -1 {
            ListedLive(k, target, pid);
          }
          o := TerminateProcess(target);
        case Passeren(a) =>
          e := Event.Passeren(a);
          var blocking := Passeren(a);
          o := Resume(caller);
          if blocking {
            PassedOk(k, a);
            o := Schedule();
          }
        case Verhogen(a) =>
          e := Event.Verhogen(a);
          var blocking := Verhogen(a);
          o := Resume(caller);
          if blocking {
            RaisedOk(k, a);
            o := Schedule();
          }
        case DoIo(cmdAddr, ibitmap) =>
          ghost var u: Unit :| u.Exists() && cmdAddr == CmdAddr(regs, u);
          e := IoEvent(u, ibitmap);
          WaitedOk(k, k.lay.DevSem(ServedIndex(u)));
          DoIo(cmdAddr, ibitmap, u);
          o := Schedule();
        case ClockWait =>
          e := Event.ClockWait;
          var clock := ClockSem();
          WaitedOk(k, clock);
          P(clock);
          o := Schedule();
        case Die =>
          e := Event.Terminate(0, caller);
          o := TerminateProcess(caller);
        case Other =>
          o, e := Resume(caller), Event.Query;
      }
      AskedIsLegal(regs, k, r, e);
      StepKeepsInv(k, e);
      RequestEffect(regs, k, r, e);
    }

    /** getDevSem */
    method DevSem(i: nat) returns (a: int)
      requires Valid()
      ensures a == St().lay.DevSem(i)
    {
      a := lay.DevSem(i);
    }

    /** getPseudoClockSem */
    method ClockSem() returns (a: int)
      requires Valid()
      ensures a == St().lay.clock
    {
      a := lay.clock;
    }
  }

  lemma StartFacts(p: Pool, s: NamespaceTable)
    requires p.Valid() && s.Valid()
    ensures {s, s.links} <= s.Repr && {p, p.table, p.table.links, p.table.tree, p.ash} <= p.Repr
  {
  }
}
