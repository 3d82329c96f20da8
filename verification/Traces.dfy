/** The handlers over a whole life of the machine: from initKernel through any sequence of exceptions, the
    pointer structures are in the state of the corresponding run. */
module Traces {
  import Seqs
  import opened DeviceRegisters
  import opened KernelState
  import opened KernelSteps
  import opened KernelInvariant
  import opened KernelFacts
  import opened Kernels
  import opened Runs

  /** What enters the kernel: a request, an interrupt, or a program that calls a function of ns.c. */
  datatype Entry =
    | Trap(r: Request)
    | Interrupted(c: Pending)
    | AllocNamespace(ty: int)
    | FreeNamespace(d: nat)

  /** The step that an entry asks for. */
  ghost predicate Means(regs: Registers, x: Entry, e: Event) {
    match x
    case Trap(r) => Asks(regs, r, e)
    case Interrupted(c) => c.Ok() && e == InterruptEvent(c)
    case AllocNamespace(ty) => e == AllocSpace(ty)
    case FreeNamespace(d) => e == FreeSpace(d)
  }

  ghost predicate MayEnter(regs: Registers, k: K, x: Entry)
    requires Inv(k)
  {
    match x
    case Trap(r) => Permitted(regs, k, r)
    case Interrupted(c) => c.Ok() && (c.slice && c.te ==> k.current != -1)
    case AllocNamespace(_) => k.current != -1
    case FreeNamespace(d) => k.current != -1 && d < |k.spaces.kind|
  }

  /** Each entry is one that may occur in the state it finds, whichever process findPcb has returned. */
  ghost predicate MayEnterAll(regs: Registers, k: K, xs: seq<Entry>)
    requires Inv(k)
    decreases |xs|
  {
    xs == [] || (MayEnter(regs, k, xs[0]) &&
                 forall e :: Legal(k, e) && Means(regs, xs[0], e) ==>
                               Inv(Step(k, e).0) && MayEnterAll(regs, Step(k, e).0, xs[1..]))
  }

  /** One entry is one step. */
  method Enter(o: Kernel, x: Entry) returns (ghost e: Event)
    requires o.Valid() && Inv(o.St()) && MayEnter(o.regs, o.St(), x)
    modifies o.Repr
    ensures o.Valid() && Inv(o.St()) && Legal(old(o.St()), e) && Means(o.regs, x, e)
    ensures o.St() == Step(old(o.St()), e).0
  {
    hide Kernel.Valid, Kernel.St, Core, CurrentApart, Devices, SpacesOk, Created, Terminated;
    ghost var k := o.St();
    match x {
      case Trap(r) =>
        var how;
        how, e := o.SyscallHandler(r);
      case Interrupted(c) =>
        var how := o.InterruptHandler(c);
        e := InterruptEvent(c);
      case AllocNamespace(ty) =>
        e := AllocSpace(ty);
        var d := o.AllocNamespace(ty);
        StepKeepsInv(k, e);
      case FreeNamespace(d) =>
        e := FreeSpace(d);
        o.FreeNamespace(d);
        StepKeepsInv(k, e);
    }
  }

  /** Any number of entries are a run. */
  method EnterAll(o: Kernel, xs: seq<Entry>) returns (ghost es: seq<Event>)
    requires o.Valid() && Inv(o.St()) && MayEnterAll(o.regs, o.St(), xs)
    modifies o.Repr
    ensures o.Valid() && Inv(o.St()) && |es| == |xs| && forall i :: 0 <= i < |xs| ==> Means(o.regs, xs[i], es[i])
    ensures LegalRun(old(o.St()), es) && o.St() == Run(old(o.St()), es)
  {
    hide Kernel.Valid, Kernel.St, Inv, Legal, Step, MayEnter, Means;
    ghost var k := o.St();
    var i := 0;
    es := [];
    while i < |xs|
      invariant 0 <= i <= |xs| && |es| == i && o.Valid() && Inv(o.St()) && MayEnterAll(o.regs, o.St(), xs[i..])
      invariant forall j :: 0 <= j < i ==> Means(o.regs, xs[j], es[j])
      invariant LegalRun(k, es) && o.St() == Run(k, es)
    {
      ghost var m := o.St();
      ghost var e := Enter(o, xs[i]);
      assert xs[i..][0] == xs[i] && xs[i..][1..] == xs[i + 1..];
      OneStep(m, e);
      RunAppend(k, es, [e]);
      es := es + [e];
      i := i + 1;
    }
  }

  /** The state in which runs begin, with the kernel's semaphores cleared and all other words as they were. */
  ghost function FirstState(lay: Layout, n: nat, mem: map<int, nat>): (k: K)
    requires n > 0 && lay.WellPlaced() && 0 !in mem
    ensures Inv(k)
  {
    ClearedMemory(lay, mem);
    Started(lay, n, Seqs.Fill(n, 0), Cleared(lay, mem, SEM_NUM)[lay.clock := 0])
  }

  /** initKernel and the first schedule leave this state. */
  method Boot(lay: Layout, regs: Registers, n: nat, mem: map<int, nat>) returns (o: Kernel)
    requires n > 0 && lay.WellPlaced() && 0 !in mem
    ensures o.Valid() && fresh(o.Repr) && o.regs == regs && o.St() == FirstState(lay, n, mem)
  {
    hide Kernel.Valid, Kernel.St, Core, Booted, Cleared, Scheduled;
    o := Kernel.InitKernel(lay, regs, n, mem);
    var how := o.Schedule();
  }

  /** So whatever is proved of runs holds of the pointer structures after any life of the machine. */
  method Live(lay: Layout, regs: Registers, n: nat, mem: map<int, nat>, xs: seq<Entry>)
    returns (o: Kernel, ghost es: seq<Event>)
    requires n > 0 && lay.WellPlaced() && 0 !in mem && MayEnterAll(regs, FirstState(lay, n, mem), xs)
    ensures o.Valid() && |es| == |xs| && forall i :: 0 <= i < |xs| ==> Means(regs, xs[i], es[i])
    ensures LegalRun(FirstState(lay, n, mem), es) && o.St() == Run(FirstState(lay, n, mem), es)
  {
    hide Kernel.Valid, Kernel.St, Inv, FirstState, MayEnterAll, Means, LegalRun, Run;
    o := Boot(lay, regs, n, mem);
    es := EnterAll(o, xs);
  }
}
