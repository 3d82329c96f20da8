/** Runs: what is true of every state that the kernel can reach from initKernel. */
module Runs {
  import Seqs
  import Trees
  import DeviceRegisters
  import opened KernelState
  import Machine
  import opened KernelSteps
  import opened KernelInvariant
  import KernelFacts

  /** Every event is one that the hardware and the programs can raise in the state it finds. */
  ghost predicate LegalRun(k: K, es: seq<Event>)
    requires Inv(k)
    decreases |es|
  {
    es == [] || (Legal(k, es[0]) && (StepKeepsInv(k, es[0]); LegalRun(Step(k, es[0]).0, es[1..])))
  }

  ghost function Run(k: K, es: seq<Event>): (r: K)
    requires Inv(k) && LegalRun(k, es)
    ensures Inv(r)
    decreases |es|
  {
    if es == [] then k else (StepKeepsInv(k, es[0]); Run(Step(k, es[0]).0, es[1..]))
  }

  /** The first state in which a process runs: initKernel, then schedule. */
  ghost function Started(lay: Layout, n: nat, kind: seq<int>, mem: map<int, nat>): (r: K)
    requires n > 0 && lay.WellPlaced() && KernelMemory(lay, mem)
    ensures Inv(r) && r.current == n - 1
  {
    BootedInv(lay, n, kind, mem);
    ScheduledInv(Booted(lay, n, kind, mem));
    Scheduled(Booted(lay, n, kind, mem)).0
  }

  /** One process, with PID 1, which runs; every other PCB is free, the last of the table first; nobody waits,
      has a parent or is in a namespace; and the namespaces are free, the first of the table first. */
  lemma FirstStep(lay: Layout, n: nat, kind: seq<int>, mem: map<int, nat>)
    requires n > 0 && lay.WellPlaced() && KernelMemory(lay, mem)
    ensures var k := Started(lay, n, kind, mem);
            && |k.sem| == |k.tree.kids| == |k.tree.parent| == |k.spaces.slots| == |k.pid| == n
            && k.lay == lay && k.mem == mem && k.ready == [] && k.blocked == map[] && k.current == n - 1
            && |k.free| == n - 1 && (forall i :: 0 <= i < n - 1 ==> k.free[i] == n - 2 - i)
            && k.pid[n - 1] == 1 && k.nextPid == 2 && k.procs == 1 && k.soft == 0 && k.nulls == 0
            && (forall p :: 0 <= p < n ==>
                  k.sem[p] == 0 && k.tree.parent[p] == -1 && k.tree.kids[p] == [] && k.spaces.slots[p] == [-1])
            && k.spaces.kind == kind && k.spaces.used == []
            && |k.spaces.free| == |kind| && (forall d :: 0 <= d < |kind| ==> k.spaces.free[d] == d)
  {
    assert Seqs.Fill(NS_TYPE_MAX, -1) == [-1];
  }

  /** TERMPROCESS of a PID that findPcb does not find. */
  predicate NullTarget(e: Event) {
    e.Terminate? && e.target == -1
  }

  function NullTargets(es: seq<Event>): nat {
    if es == [] then 0 else (if NullTarget(es[0]) then 1 else 0) + NullTargets(es[1..])
  }

  lemma StepNulls(k: K, e: Event)
    requires Inv(k) && Legal(k, e)
    ensures Step(k, e).0.nulls == k.nulls + if NullTarget(e) then 1 else 0
  {
    match e
    case Interrupt(timer, tick, devs) => InterruptFrame(k, timer, tick, devs);
    case _ => HeadsOk(k);
  }

  lemma {:induction false} NullsCounted(k: K, es: seq<Event>)
    requires Inv(k) && LegalRun(k, es)
    ensures Run(k, es).nulls == k.nulls + NullTargets(es) && Run(k, es).lay == k.lay
    decreases |es|
  {
    if es != [] {
      StepKeepsInv(k, es[0]);
      StepNulls(k, es[0]);
      StepSize(k, es[0]);
      NullsCounted(Step(k, es[0]).0, es[1..]);
    }
  }

  /** So the word that counts the processes is right exactly as long as their number is a multiple of the
      machine's range, which for all shorter runs means that there are none. */
  lemma CountIsRight(k: K)
    requires Core(k) && |k.sem| < Machine.WORD
    ensures k.procs % Machine.WORD == |set y: nat | y < |k.sem| && y !in k.free| <==> k.nulls % Machine.WORD == 0
  {
    CountedLive(k);
    KernelFacts.CountersInRange(k);
    Machine.Difference(k.procs + k.nulls, k.nulls);
  }

  /** A process is free, ready, blocked, running, or (see Losses) adrift, and only one of these; parent
      pointers and child lists describe one forest; the counters count exactly the live and the
      soft-blocked processes, but for the terminations of NULL. */
  lemma EveryRun(lay: Layout, n: nat, kind: seq<int>, mem: map<int, nat>, es: seq<Event>, x: nat)
    requires n > 0 && lay.WellPlaced() && KernelMemory(lay, mem)
    requires LegalRun(Started(lay, n, kind, mem), es) && x < n
    ensures var k := Run(Started(lay, n, kind, mem), es);
            && |k.sem| == n && Trees.Forest(k.tree)
            && (x in k.free ==> x !in k.ready && k.sem[x] == 0 && k.current != x)
            && (x in k.ready ==> k.sem[x] == 0 && k.current != x)
            && (k.current == x ==> k.sem[x] == 0)
            && (forall a :: (a in k.blocked && x in k.blocked[a]) <==> (a != 0 && k.sem[x] == a))
            && k.procs == |set y: nat | y < n && y !in k.free| - NullTargets(es)
            && k.soft == |set y: nat | y < n && k.lay.Soft(k.sem[y])|
                         - if lay.Soft(lay.nullSem) then NullTargets(es) else 0
  {
    var k := Run(Started(lay, n, kind, mem), es);
    NullsCounted(Started(lay, n, kind, mem), es);
    SizeKept(Started(lay, n, kind, mem), es);
    CountedLive(k);
    assert SoftSet(k) == set y: nat | y < n && k.lay.Soft(k.sem[y]);
  }

  lemma CountedLive(k: K)
    requires Core(k)
    ensures k.procs == |set y: nat | y < |k.sem| && y !in k.free| - k.nulls
  {
    var live := set y: nat | y < |k.sem| && y !in k.free;
    Seqs.ElemsSize(k.free);
    assert live == Seqs.Below(|k.sem|) - Seqs.Elems(k.free);
    assert Seqs.Elems(k.free) <= Seqs.Below(|k.sem|);
  }

  lemma StepSize(k: K, e: Event)
    requires Inv(k) && Legal(k, e)
    ensures |Step(k, e).0.sem| == |k.sem| && Step(k, e).0.lay == k.lay
  {
    if e.Create? {
      CreateFrame(k, e.nsd);
    } else {
      StepFrame(k, e);
    }
  }

  /** What all steps but the creation of a process leave alone: the PIDs; and a free PCB stays free. */
  ghost predicate SameIds(k: K, r: K) {
    && r.lay == k.lay && |r.sem| == |k.sem| && r.pid == k.pid && r.nextPid == k.nextPid
    && forall x :: x in k.free ==> x in r.free
  }

  lemma CreateFrame(k: K, nsd: int)
    requires Inv(k) && Legal(k, Create(nsd))
    ensures var r := Created(k, nsd).0;
            r.lay == k.lay && |r.sem| == |k.sem| && (k.free == [] ==> r == k)
            && (k.free != [] ==>
                  && r.pid == k.pid[k.free[0] := k.nextPid] && r.nextPid == (k.nextPid + 1) % Machine.WORD
                  && r.free == k.free[1..])
  {
  }

  lemma StepFrame(k: K, e: Event)
    requires Inv(k) && Legal(k, e) && !e.Create?
    ensures SameIds(k, Step(k, e).0)
  {
    match e
    case Interrupt(timer, tick, devs) => InterruptFrame(k, timer, tick, devs);
    case Passeren(a) => SemaphoreFrame(k, a);
    case Verhogen(a) => SemaphoreFrame(k, a);
    case DoIo(d, installed) => WaitFrame(k, k.lay.DevSem(d));
    case ClockWait => WaitFrame(k, k.lay.clock);
    case Terminate(pid, t) => TerminateFrame(k, pid, t);
    case _ =>
  }

  lemma TerminateFrame(k: K, pid: nat, t: int)
    requires Inv(k) && Legal(k, Terminate(pid, t))
    ensures SameIds(k, Step(k, Terminate(pid, t)).0)
  {
  }

  lemma WaitFrame(k: K, a: int)
    requires Inv(k) && k.current != -1 && a in k.mem
    ensures SameIds(k, Scheduled(Waited(k, a)).0) && SameIds(k, Scheduled(k).0)
  {
  }

  lemma SemaphoreFrame(k: K, a: int)
    requires Inv(k) && Legal(k, Passeren(a))
    ensures SameIds(k, Step(k, Passeren(a)).0) && SameIds(k, Step(k, Verhogen(a)).0)
  {
    HeadsOk(k);
  }

  /** What interrupts do not touch: the free list, the tree, the PIDs and the namespaces. */
  ghost predicate SameLives(k: K, r: K) {
    && r.lay == k.lay && |r.sem| == |k.sem| && r.free == k.free && r.tree == k.tree
    && r.pid == k.pid && r.nextPid == k.nextPid && r.spaces == k.spaces && r.procs == k.procs
    && r.nulls == k.nulls
  }

  lemma InterruptFrame(k: K, timer: bool, tick: bool, devs: seq<nat>)
    requires Inv(k) && Legal(k, Interrupt(timer, tick, devs))
    ensures SameLives(k, Interrupted(k, timer, tick, devs))
  {
    InterruptOk(k, timer, tick);
    var k1 := if timer then Enqueued(k, k.current) else k;
    ServedFrame(if tick then Ticked(k1) else k1, devs);
  }

  lemma {:induction false} ServedFrame(k: K, devs: seq<nat>)
    requires Core(k) && forall i :: i in devs ==> i < DeviceRegisters.SEM_NUM
    ensures SameLives(k, Served(k, devs))
    decreases |devs|
  {
    if devs != [] {
      assert devs[0] in devs && forall i :: i in devs[1..] ==> i in devs;
      HeadsOk(k);
      CoreSignalled(k, k.lay.DevSem(devs[0]));
      ServedFrame(Signalled(k, k.lay.DevSem(devs[0])), devs[1..]);
    }
  }

  lemma {:induction false} SizeKept(k: K, es: seq<Event>)
    requires Inv(k) && LegalRun(k, es)
    ensures |Run(k, es).sem| == |k.sem| && Run(k, es).lay == k.lay
    decreases |es|
  {
    if es != [] {
      StepKeepsInv(k, es[0]);
      StepSize(k, es[0]);
      SizeKept(Step(k, es[0]).0, es[1..]);
    }
  }

  lemma OneStep(k: K, e: Event)
    requires Inv(k) && Legal(k, e)
    ensures LegalRun(k, [e]) && Run(k, [e]) == Step(k, e).0
  {
    hide Inv, Legal, Step;
    StepKeepsInv(k, e);
    assert [e][0] == e && [e][1..] == [];
    assert LegalRun(Step(k, e).0, []);
  }

  /** One run after another. */
  lemma {:induction false} RunAppend(k: K, a: seq<Event>, b: seq<Event>)
    requires Inv(k) && LegalRun(k, a) && LegalRun(Run(k, a), b)
    ensures LegalRun(k, a + b) && Run(k, a + b) == Run(Run(k, a), b)
    decreases |a|
  {
    hide Inv, Legal, Step;
    if a == [] {
      assert a + b == b;
    } else {
      assert (a + b)[0] == a[0] && (a + b)[1..] == a[1..] + b;
      StepKeepsInv(k, a[0]);
      RunAppend(Step(k, a[0]).0, a[1..], b);
    }
  }
}
