/** What the scheduler concludes from an empty ready queue, and the clock. */
module Verdicts {
  import Seqs
  import DeviceRegisters
  import opened KernelState
  import opened KernelSteps
  import KernelInvariant
  import KernelFacts
  import Machine
  import Runs

  /** Process `x` waits for an interrupt. */
  ghost predicate Awaits(k: K, x: nat) {
    x < |k.sem| && k.lay.Soft(k.sem[x])
  }

  ghost function Live(k: K): set<nat> {
    set x: nat | x < |k.sem| && x !in k.free
  }

  /** What the verdict goes by, terminations of NULL included. */
  lemma VerdictCounts(k: K)
    requires Core(k) && |k.sem| < Machine.WORD
    ensures Scheduled(k).1 == Halt <==> k.ready == [] && |Live(k)| == k.nulls % Machine.WORD
    ensures Scheduled(k).1 == Wait <==>
            k.ready == [] && |Live(k)| != k.nulls % Machine.WORD && |SoftSet(k)| != SoftNulls(k) % Machine.WORD
    ensures Scheduled(k).1 == Deadlock <==>
            k.ready == [] && |Live(k)| != k.nulls % Machine.WORD && |SoftSet(k)| == SoftNulls(k) % Machine.WORD
  {
    Runs.CountedLive(k);
    KernelFacts.CountersInRange(k);
    Machine.Congruent(|Live(k)|, k.nulls);
    Machine.Congruent(|SoftSet(k)|, SoftNulls(k));
  }

  /** Without terminations of NULL the three verdicts mean what they say: nobody is live; somebody live
      waits for an interrupt; somebody is live and nobody waits for an interrupt. */
  lemma VerdictIsRight(k: K)
    requires Core(k) && |k.sem| < Machine.WORD && k.nulls % Machine.WORD == 0
    ensures Scheduled(k).1 == Halt <==> k.ready == [] && forall x: nat :: x < |k.sem| ==> x in k.free
    ensures Scheduled(k).1 == Wait <==> k.ready == [] && exists x: nat :: Awaits(k, x)
    ensures Scheduled(k).1 == Deadlock <==>
            k.ready == [] && (exists x: nat :: x < |k.sem| && x !in k.free) && forall x: nat :: !Awaits(k, x)
  {
    VerdictCounts(k);
    assert |Live(k)| == 0 <==> forall x: nat :: x !in Live(k);
    assert forall x: nat :: x < |k.sem| ==> (x in k.free <==> x !in Live(k));
    assert forall x: nat :: Awaits(k, x) <==> x in SoftSet(k);
    assert |SoftSet(k)| == 0 <==> forall x: nat :: x !in SoftSet(k);
    assert SoftSet(k) <= Live(k);
    Seqs.SubsetSize(SoftSet(k), Live(k));
    assert SoftNulls(k) % Machine.WORD == 0;
  }

  /** The interrupt that a process waits for. */
  ghost predicate Answers(k: K, x: nat, e: Event) {
    || (e == Interrupt(false, true, []) && x < |k.sem| && k.sem[x] == k.lay.clock)
    || (exists i: nat :: i < DeviceRegisters.SEM_NUM && e == Interrupt(false, false, [i]) &&
                         x < |k.sem| && k.sem[x] == k.lay.DevSem(i))
  }

  /** A kernel that waits is woken: the interrupt that some process waits for dispatches one. */
  lemma WaitEnds(k: K, x: nat) returns (e: Event)
    requires Inv(k) && k.current == -1 && k.ready == [] && Awaits(k, x)
    ensures Answers(k, x, e) && Legal(k, e) && Step(k, e).1.Dispatch?
  {
    var a := k.sem[x];
    assert a in k.blocked && x in k.blocked[a];
    if a == k.lay.clock {
      e := Interrupt(false, true, []);
      TickWakes(k);
    } else {
      var i := (a - k.lay.devBase) / 4;
      assert a == k.lay.DevSem(i) && 0 <= i < DeviceRegisters.SEM_NUM;
      e := Interrupt(false, false, [i]);
      HeadsOk(k);
      CoreSignalled(k, a);
      KernelFacts.ServedOne(k, i);
      assert Signalled(k, a).ready != [];
    }
  }

  lemma TickWakes(k: K)
    requires Inv(k) && k.current == -1 && k.lay.clock in k.blocked
    ensures Step(k, Interrupt(false, true, [])).1.Dispatch?
  {
    InterruptOk(k, false, true);
    assert Ticked(k).ready != [];
  }

  /** A deadlock is final: whatever interrupts arrive, and in whatever order, no process ever becomes
      ready again. */
  lemma {:induction false} DeadlockIsForever(k: K, es: seq<Event>)
    requires Inv(k) && Runs.LegalRun(k, es) && Stuck(k) && forall i :: 0 <= i < |es| ==> es[i].Interrupt?
    ensures Stuck(Runs.Run(k, es)) && Runs.Run(k, es).free == k.free && Runs.Run(k, es).blocked == k.blocked
    decreases |es|
  {
    if es != [] {
      KernelInvariant.StepKeepsInv(k, es[0]);
      StuckStep(k, es[0]);
      DeadlockIsForever(Step(k, es[0]).0, es[1..]);
    }
  }

  /** Nothing is ready, running, or waiting for an interrupt. */
  ghost predicate Stuck(k: K) {
    k.current == -1 && k.ready == [] && forall x: nat :: !Awaits(k, x)
  }

  /** A declared deadlock is one exactly if NULL has never been taken for a soft-blocked process, or so often
      that it does not show. */
  lemma DeadlockIsStuck(k: K)
    requires Core(k) && |k.sem| < Machine.WORD && Scheduled(k).1 == Deadlock
    ensures Stuck(Scheduled(k).0) <==> SoftNulls(k) % Machine.WORD == 0
  {
    VerdictCounts(k);
    assert forall x: nat :: Awaits(Scheduled(k).0, x) <==> x in SoftSet(k);
    assert |SoftSet(k)| == 0 <==> forall x: nat :: x !in SoftSet(k);
  }

  lemma NobodyOn(k: K, a: int)
    requires Core(k) && Stuck(k) && k.lay.Soft(a)
    ensures a !in k.blocked
  {
    if a in k.blocked {
      assert k.blocked[a][0] in k.blocked[a];
      assert Awaits(k, k.blocked[a][0]);
    }
  }

  lemma {:induction false} StuckServed(k: K, devs: seq<nat>)
    requires Core(k) && Stuck(k) && forall i :: i in devs ==> i < DeviceRegisters.SEM_NUM
    ensures Stuck(Served(k, devs)) && Served(k, devs).free == k.free && Served(k, devs).blocked == k.blocked
    decreases |devs|
  {
    if devs != [] {
      assert devs[0] in devs && forall i :: i in devs[1..] ==> i in devs;
      var a := k.lay.DevSem(devs[0]);
      HeadsOk(k);
      CoreSignalled(k, a);
      var r := Signalled(k, a);
      NobodyOn(k, a);
      assert forall x: nat :: Awaits(r, x) ==> Awaits(k, x);
      StuckServed(r, devs[1..]);
    }
  }

  lemma StuckStep(k: K, e: Event)
    requires Inv(k) && Legal(k, e) && Stuck(k) && e.Interrupt?
    ensures var r := Step(k, e).0; Stuck(r) && r.free == k.free && r.blocked == k.blocked
  {
    InterruptOk(k, false, e.tick);
    NobodyOn(k, k.lay.clock);
    var t := if e.tick then Ticked(k) else k;
    assert Seqs.Elems([]) == {} && k.blocked - {k.lay.clock} == k.blocked;
    assert forall x: nat :: Awaits(Ticked(k), x) ==> Awaits(k, x);
    var r := Served(t, e.devs);
    StuckServed(t, e.devs);
    assert forall x: nat :: Awaits(Scheduled(r).0, x) ==> Awaits(r, x);
  }

  /** A clock tick moves all the processes that wait for the clock to the tail of the ready queue, in
      the order in which they came, and takes exactly them off the count of soft-blocked processes. */
  lemma TickOrder(k: K)
    requires Core(k)
    ensures var q := Queue(k.blocked, k.lay.clock);
            var r := Ticked(k);
            && r.ready == k.ready + q
            && k.lay.clock !in r.blocked
            && (forall a :: a in k.blocked && a != k.lay.clock ==> a in r.blocked && r.blocked[a] == k.blocked[a])
            && r.soft == k.soft - |q| && (forall x :: x in q ==> r.sem[x] == 0)
            && (forall x: nat :: x < |k.sem| && x !in q ==> r.sem[x] == k.sem[x])
  {
    var q := Queue(k.blocked, k.lay.clock);
    assert forall x :: x in q ==> x < |k.sem| && k.sem[x] == k.lay.clock;
    Seqs.MinusNone(k.ready, Seqs.Elems(q));
  }

  /** The pseudo clock is never raised, so CLOCKWAIT always blocks the caller, last in its queue. */
  lemma ClockWaitBlocks(k: K)
    requires Inv(k) && k.current != -1
    ensures var r := Step(k, ClockWait).0;
            && k.lay.clock in r.blocked && r.blocked[k.lay.clock] == Queue(k.blocked, k.lay.clock) + [k.current]
            && r.current != k.current && r.soft == k.soft + 1 && r.mem == k.mem
  {
    assert k.current !in k.ready;
    if k.ready != [] {
      assert k.ready[0] in k.ready;
    }
  }
}
