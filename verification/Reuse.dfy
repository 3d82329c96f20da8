/** Namespaces are handed out again while processes are still in them. */
module Reuse {
  import KernelInvariant
  import opened KernelState
  import opened KernelSteps
  import opened Namespaces
  import Recurrence
  import opened Runs
  import opened Creations

  /** The descriptor is in a slot of some PCB. */
  ghost predicate InUse(s: Spaces, d: nat) {
    exists p, i :: 0 <= p < |s.slots| && 0 <= i < |s.slots[p]| && s.slots[p][i] == d
  }

  /** Slots change only where a process is created; freeNamespace does not touch them. */
  lemma SlotsKept(k: K, e: Event)
    requires Inv(k) && Legal(k, e) && !e.Create?
    ensures Step(k, e).0.spaces.slots == k.spaces.slots
  {
    match e
    case Interrupt(timer, tick, devs) => InterruptFrame(k, timer, tick, devs);
    case _ => HeadsOk(k);
  }

  ghost predicate Creationless(es: seq<Event>) {
    forall i :: 0 <= i < |es| ==> !es[i].Create?
  }

  lemma {:induction false} RunSlotsKept(k: K, es: seq<Event>)
    requires Inv(k) && LegalRun(k, es) && Creationless(es)
    ensures Run(k, es).spaces.slots == k.spaces.slots
    decreases |es|
  {
    if es != [] {
      KernelInvariant.StepKeepsInv(k, es[0]);
      SlotsKept(k, es[0]);
      RunSlotsKept(Step(k, es[0]).0, es[1..]);
    }
  }

  /** So if a descriptor is freed and handed out again later, and no process is created in between, some
      process is in the namespace then exactly if one was when it was freed. */
  lemma HandedOutInUse(k: K, d: nat, es: seq<Event>, ty: int)
    requires Inv(k) && LegalRun(k, [FreeSpace(d)] + es + [AllocSpace(ty)]) && Creationless(es)
    ensures var r := Run(k, [FreeSpace(d)] + es + [AllocSpace(ty)]);
            InUse(r.spaces, d) <==> InUse(k.spaces, d)
  {
    RunSlotsKept(k, [FreeSpace(d)] + es + [AllocSpace(ty)]);
  }

  /** Whatever else happens, processes created included: a descriptor that is free and in no slot stays out of
      all slots for as long as it stays free. */
  lemma StaysOut(k: K, e: Event, d: nat)
    requires Inv(k) && Legal(k, e) && d in k.spaces.free && !InUse(k.spaces, d)
    ensures d in Step(k, e).0.spaces.free ==> !InUse(Step(k, e).0.spaces, d)
  {
    if e.Create? {
      CreatedStaysOut(k, e.nsd, d);
    } else {
      SlotsKept(k, e);
    }
  }

  lemma CreatedStaysOut(k: K, nsd: int, d: nat)
    requires Inv(k) && Legal(k, Create(nsd)) && d in k.spaces.free && !InUse(k.spaces, d)
    ensures var r := Created(k, nsd).0; d in r.spaces.free ==> !InUse(r.spaces, d)
  {
    var r := Created(k, nsd).0;
    if k.free != [] && InUse(r.spaces, d) {
      var p, i :| 0 <= p < |r.spaces.slots| && 0 <= i < |r.spaces.slots[p]| && r.spaces.slots[p][i] == d;
      assert k.spaces.slots[p][i] != d;
    }
  }

  /** The descriptor stays free all along. */
  ghost predicate StaysFree(k: K, es: seq<Event>, d: nat)
    requires Inv(k) && LegalRun(k, es)
    decreases |es|
  {
    d in k.spaces.free &&
    (es == [] || (KernelInvariant.StepKeepsInv(k, es[0]); StaysFree(Step(k, es[0]).0, es[1..], d)))
  }

  /** So one that was in no slot when it was freed is in none when it is handed out. */
  lemma {:induction false} HandedOutClean(k: K, es: seq<Event>, d: nat)
    requires Inv(k) && LegalRun(k, es) && StaysFree(k, es, d) && !InUse(k.spaces, d)
    ensures d in Run(k, es).spaces.free && !InUse(Run(k, es).spaces, d)
    decreases |es|
  {
    if es != [] {
      KernelInvariant.StepKeepsInv(k, es[0]);
      StaysOut(k, es[0], d);
      HandedOutClean(Step(k, es[0]).0, es[1..], d);
    }
  }

  /** The namespace that the next allocation hands out is that of a live child of the running process. */
  ghost predicate HandsOutInhabited(k: K, p: nat, c: nat, d: nat)
    requires Inv(k)
  {
    && k.current == p && c < |k.sem| && c !in k.free && c in k.tree.kids[p] && SpaceOf(k, c) == d
    && k.spaces.free != [] && k.spaces.free[0] == d
  }

  /** A live child is in the only namespace there is. */
  ghost predicate Inhabited(k: K, p: nat, c: nat)
    requires Inv(k)
  {
    && k.current == p && c < |k.sem| && c !in k.free && c in k.tree.kids[p] && SpaceOf(k, c) == 0
    && k.spaces.free == [] && |k.spaces.kind| == 1
  }

  lemma Allocates(k: K, p: nat, c: nat)
    requires Recurrence.Alone(k, p, c) && k.spaces.free == [0] && |k.spaces.kind| == 1
    ensures var e := AllocSpace(NS_PID);
            var r := Step(k, e).0;
            Legal(k, e) && Recurrence.Alone(r, p, c) && r.spaces.free == [] && r.spaces.kind == [NS_PID]
  {
    KernelInvariant.StepKeepsInv(k, AllocSpace(NS_PID));
  }

  lemma MovesIn(k: K, p: nat, c: nat)
    requires Recurrence.Alone(k, p, c) && k.spaces.free == [] && k.spaces.kind == [NS_PID]
    ensures Legal(k, Create(0)) && Inv(Step(k, Create(0)).0) && Inhabited(Step(k, Create(0)).0, p, c)
  {
    CreationSpaces(k, 0);
    Recurrence.Creates(k, p, c, 0);
  }

  lemma Frees(k: K, p: nat, c: nat)
    requires Inv(k) && Inhabited(k, p, c)
    ensures Legal(k, FreeSpace(0)) && Inv(Step(k, FreeSpace(0)).0)
    ensures HandsOutInhabited(Step(k, FreeSpace(0)).0, p, c, 0)
  {
    var r := Step(k, FreeSpace(0)).0;
    KernelInvariant.StepKeepsInv(k, FreeSpace(0));
    assert r.spaces.slots == k.spaces.slots && r.spaces.kind == k.spaces.kind && r.spaces.free == [0];
    SpaceSame(k.spaces, r.spaces, c, NS_PID, 0, k.lay.nullWord);
  }

  lemma {:induction false} SpaceSame(s: Spaces, r: Spaces, p: nat, t: int, i: nat, nullWord: int)
    requires SpacesOk(s) && SpacesOk(r) && r.slots == s.slots && r.kind == s.kind && p < |s.slots| && i <= |s.slots[p]|
    ensures Space(r, p, t, i, nullWord) == Space(s, p, t, i, nullWord)
    decreases |s.slots[p]| - i
  {
    if i < |s.slots[p]| {
      SpaceSame(s, r, p, t, i + 1, nullWord);
    }
  }

  /** The first process allocates the only descriptor, gives it to a child and frees it: it is the next to be
      handed out, and the child is still in it. */
  lemma FreesInhabited(lay: Layout, n: nat, mem: map<int, nat>, kind: seq<int>)
    requires n > 1 && lay.WellPlaced() && KernelInvariant.KernelMemory(lay, mem) && |kind| == 1
    ensures var es := [AllocSpace(NS_PID)] + [Create(0)] + [FreeSpace(0)];
            var s := Started(lay, n, kind, mem);
            LegalRun(s, es) && HandsOutInhabited(Run(s, es), n - 1, n - 2, 0)
  {
    var a, b, e := AllocSpace(NS_PID), Create(0), FreeSpace(0);
    var s, p, c := Started(lay, n, kind, mem), n - 1, n - 2;
    Recurrence.StartsAlone(lay, n, kind, mem);
    assert s.spaces.free == [0] && s.spaces.kind == kind;
    hide Inv, Legal, Step, Run, LegalRun, Started, Inhabited, HandsOutInhabited;
    Allocates(s, p, c);
    var k1 := Step(s, a).0;
    MovesIn(k1, p, c);
    var k2 := Step(k1, b).0;
    Frees(k2, p, c);
    OneStep(s, a);
    OneStep(k1, b);
    OneStep(k2, e);
    RunAppend(s, [a], [b]);
    RunAppend(s, [a] + [b], [e]);
  }
}
