/** Semaphores wake in the order of blocking: no process is passed by more wakes than there are processes
    before it on its semaphore. */
module Fifo {
  import opened Seqs
  import Trees
  import DeviceRegisters
  import opened KernelState
  import opened KernelSteps
  import KernelInvariant
  import opened Bypass
  import opened Runs
  import Subtrees

  /** The processes that leave the queue of `a` alive. */
  ghost function Woke(k: K, r: K, a: int): set<nat>
    requires forall x :: x in Queue(k.blocked, a) ==> x < |r.sem|
  {
    set x | x in Queue(k.blocked, a) && x !in r.free && r.sem[x] != a
  }

  /** The first `w` leave the queue of `a` alive; the freed ones leave it too; the others keep their order,
      and `late` comes last. */
  ghost predicate Moved(k: K, r: K, a: int, w: nat, late: seq<nat>) {
    var q := Queue(k.blocked, a);
    && |r.sem| == |k.sem| && w <= |q|
    && Queue(r.blocked, a) == Minus(q[w..], Elems(r.free)) + late
    && (forall x :: x in q[..w] ==> x !in r.free)
    && (late == [] || (late == [k.current] && k.current !in q))
  }

  /** So those that leave it alive are its first. */
  lemma WokeIsFront(k: K, r: K, a: int, w: nat, late: seq<nat>)
    requires Places(k) && Places(r) && Moved(k, r, a, w, late)
    ensures forall x :: x in Queue(k.blocked, a) ==> x < |r.sem|
    ensures Woke(k, r, a) == Elems(Queue(k.blocked, a)[..w]) && |Woke(k, r, a)| == w
  {
    var q := Queue(k.blocked, a);
    assert q == q[..w] + q[w..];
    forall x | x in q && x !in r.free
      ensures x in q[..w] <==> r.sem[x] != a
    {
      assert x in q[w..] ==> x in Minus(q[w..], Elems(r.free));
      assert x in Queue(r.blocked, a) <==> r.sem[x] == a;
      assert x !in q[..w] || x !in q[w..];
    }
    ElemsSize(q[..w]);
  }

  /** A step that frees nobody, seen from one queue. */
  ghost predicate Drops(k: K, r: K, a: int, w: nat) {
    && |r.sem| == |k.sem| && (forall x :: x in r.free ==> x in k.free)
    && w <= |Queue(k.blocked, a)| && Queue(r.blocked, a) == Queue(k.blocked, a)[w..]
  }

  lemma DropsTwice(k: K, m: K, r: K, a: int, v: nat, w: nat)
    requires Drops(k, m, a, v) && Drops(m, r, a, w)
    ensures Drops(k, r, a, v + w)
  {
  }

  lemma DropsMoved(k: K, r: K, a: int, w: nat)
    requires Places(k) && Drops(k, r, a, w)
    ensures Moved(k, r, a, w, [])
  {
    var q := Queue(k.blocked, a);
    assert forall x :: x in q ==> k.sem[x] != 0;
    MinusNone(q[w..], Elems(r.free));
  }

  lemma BlockedMoved(k: K, r: K, a: int, b: int)
    requires Places(k) && CurrentApart(k) && k.current != -1
    requires |r.sem| == |k.sem| && r.free == k.free && r.blocked == Blocked(k, b, k.current).blocked
    ensures Moved(k, r, a, 0, if a == b then [k.current] else [])
  {
    var q := Queue(k.blocked, a);
    assert forall x :: x in q ==> k.sem[x] != 0;
    assert q[0..] == q;
    MinusNone(q, Elems(r.free));
  }

  lemma WokenDrops(k: K, a: int, b: int)
    requires Core(k) && b in k.blocked
    ensures k.blocked[b] != [] && k.blocked[b][0] < |k.sem|
    ensures Drops(k, Woken(k, b), a, if a == b then 1 else 0)
  {
    WokenIsUnblocked(k, b);
  }

  lemma TickedDrops(k: K, a: int)
    requires Core(k)
    ensures Drops(k, Ticked(k), a, if a == k.lay.clock then |Queue(k.blocked, a)| else 0)
  {
  }

  lemma {:induction false} ServedDrops(k: K, devs: seq<nat>, a: int) returns (w: nat)
    requires Core(k) && forall i :: i in devs ==> i < DeviceRegisters.SEM_NUM
    ensures Drops(k, Served(k, devs), a, w)
    decreases |devs|
  {
    if devs == [] {
      w := 0;
    } else {
      assert devs[0] in devs && forall i :: i in devs[1..] ==> i in devs;
      var b := k.lay.DevSem(devs[0]);
      HeadsOk(k);
      CoreSignalled(k, b);
      var s := Signalled(k, b);
      if b in k.blocked {
        WokenDrops(k, a, b);
      }
      var v := ServedDrops(s, devs[1..], a);
      w := v + if a == b && b in k.blocked then 1 else 0;
    }
  }

  lemma InterruptMoved(k: K, timer: bool, tick: bool, devs: seq<nat>, a: int) returns (w: nat)
    requires Inv(k) && Legal(k, Interrupt(timer, tick, devs))
    ensures var r := Interrupted(k, timer, tick, devs); Moved(k, r, a, w, []) && Moved(k, Scheduled(r).0, a, w, [])
  {
    InterruptOk(k, timer, tick);
    var k1 := if timer then Enqueued(k, k.current) else k;
    w := TickServedDrops(k1, tick, devs, a);
    var r := Interrupted(k, timer, tick, devs);
    assert Drops(k, r, a, w);
    hide Inv, Core, Legal, Ticked, Served, Interrupted, Drops;
    DropsMoved(k, r, a, w);
    MovedScheduled(k, r, a, w, []);
  }

  lemma TickServedDrops(k: K, tick: bool, devs: seq<nat>, a: int) returns (w: nat)
    requires Core(k) && Core(Ticked(k)) && forall i :: i in devs ==> i < DeviceRegisters.SEM_NUM
    ensures Drops(k, Served(if tick then Ticked(k) else k, devs), a, w)
  {
    TickedDrops(k, a);
    var v := if tick && a == k.lay.clock then |Queue(k.blocked, a)| else 0;
    var t := if tick then Ticked(k) else k;
    assert Drops(k, t, a, v);
    w := ServedDrops(t, devs, a);
    hide Core, Ticked, Served;
    DropsTwice(k, t, Served(t, devs), a, v, w);
    w := v + w;
  }

  lemma TerminateMoved(k: K, t: nat, a: int)
    requires Core(k) && t < |k.sem|
    ensures Moved(k, Scheduled(Terminated(k, t)).0, a, 0, [])
  {
    var q, r := Queue(k.blocked, a), Terminated(k, t);
    var dead := Trees.Post(k.tree, t);
    assert q[0..] == q;
    forall x | x in q
      ensures x in Elems(r.free) <==> x in Elems(dead)
    {
      assert k.sem[x] != 0;
    }
    Subtrees.MinusSame(q, Elems(r.free), Elems(dead));
  }

  /** In a step, those that leave the queue of a semaphore alive are the first of it; of the others, all
      that are not freed stay, in order; and at most the caller joins it, at the tail. */
  lemma StepFifo(k: K, e: Event, a: int) returns (w: nat, late: seq<nat>)
    requires Inv(k) && Legal(k, e)
    ensures Moved(k, Step(k, e).0, a, w, late)
  {
    w, late := 0, [];
    HeadsOk(k);
    hide Moved, Inv, Blocked, Woken, Waited, Terminated, Nulled, Created, Interrupted, SpaceAllocated, SpaceFreed;
    match e
    case Create(d) => CreateMoved(k, d, a);
    case Terminate(pid, t) =>
      if t != -1 {
        TerminateMoved(k, t, a);
      } else {
        NullMoved(k, a);
      }
    case Passeren(b) => w, late := SemaphoreMoved(k, Passed(k, b), k.mem[b] == 0, b, a);
    case Verhogen(b) => w, late := SemaphoreMoved(k, Raised(k, b), k.mem[b] == 1, b, a);
    case DoIo(d, installed) =>
      var b := k.lay.DevSem(d);
      late := WaitMoved(k, if installed then Waited(k, b) else k, b, a);
    case ClockWait => late := WaitMoved(k, Waited(k, k.lay.clock), k.lay.clock, a);
    case AllocSpace(ty) => SpacesMoved(k, SpaceAllocated(k.spaces, ty), a);
    case FreeSpace(d) => SpacesMoved(k, SpaceFreed(k.spaces, d), a);
    case Query => SpacesMoved(k, k.spaces, a);
    case Interrupt(timer, tick, devs) => w := InterruptMoved(k, timer, tick, devs, a);
  }

  lemma MovedScheduled(k: K, r: K, a: int, w: nat, late: seq<nat>)
    requires Moved(k, r, a, w, late)
    ensures Moved(k, Scheduled(r).0, a, w, late)
  {
  }

  lemma NullMoved(k: K, a: int)
    requires Core(k)
    ensures Moved(k, Scheduled(Nulled(k)).0, a, 0, [])
  {
    DropsMoved(k, Nulled(k), a, 0);
    MovedScheduled(k, Nulled(k), a, 0, []);
  }

  lemma SpacesMoved(k: K, s: Spaces, a: int)
    requires Core(k)
    ensures Moved(k, k.(spaces := s), a, 0, [])
  {
    DropsMoved(k, k.(spaces := s), a, 0);
  }

  lemma CreateMoved(k: K, nsd: int, a: int)
    requires Inv(k) && Legal(k, Create(nsd))
    ensures Moved(k, Created(k, nsd).0, a, 0, [])
  {
    var r := Created(k, nsd).0;
    CreateFrame(k, nsd);
    assert r.sem == k.sem && r.blocked == k.blocked;
    hide Created, Inv, Legal;
    DropsMoved(k, r, a, 0);
  }

  lemma WaitMoved(k: K, r: K, b: int, a: int) returns (late: seq<nat>)
    requires Inv(k) && k.current != -1 && b in k.mem && (r == Waited(k, b) || r == k)
    ensures Moved(k, Scheduled(r).0, a, 0, late)
  {
    if r.blocked == k.blocked {
      DropsMoved(k, r, a, 0);
      late := [];
    } else {
      BlockedMoved(k, r, a, b);
      late := if a == b then [k.current] else [];
    }
  }

  lemma SemaphoreMoved(k: K, r: K, blocks: bool, b: int, a: int) returns (w: nat, late: seq<nat>)
    requires Inv(k) && k.current != -1 && (b in k.blocked ==> k.blocked[b] != [] && k.blocked[b][0] < |k.sem|)
    requires if blocks then r == Blocked(k, b, k.current)
             else if b in k.blocked then r == Woken(k, b) else r == k.(mem := r.mem)
    ensures Moved(k, r, a, w, late) && Moved(k, Scheduled(r).0, a, w, late)
  {
    w, late := 0, [];
    if blocks {
      BlockedMoved(k, r, a, b);
      late := if a == b then [k.current] else [];
    } else {
      if b in k.blocked {
        WokenDrops(k, a, b);
        w := if a == b then 1 else 0;
      }
      DropsMoved(k, r, a, w);
    }
  }

  /** How many processes a run wakes on a semaphore. */
  ghost function Wakes(k: K, es: seq<Event>, a: int): nat
    requires Inv(k) && LegalRun(k, es)
    decreases |es|
  {
    if es == [] then 0
    else
      KernelInvariant.StepKeepsInv(k, es[0]);
      StepSize(k, es[0]);
      |Woke(k, Step(k, es[0]).0, a)| + Wakes(Step(k, es[0]).0, es[1..], a)
  }

  /** The run leaves `p` waiting for `a`. */
  ghost predicate Waits(k: K, es: seq<Event>, p: nat, a: int)
    requires Inv(k) && LegalRun(k, es)
    decreases |es|
  {
    && p < |k.sem| && k.sem[p] == a != 0
    && (es == [] || (KernelInvariant.StepKeepsInv(k, es[0]); Waits(Step(k, es[0]).0, es[1..], p, a)))
  }

  lemma MovedNear(k: K, r: K, p: nat, a: int, j: int, w: nat, late: seq<nat>)
    requires Places(k) && Places(r) && Moved(k, r, a, w, late) && Near(Queue(k.blocked, a), p, j)
    requires p < |r.sem| && r.sem[p] == a != 0
    ensures Near(Queue(r.blocked, a), p, j - w)
  {
    var q := Queue(k.blocked, a);
    var i :| 0 <= i <= j && i < |q| && q[i] == p;
    assert p in Queue(r.blocked, a) && p !in late && p in q[w..];
    var m :| 0 <= m < |q[w..]| && q[w..][m] == p;
    assert q[w + m] == q[i] && w + m == i;
    NearMinus(q[w..], Elems(r.free), p, j - w);
    NearAppend(Minus(q[w..], Elems(r.free)), late, p, j - w);
  }

  lemma StepNear(k: K, e: Event, p: nat, a: int, j: int)
    requires Inv(k) && Legal(k, e) && Near(Queue(k.blocked, a), p, j)
    requires p < |Step(k, e).0.sem| && Step(k, e).0.sem[p] == a != 0
    ensures forall x :: x in Queue(k.blocked, a) ==> x < |Step(k, e).0.sem|
    ensures Near(Queue(Step(k, e).0.blocked, a), p, j - |Woke(k, Step(k, e).0, a)|)
  {
    var r := Step(k, e).0;
    var w, late := StepFifo(k, e, a);
    KernelInvariant.StepKeepsInv(k, e);
    hide Step, Legal, Near, Moved, Woke, Queue;
    WokeIsFront(k, r, a, w, late);
    MovedNear(k, r, p, a, j, w, late);
  }

  /** A process with `j` others before it on the queue of a semaphore sees at most `j` wakes on it before it
      is itself woken, or freed; and each of them brings it closer. */
  lemma {:induction false} BoundedWakes(k: K, es: seq<Event>, p: nat, a: int, j: int)
    requires Inv(k) && LegalRun(k, es) && Near(Queue(k.blocked, a), p, j) && Waits(k, es, p, a)
    ensures Wakes(k, es, a) <= j && Near(Queue(Run(k, es).blocked, a), p, j - Wakes(k, es, a))
    decreases |es|
  {
    if es != [] {
      KernelInvariant.StepKeepsInv(k, es[0]);
      StepSize(k, es[0]);
      StepNear(k, es[0], p, a, j);
      var r := Step(k, es[0]).0;
      BoundedWakes(r, es[1..], p, a, j - |Woke(k, r, a)|);
    }
  }
}
