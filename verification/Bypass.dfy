/** Round robin: a ready process is bypassed by no more dispatches than there are processes before it. */
module Bypass {
  import opened Seqs
  import Trees
  import DeviceRegisters
  import opened KernelState
  import opened KernelSteps
  import KernelInvariant
  import Runs

  /** `p` is in the sequence, at position `j` or before. */
  ghost predicate Near(s: seq<nat>, p: nat, j: int) {
    exists i :: 0 <= i <= j && i < |s| && s[i] == p
  }

  lemma NearMinus(s: seq<nat>, d: set<nat>, p: nat, j: int)
    requires Near(s, p, j) && p !in d
    ensures Near(Minus(s, d), p, j)
  {
    var i :| 0 <= i <= j && i < |s| && s[i] == p;
    var i' := MinusPosition(s, d, i);
  }

  lemma NearAppend(s: seq<nat>, t: seq<nat>, p: nat, j: int)
    requires Near(s, p, j)
    ensures Near(s + t, p, j)
  {
    var i :| 0 <= i <= j && i < |s| && s[i] == p;
    assert (s + t)[i] == p;
  }

  lemma NearEnqueued(k: K, q: nat, p: nat, j: int)
    requires Near(k.ready, p, j) && p != q
    ensures Near(Enqueued(k, q).ready, p, j)
  {
    NearMinus(k.ready, {q}, p, j);
    NearAppend(Minus(k.ready, {q}), [q], p, j);
  }

  /** The scheduler takes the first: `p` itself, or one that was before it. */
  lemma NearScheduled(k: K, p: nat, j: int)
    requires Near(k.ready, p, j)
    ensures var (r, o) := Scheduled(k); o.Dispatch? && (o.p == p || Near(r.ready, p, j - 1))
  {
    var i :| 0 <= i <= j && i < |k.ready| && k.ready[i] == p;
    if i > 0 {
      assert k.ready[1..][i - 1] == p;
    }
  }

  lemma NearWoken(k: K, a: int, p: nat, j: int)
    requires Core(k) && a in k.blocked && Near(k.ready, p, j)
    ensures k.blocked[a] != [] && k.blocked[a][0] < |k.sem| && Near(Woken(k, a).ready, p, j)
  {
    WokenIsUnblocked(k, a);
    assert p in k.ready;
    NearEnqueued(k, k.blocked[a][0], p, j);
  }

  lemma NearTicked(k: K, p: nat, j: int)
    requires Core(k) && Near(k.ready, p, j)
    ensures Near(Ticked(k).ready, p, j)
  {
    var q := Queue(k.blocked, k.lay.clock);
    assert p in k.ready && p !in q;
    NearMinus(k.ready, Elems(q), p, j);
    NearAppend(Minus(k.ready, Elems(q)), q, p, j);
  }

  lemma {:induction false} NearServed(k: K, devs: seq<nat>, p: nat, j: int)
    requires Core(k) && (forall i :: i in devs ==> i < DeviceRegisters.SEM_NUM) && Near(k.ready, p, j)
    ensures Near(Served(k, devs).ready, p, j)
    decreases |devs|
  {
    if devs != [] {
      assert devs[0] in devs && forall i :: i in devs[1..] ==> i in devs;
      var a := k.lay.DevSem(devs[0]);
      HeadsOk(k);
      CoreSignalled(k, a);
      if a in k.blocked {
        NearWoken(k, a, p, j);
      }
      NearServed(Signalled(k, a), devs[1..], p, j);
    }
  }

  /** What a step does to a ready process: frees it, dispatches it, or leaves it no further from the
      head, and one closer if it dispatches another. */
  ghost predicate NotPassed(r: (K, Outcome), p: nat, j: int) {
    p in r.0.free || r.1 == Dispatch(p) || Near(r.0.ready, p, if r.1.Dispatch? then j - 1 else j)
  }

  lemma NearInterrupted(k: K, timer: bool, tick: bool, devs: seq<nat>, p: nat, j: int)
    requires Inv(k) && Legal(k, Interrupt(timer, tick, devs)) && Near(k.ready, p, j)
    ensures Near(Interrupted(k, timer, tick, devs).ready, p, j)
  {
    InterruptOk(k, timer, tick);
    var k1 := if timer then Enqueued(k, k.current) else k;
    assert p in k.ready;
    if timer {
      NearEnqueued(k, k.current, p, j);
    }
    if tick {
      NearTicked(k1, p, j);
    }
    NearServed(if tick then Ticked(k1) else k1, devs, p, j);
    hide Inv, Core, Legal, Served, Ticked, Enqueued, Near;
  }

  lemma InterruptNotPassed(k: K, timer: bool, tick: bool, devs: seq<nat>, p: nat, j: int)
    requires Inv(k) && Legal(k, Interrupt(timer, tick, devs)) && Near(k.ready, p, j)
    ensures NotPassed(Step(k, Interrupt(timer, tick, devs)), p, j)
  {
    NearInterrupted(k, timer, tick, devs, p, j);
    NearScheduled(Interrupted(k, timer, tick, devs), p, j);
    hide Inv, Core, Legal, Interrupted, Near;
  }

  lemma TerminateNotPassed(k: K, t: nat, p: nat, j: int)
    requires Inv(k) && t < |k.sem| && t !in k.free && Near(k.ready, p, j)
    ensures NotPassed(Scheduled(Terminated(k, t)), p, j)
  {
    KernelInvariant.CoreTerminated(k, t);
    var dead := Trees.Post(k.tree, t);
    if p !in dead {
      NearMinus(k.ready, Elems(dead), p, j);
      NearScheduled(Terminated(k, t), p, j);
    }
  }

  lemma SemaphoreNotPassed(k: K, a: int, p: nat, j: int)
    requires Inv(k) && Legal(k, Passeren(a)) && Near(k.ready, p, j)
    ensures NotPassed(Step(k, Passeren(a)), p, j) && NotPassed(Step(k, Verhogen(a)), p, j)
  {
    HeadsOk(k);
    if a in k.blocked {
      NearWoken(k, a, p, j);
    }
    NearScheduled(Passed(k, a), p, j);
    NearScheduled(Raised(k, a), p, j);
  }

  lemma CreateNotPassed(k: K, nsd: int, p: nat, j: int)
    requires Inv(k) && Legal(k, Create(nsd)) && Near(k.ready, p, j)
    ensures NotPassed(Step(k, Create(nsd)), p, j)
  {
    if k.free != [] {
      assert k.free[0] in k.free && p in k.ready;
      NearEnqueued(k, k.free[0], p, j);
    }
  }

  lemma StepNotPassed(k: K, e: Event, p: nat, j: int)
    requires Inv(k) && Legal(k, e) && Near(k.ready, p, j)
    ensures NotPassed(Step(k, e), p, j)
  {
    match e
    case Create(d) => CreateNotPassed(k, d, p, j);
    case Terminate(pid, t) =>
      if t == -1 {
        NearScheduled(Nulled(k), p, j);
      } else {
        if pid != 0 {
          KernelInvariant.ListedIsLive(k, t, pid);
        }
        TerminateNotPassed(k, t, p, j);
      }
    case Passeren(a) => SemaphoreNotPassed(k, a, p, j);
    case Verhogen(a) => SemaphoreNotPassed(k, a, p, j);
    case DoIo(d, installed) =>
      NearScheduled(k, p, j);
      NearScheduled(Waited(k, k.lay.DevSem(d)), p, j);
    case ClockWait => NearScheduled(Waited(k, k.lay.clock), p, j);
    case AllocSpace(_) =>
    case FreeSpace(_) =>
    case Query =>
    case Interrupt(timer, tick, devs) => InterruptNotPassed(k, timer, tick, devs, p, j);
  }

  /** How many times a run dispatches a process. */
  ghost function Dispatches(k: K, es: seq<Event>): nat
    requires Inv(k) && Runs.LegalRun(k, es)
    decreases |es|
  {
    if es == [] then 0
    else
      KernelInvariant.StepKeepsInv(k, es[0]);
      (if Step(k, es[0]).1.Dispatch? then 1 else 0) + Dispatches(Step(k, es[0]).0, es[1..])
  }

  /** The run neither dispatches nor frees `p`. */
  ghost predicate Ignores(k: K, es: seq<Event>, p: nat)
    requires Inv(k) && Runs.LegalRun(k, es)
    decreases |es|
  {
    es == [] || (Step(k, es[0]).1 != Dispatch(p) && p !in Step(k, es[0]).0.free
                 && (KernelInvariant.StepKeepsInv(k, es[0]); Ignores(Step(k, es[0]).0, es[1..], p)))
  }

  /** A process with `j` others before it sees at most `j` dispatches before it is itself dispatched,
      or freed; and each of them brings it closer. */
  lemma {:induction false} BoundedBypass(k: K, es: seq<Event>, p: nat, j: int)
    requires Inv(k) && Runs.LegalRun(k, es) && Near(k.ready, p, j) && Ignores(k, es, p)
    ensures Dispatches(k, es) <= j && Near(Runs.Run(k, es).ready, p, j - Dispatches(k, es))
    decreases |es|
  {
    if es != [] {
      KernelInvariant.StepKeepsInv(k, es[0]);
      StepNotPassed(k, es[0], p, j);
      var r := Step(k, es[0]);
      BoundedBypass(r.0, es[1..], p, if r.1.Dispatch? then j - 1 else j);
    }
  }
}
