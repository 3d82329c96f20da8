/** PASSEREN and VERHOGEN on a semaphore of the kernel's own: they do not keep the count of soft-blocked
    processes, which the scheduler goes by. */
module Miscounts {
  import DeviceRegisters
  import opened KernelState
  import Machine
  import opened KernelSteps
  import KernelInvariant
  import Runs

  /** How many soft-blocked processes the count misses, beyond those that it misses because of NULL. */
  ghost function Missed(k: K): int {
    |SoftSet(k)| - SoftNulls(k) - k.soft
  }

  /** What the invariant says of places, trees and counters, but for this. */
  ghost predicate CoreButCount(k: K) {
    Core(k.(soft := k.soft + Missed(k)))
  }

  lemma CountIsAll(k: K)
    ensures Core(k) <==> CoreButCount(k) && Missed(k) == 0
  {
    SoftSetOf(k, k.(soft := k.soft + Missed(k)));
  }

  lemma BlockedMisses(k: K, a: int)
    requires Inv(k) && k.current != -1 && a in k.mem
    ensures var r := Blocked(k, a, k.current); CoreButCount(r) && Missed(r) == if k.lay.Soft(a) then 1 else 0
  {
    var r := Blocked(k, a, k.current);
    CoreBlocked(k, a, k.current);
    SoftSetBlocked(k, a, k.current);
  }

  lemma WokenMisses(k: K, a: int)
    requires Inv(k) && a in k.blocked
    ensures k.blocked[a] != [] && k.blocked[a][0] < |k.sem|
    ensures var r := Woken(k, a); CoreButCount(r) && Missed(r) == if k.lay.Soft(a) then -1 else 0
  {
    CoreWoken(k, a);
    var r := Woken(k, a);
    SoftSetOf(r, r.(soft := if k.lay.Soft(a) then k.soft - 1 else k.soft));
  }

  lemma StoredMisses(k: K, a: int, v: nat)
    requires Inv(k)
    ensures var r := k.(mem := k.mem[a := v]); CoreButCount(r) && Missed(r) == 0
  {
    SoftSetOf(k, k.(mem := k.mem[a := v]));
  }

  /** A semaphore of the kernel's that has a queue is 0. */
  lemma SoftQueueAtZero(k: K, a: int)
    requires Inv(k) && k.lay.Soft(a) && a in k.blocked
    ensures a in k.mem && k.mem[a] == 0
  {
    if a != k.lay.clock {
      var i := (a - k.lay.devBase) / 4;
      assert a == k.lay.DevSem(i);
    }
  }

  /** PASSEREN leaves the count right exactly if the semaphore is a program's or does not block; on a
      kernel semaphore at 0 it blocks the caller and does not count it. */
  lemma PassedMiscounts(k: K, a: int)
    requires Inv(k) && k.current != -1 && a in k.mem
    ensures a in k.blocked ==> k.blocked[a] != [] && k.blocked[a][0] < |k.sem|
    ensures CoreButCount(Passed(k, a))
    ensures Missed(Passed(k, a)) == if k.lay.Soft(a) && k.mem[a] == 0 then 1 else 0
    ensures Core(Passed(k, a)) <==> !k.lay.Soft(a) || k.mem[a] != 0
  {
    HeadsOk(k);
    if k.mem[a] == 0 {
      BlockedMisses(k, a);
    } else if a in k.blocked {
      WokenMisses(k, a);
      if k.lay.Soft(a) {
        SoftQueueAtZero(k, a);
      }
    } else {
      StoredMisses(k, a, k.mem[a] - 1);
    }
    CountIsAll(Passed(k, a));
  }

  /** VERHOGEN blocks without counting at 1, and wakes without uncounting. */
  lemma RaisedMiscounts(k: K, a: int)
    requires Inv(k) && k.current != -1 && a in k.mem
    ensures a in k.blocked ==> k.blocked[a] != [] && k.blocked[a][0] < |k.sem|
    ensures CoreButCount(Raised(k, a))
    ensures Missed(Raised(k, a)) ==
            if !k.lay.Soft(a) then 0 else if k.mem[a] == 1 then 1 else if a in k.blocked then -1 else 0
    ensures Core(Raised(k, a)) <==> !k.lay.Soft(a) || (k.mem[a] != 1 && a !in k.blocked)
  {
    HeadsOk(k);
    if k.mem[a] == 1 {
      BlockedMisses(k, a);
    } else if a in k.blocked {
      WokenMisses(k, a);
    } else {
      StoredMisses(k, a, (k.mem[a] + 1) % Machine.WORD);
    }
    CountIsAll(Raised(k, a));
  }

  /** So a first process that waits for a device by PASSEREN on the device's semaphore, as P of the same
      semaphore would, makes the kernel declare a deadlock where P makes it wait. */
  lemma FalseDeadlock(lay: Layout, n: nat, kind: seq<int>, mem: map<int, nat>, i: nat)
    requires n > 0 && lay.WellPlaced() && KernelInvariant.KernelMemory(lay, mem) && i < DeviceRegisters.SEM_NUM
    ensures var k := Runs.Started(lay, n, kind, mem);
            var a := lay.DevSem(i);
            && |k.sem| == n && k.lay == lay && a in k.mem && a !in k.blocked
            && Scheduled(Passed(k, a)).1 == Deadlock && Scheduled(Waited(k, a)).1 == Wait
  {
    var k := Runs.Started(lay, n, kind, mem);
    assert k.ready == [];
  }
}
