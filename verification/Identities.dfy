/** Process identifiers: what TERMPROCESS and its search for a PID rely on. */
module Identities {
  import opened KernelState
  import opened Machine
  import opened KernelSteps
  import opened KernelInvariant
  import Losses
  import Recurrence
  import opened Runs

  /** PIDs identify the live processes, and none of them is 0, which stands for the caller. */
  ghost predicate Distinct(k: K)
    requires |k.pid| == |k.sem|
  {
    && (forall x: nat :: x < |k.sem| && x !in k.free ==> k.pid[x] != 0)
    && (forall x: nat, y: nat :: x < |k.sem| && y < |k.sem| && x !in k.free && y !in k.free && k.pid[x] == k.pid[y] ==>
                                   x == y)
  }

  /** The next PID is 0, or a live process has it. */
  ghost predicate Taken(k: K)
    requires |k.pid| == |k.sem|
  {
    k.nextPid == 0 || exists x: nat :: x < |k.sem| && x !in k.free && k.pid[x] == k.nextPid
  }

  /** The request that gives a new process such a PID. */
  ghost predicate Clashes(k: K, e: Event)
    requires |k.pid| == |k.sem|
  {
    e.Create? && k.free != [] && Taken(k)
  }

  lemma CreateDistinct(k: K, nsd: int)
    requires Inv(k) && Legal(k, Create(nsd)) && Distinct(k)
    ensures Inv(Created(k, nsd).0) && (Distinct(Created(k, nsd).0) <==> !Clashes(k, Create(nsd)))
  {
    CreateKeepsInv(k, nsd);
    CreateFrame(k, nsd);
    if k.free != [] {
      FreeOnce(k);
      NewPid(k, Created(k, nsd).0);
    }
  }

  lemma NewPid(k: K, r: K)
    requires |k.pid| == |k.sem| == |r.sem| && Distinct(k) && k.free != [] && k.free[0] < |k.sem|
    requires r.pid == k.pid[k.free[0] := k.nextPid] && forall x :: x in r.free <==> x in k.free && x != k.free[0]
    ensures Distinct(r) <==> !Taken(k)
  {
    assert r.pid[k.free[0]] == k.nextPid && k.free[0] !in r.free;
  }

  lemma FreeOnce(k: K)
    requires Core(k) && k.free != []
    ensures k.free[0] < |k.sem| && forall x :: x in k.free[1..] <==> x in k.free && x != k.free[0]
  {
    assert k.free == [k.free[0]] + k.free[1..];
    assert k.free[0] in k.free;
  }

  /** A step keeps the PIDs distinct and nonzero exactly when it does not hand out one that is taken. */
  lemma StepDistinct(k: K, e: Event)
    requires Inv(k) && Legal(k, e) && Distinct(k)
    ensures Inv(Step(k, e).0) && (Distinct(Step(k, e).0) <==> !Clashes(k, e))
  {
    StepKeepsInv(k, e);
    if e.Create? {
      CreateDistinct(k, e.nsd);
    } else {
      StepFrame(k, e);
      FewerDistinct(k, Step(k, e).0);
    }
  }

  lemma FewerDistinct(k: K, r: K)
    requires |k.pid| == |k.sem| && Distinct(k) && SameIds(k, r)
    ensures Distinct(r)
  {
  }

  /** PIDs are distinct at every point of the run. */
  ghost predicate StaysDistinct(k: K, es: seq<Event>)
    requires Inv(k) && LegalRun(k, es)
    decreases |es|
  {
    Distinct(k) && (es == [] || (StepKeepsInv(k, es[0]); StaysDistinct(Step(k, es[0]).0, es[1..])))
  }

  /** The run never hands out a PID that is taken. */
  ghost predicate NeverClashes(k: K, es: seq<Event>)
    requires Inv(k) && LegalRun(k, es)
    decreases |es|
  {
    es == [] || (!Clashes(k, es[0]) && (StepKeepsInv(k, es[0]); NeverClashes(Step(k, es[0]).0, es[1..])))
  }

  lemma {:induction false} RunDistinct(k: K, es: seq<Event>)
    requires Inv(k) && LegalRun(k, es) && Distinct(k)
    ensures StaysDistinct(k, es) <==> NeverClashes(k, es)
    decreases |es|
  {
    if es != [] {
      StepDistinct(k, es[0]);
      if !Clashes(k, es[0]) {
        RunDistinct(Step(k, es[0]).0, es[1..]);
      }
    }
  }

  /** Live PIDs are distinct, and all of them lie between 0 and the counter. */
  ghost predicate PidsOk(k: K)
    requires |k.pid| == |k.sem|
  {
    0 < k.nextPid < WORD && Distinct(k) && forall x: nat :: x < |k.sem| && x !in k.free ==> k.pid[x] < k.nextPid
  }

  /** What a step does to the PIDs: nothing, or it creates a process from the first free PCB. */
  ghost predicate OneMore(k: K, r: K) {
    && |k.pid| == |k.sem| == |r.sem| == |r.pid|
    && (SameIds(k, r) || r == k ||
        (k.free != [] && k.free[0] < |k.sem| && k.free == [k.free[0]] + k.free[1..] && r.free == k.free[1..]
         && r.pid == k.pid[k.free[0] := k.nextPid] && r.nextPid == (k.nextPid + 1) % WORD))
  }

  lemma StepIds(k: K, e: Event)
    requires Inv(k) && Legal(k, e)
    ensures OneMore(k, Step(k, e).0)
  {
    if e.Create? {
      CreateFrame(k, e.nsd);
      if k.free != [] {
        FreeOnce(k);
      }
      assert Step(k, e).0 == Created(k, e.nsd).0;
      hide Created;
    } else {
      StepFrame(k, e);
      hide Step;
    }
  }

  /** As long as the counter does not wrap, no PID is handed out twice. */
  lemma StepPids(k: K, e: Event)
    requires Inv(k) && Legal(k, e) && PidsOk(k) && k.nextPid + 1 < WORD
    ensures Inv(Step(k, e).0) && PidsOk(Step(k, e).0)
  {
    hide Step, Inv, Legal;
    StepIds(k, e);
    assert !Taken(k);
    StepDistinct(k, e);
    hide Distinct, Taken;
    PidsBelow(k, Step(k, e).0);
  }

  lemma PidsBelow(k: K, r: K)
    requires OneMore(k, r) && PidsOk(k) && Distinct(r) && k.nextPid + 1 < WORD
    ensures PidsOk(r)
  {
    hide Distinct;
  }

  lemma StepNextPid(k: K, e: Event)
    requires Inv(k) && Legal(k, e) && k.nextPid + 1 < WORD
    ensures k.nextPid <= Step(k, e).0.nextPid <= k.nextPid + 1
  {
    hide Step, Inv, Legal;
    StepIds(k, e);
  }

  /** As long as the counter cannot have wrapped, PIDs identify processes. */
  lemma {:induction false} RunPids(k: K, es: seq<Event>)
    requires Inv(k) && LegalRun(k, es) && PidsOk(k) && k.nextPid + |es| < WORD
    ensures PidsOk(Run(k, es)) && Run(k, es).nextPid <= k.nextPid + |es|
    decreases |es|
  {
    if es != [] {
      StepPids(k, es[0]);
      StepNextPid(k, es[0]);
      RunPids(Step(k, es[0]).0, es[1..]);
    }
  }

  /** From initKernel on, PIDs are distinct for as long as the counter cannot have come round. */
  lemma StartedDistinct(lay: Layout, n: nat, kind: seq<int>, mem: map<int, nat>, es: seq<Event>)
    requires n > 0 && lay.WellPlaced() && KernelMemory(lay, mem)
    requires LegalRun(Started(lay, n, kind, mem), es) && |es| < WORD - 2
    ensures Distinct(Run(Started(lay, n, kind, mem), es))
  {
    var k := Started(lay, n, kind, mem);
    FirstPids(lay, n, kind, mem);
    hide Inv, LegalRun, Started;
    RunPids(k, es);
  }

  lemma FirstPids(lay: Layout, n: nat, kind: seq<int>, mem: map<int, nat>)
    requires n > 0 && lay.WellPlaced() && KernelMemory(lay, mem)
    ensures var k := Started(lay, n, kind, mem); |k.pid| == |k.sem| && PidsOk(k) && k.nextPid == 2
  {
    FirstStep(lay, n, kind, mem);
    hide Started;
    var k := Started(lay, n, kind, mem);
    forall x: nat | x < n - 1
      ensures x in k.free
    {
      assert k.free[n - 2 - x] == x;
    }
  }

  /** The state of a run in which the first process, with PID 1, has a child with PID `pid`. */
  ghost predicate ChildHasPid(k: K, n: nat, pid: nat) {
    && |k.pid| == |k.sem| == n > 1 && n - 1 !in k.free && n - 2 !in k.free
    && k.pid[n - 1] == 1 && k.pid[n - 2] == pid
  }

  /** After that they need not be: one run gives two live processes the PID 1, and another gives a live
      process the PID 0, which TERMPROCESS takes for the caller. */
  lemma PidsClash(lay: Layout, n: nat, kind: seq<int>, mem: map<int, nat>) returns (twice: seq<Event>, zero: seq<Event>)
    requires n > 1 && lay.WellPlaced() && KernelMemory(lay, mem)
    ensures LegalRun(Started(lay, n, kind, mem), twice) && ChildHasPid(Run(Started(lay, n, kind, mem), twice), n, 1)
    ensures LegalRun(Started(lay, n, kind, mem), zero) && ChildHasPid(Run(Started(lay, n, kind, mem), zero), n, 0)
    ensures !Distinct(Run(Started(lay, n, kind, mem), twice)) && !Distinct(Run(Started(lay, n, kind, mem), zero))
  {
    twice := ChildWithPid(lay, n, kind, mem, 1, WORD - 1);
    zero := ChildWithPid(lay, n, kind, mem, 0, WORD - 2);
  }

  lemma ChildWithPid(lay: Layout, n: nat, kind: seq<int>, mem: map<int, nat>, pid: nat, t: nat) returns (es: seq<Event>)
    requires n > 1 && lay.WellPlaced() && KernelMemory(lay, mem) && (2 + t) % WORD == pid <= 1
    ensures LegalRun(Started(lay, n, kind, mem), es)
    ensures var k := Run(Started(lay, n, kind, mem), es); ChildHasPid(k, n, pid) && !Distinct(k)
  {
    Recurrence.ChildAfterRounds(lay, n, kind, mem, t);
    es := Recurrence.Rounds(n - 2, t) + [Create(-1)];
  }

  /** findPcb has one answer, and never the caller: the process that has the PID, if that process is
      ready or blocked. */
  lemma FindIsUnique(k: K, p: int, pid: nat)
    requires Inv(k) && Distinct(k) && Listed(k, p, pid)
    ensures p != k.current && pid != 0 && forall q :: 0 <= q < |k.sem| && q !in k.free && k.pid[q] == pid ==> q == p
  {
    ListedIsLive(k, p, pid);
  }

  /** TERMPROCESS terminates NULL exactly when the PID is not 0 and every live process that has it is one
      that findPcb does not look at: the caller itself, or a lost one. */
  lemma NullTargetWhen(k: K, pid: nat, t: int)
    requires Inv(k) && Legal(k, Terminate(pid, t))
    ensures t == -1 <==>
            pid != 0 && forall x: nat :: x < |k.sem| && x !in k.free && k.pid[x] == pid ==>
                                           x == k.current || Losses.Lost(k, x)
  {
    if t == -1 {
      forall x: nat | x < |k.sem| && x !in k.free && k.pid[x] == pid
        ensures x == k.current || Losses.Lost(k, x)
      {
        assert !Listed(k, x, pid);
      }
    } else if pid != 0 {
      ListedIsLive(k, t, pid);
      assert !Losses.Lost(k, t) && t != k.current;
    }
  }

  /** It then frees nobody, counts one process less, takes one off the soft-blocked ones if NULL reads as
      such, and loses the caller. */
  lemma NullTargetEffect(k: K, pid: nat)
    requires Inv(k) && Legal(k, Terminate(pid, -1))
    ensures var r := Step(k, Terminate(pid, -1)).0;
            && r.free == k.free && r.tree == k.tree && r.blocked == k.blocked && r.sem == k.sem
            && r.procs == k.procs - 1 && r.soft == k.soft - (if k.lay.Soft(k.lay.nullSem) then 1 else 0)
            && k.current != -1 && Losses.Lost(r, k.current) && r.current != k.current
  {
    Losses.StepLosses(k, Terminate(pid, -1), k.current);
  }

  /** In particular when a process names itself. */
  lemma NamingOneself(k: K, t: int)
    requires Inv(k) && Distinct(k) && k.current != -1
    requires |k.pid| == |k.sem| && 0 <= k.current < |k.sem| && Legal(k, Terminate(k.pid[k.current], t))
    ensures t == -1 && Losses.Lost(Step(k, Terminate(k.pid[k.current], t)).0, k.current)
  {
    NullTargetWhen(k, k.pid[k.current], t);
    NullTargetEffect(k, k.pid[k.current]);
  }

  /** The first process does so by terminating PID 1. */
  lemma FirstProcessNamesItself(lay: Layout, n: nat, kind: seq<int>, mem: map<int, nat>)
    requires n > 0 && lay.WellPlaced() && KernelMemory(lay, mem)
    ensures var k := Started(lay, n, kind, mem);
            && |k.pid| == |k.sem| == n && k.pid[k.current] == 1 && Legal(k, Terminate(1, -1))
            && Losses.Lost(Step(k, Terminate(1, -1)).0, n - 1) && Step(k, Terminate(1, -1)).1 == Halt
  {
    Losses.NullTargetLosesCaller(lay, n, kind, mem, 1);
  }
}
