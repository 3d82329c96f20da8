/** Rounds of a process that creates a child and loses its time slice, upon which the child terminates
    itself: they lead back to where they began, but for the PID counter and the namespaces. */
module Recurrence {
  import opened Seqs
  import Trees
  import opened KernelState
  import opened KernelSteps
  import KernelInvariant
  import KernelFacts
  import Terminations
  import Machine
  import opened Runs

  function Round(c: nat, nsd: int): seq<Event> {
    [Create(nsd), Interrupt(true, false, []), Terminate(0, c)]
  }

  /** Process `p` runs, nobody else is ready, and `c` is the next PCB to be used. */
  ghost predicate Alone(k: K, p: nat, c: nat) {
    Inv(k) && k.current == p && k.ready == [] && k.free != [] && k.free[0] == c && p < |k.pid| && c < |k.pid| && p != c
  }

  /** The child is ready. */
  lemma Creates(k: K, p: nat, c: nat, nsd: int)
    requires Alone(k, p, c) && Legal(k, Create(nsd))
    ensures var r := Step(k, Create(nsd)).0;
            && Inv(r) && r.current == p && r.ready == [c] && r.free == k.free[1..] && c < |r.sem| == |r.tree.kids|
            && r.tree.kids[c] == [] && c !in r.free
            && r.pid == k.pid[c := k.nextPid] && r.nextPid == (k.nextPid + 1) % Machine.WORD
            && r.spaces == SpacesGiven(Spawned(k), c, nsd) && r.tree == Spawned(k).tree && r.sem == k.sem
            && r.procs == k.procs + 1 && r.soft == k.soft && r.lay == k.lay
  {
    KernelInvariant.StepKeepsInv(k, Create(nsd));
    KernelFacts.SpawnReady(k);
    Terminations.CoreParts(k);
    hide Core, CurrentApart, Devices, SpacesOk, SpacesGiven;
    assert Minus([], {c}) == [];
  }

  /** The child runs, and its creator waits. */
  lemma Preempts(k: K, p: nat, c: nat)
    requires Inv(k) && k.current == p && k.ready == [c] && p != c
    ensures var e := Interrupt(true, false, []);
            Legal(k, e) && Inv(Step(k, e).0) && Step(k, e).0 == k.(current := c, ready := [p])
  {
    var e := Interrupt(true, false, []);
    KernelInvariant.StepKeepsInv(k, e);
    InterruptOk(k, true, false);
    MinusNone([c], {p});
    assert [c] + [p] == [c, p] && [c, p][1..] == [p];
  }

  /** The child is gone, and its creator runs again. */
  lemma Leaves(k: K, p: nat, c: nat)
    requires Inv(k) && k.current == c && k.ready == [p] && p != c && c < |k.sem| && k.tree.kids[c] == []
    ensures var e := Terminate(0, c);
            var r := Step(k, e).0;
            && Legal(k, e) && Inv(r) && r.current == p && r.ready == [] && r.free == [c] + k.free
            && r.pid == k.pid && r.nextPid == k.nextPid && r.spaces == k.spaces
  {
    KernelInvariant.StepKeepsInv(k, Terminate(0, c));
    assert Trees.Post(k.tree, c) == [c] && Reverse([c]) == [c];
    MinusNone([p], Elems([c]));
  }

  lemma OneRound(k: K, p: nat, c: nat, nsd: int)
    requires Alone(k, p, c) && Legal(k, Create(nsd))
    ensures LegalRun(k, Round(c, nsd))
    ensures var r := Run(k, Round(c, nsd));
            && Alone(r, p, c) && r.pid == k.pid[c := k.nextPid] && r.nextPid == (k.nextPid + 1) % Machine.WORD
            && r.spaces == SpacesGiven(Spawned(k), c, nsd)
  {
    hide Inv, Legal, Step, Run, LegalRun, SpacesGiven, Spawned;
    var a, b, d := Create(nsd), Interrupt(true, false, []), Terminate(0, c);
    Creates(k, p, c, nsd);
    var k1 := Step(k, a).0;
    Preempts(k1, p, c);
    var k2 := Step(k1, b).0;
    Leaves(k2, p, c);
    assert k.free == [c] + k.free[1..];
    OneStep(k, a);
    OneStep(k1, b);
    OneStep(k2, d);
    RunAppend(k1, [b], [d]);
    RunAppend(k, [a], [b] + [d]);
    assert [a] + ([b] + [d]) == Round(c, nsd);
  }

  lemma MayCreate(k: K, p: nat, c: nat)
    requires Alone(k, p, c)
    ensures Legal(k, Create(-1))
  {
  }

  function Rounds(c: nat, t: nat): seq<Event> {
    if t == 0 then [] else Round(c, -1) + Rounds(c, t - 1)
  }

  lemma {:induction false} ManyRounds(k: K, p: nat, c: nat, t: nat)
    requires Alone(k, p, c) && k.nextPid < Machine.WORD
    ensures LegalRun(k, Rounds(c, t))
    ensures var r := Run(k, Rounds(c, t));
            Alone(r, p, c) && r.pid[p] == k.pid[p] && r.nextPid == (k.nextPid + t) % Machine.WORD
    decreases t
  {
    hide Inv, Legal, Step, Round, SpacesGiven, Spawned;
    if t > 0 {
      MayCreate(k, p, c);
      OneRound(k, p, c, -1);
      var r := Run(k, Round(c, -1));
      ManyRounds(r, p, c, t - 1);
      RunAppend(k, Round(c, -1), Rounds(c, t - 1));
    }
  }

  lemma StartsAlone(lay: Layout, n: nat, kind: seq<int>, mem: map<int, nat>)
    requires n > 1 && lay.WellPlaced() && KernelInvariant.KernelMemory(lay, mem)
    ensures var k := Started(lay, n, kind, mem); Alone(k, n - 1, n - 2) && k.pid[n - 1] == 1 && k.nextPid == 2
  {
    assert Descending(n - 1)[0] == n - 2;
  }

  /** After `t` rounds the first process, whose PID is 1, creates a child that stays. */
  lemma ChildAfterRounds(lay: Layout, n: nat, kind: seq<int>, mem: map<int, nat>, t: nat)
    requires n > 1 && lay.WellPlaced() && KernelInvariant.KernelMemory(lay, mem)
    ensures LegalRun(Started(lay, n, kind, mem), Rounds(n - 2, t) + [Create(-1)])
    ensures var k := Run(Started(lay, n, kind, mem), Rounds(n - 2, t) + [Create(-1)]);
            && |k.pid| == |k.sem| == n && n - 1 !in k.free && n - 2 !in k.free
            && k.pid[n - 1] == 1 && k.pid[n - 2] == (2 + t) % Machine.WORD
  {
    var k := Started(lay, n, kind, mem);
    StartsAlone(lay, n, kind, mem);
    ManyRounds(k, n - 1, n - 2, t);
    var r := Run(k, Rounds(n - 2, t));
    Creates(r, n - 1, n - 2, -1);
    OneStep(r, Create(-1));
    RunAppend(k, Rounds(n - 2, t), [Create(-1)]);
    SizeKept(k, Rounds(n - 2, t) + [Create(-1)]);
  }
}
