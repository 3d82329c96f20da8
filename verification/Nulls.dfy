/** Where terminations of NULL lead. */
module Nulls {
  import opened Seqs
  import opened Trees
  import opened KernelState
  import Machine
  import opened KernelSteps
  import KernelInvariant
  import opened Terminations
  import opened Recurrence
  import opened Runs

  /** The first process has a child, which runs and has PID 2; the first process is ready. */
  ghost predicate ChildRuns(k: K, n: nat) {
    && Inv(k) && n > 1 && |k.sem| == n && k.current == n - 2 && k.ready == [n - 1] && k.free == Descending(n - 2)
    && (forall x :: 0 <= x < n ==> k.sem[x] == 0) && k.pid[n - 1] == 1
    && k.tree.kids[n - 1] == [n - 2] && k.tree.kids[n - 2] == [] && k.procs == 2 && k.soft == 0
  }

  lemma StartsEmpty(lay: Layout, n: nat, kind: seq<int>, mem: map<int, nat>)
    requires n > 1 && lay.WellPlaced() && KernelInvariant.KernelMemory(lay, mem)
    ensures var s := Started(lay, n, kind, mem);
            && |s.sem| == |s.pid| == |s.tree.kids| == n && s.lay == lay && s.procs == 1 && s.soft == 0
            && s.free != [] && s.free[1..] == Descending(n - 2)
            && (forall x :: 0 <= x < n ==> s.sem[x] == 0 && s.tree.kids[x] == [])
  {
    assert Descending(n - 1) == [n - 2] + Descending(n - 2);
  }

  lemma ChildComesToRun(lay: Layout, n: nat, kind: seq<int>, mem: map<int, nat>)
    requires n > 1 && lay.WellPlaced() && KernelInvariant.KernelMemory(lay, mem)
    ensures var es := [Create(-1), Interrupt(true, false, [])];
            var s := Started(lay, n, kind, mem);
            LegalRun(s, es) && ChildRuns(Run(s, es), n) && Run(s, es).lay == lay
  {
    var s := Started(lay, n, kind, mem);
    var a, b := Create(-1), Interrupt(true, false, []);
    StartsAlone(lay, n, kind, mem);
    StartsEmpty(lay, n, kind, mem);
    hide Started, Inv, Legal, Step, LegalRun, Run;
    MayCreate(s, n - 1, n - 2);
    Creates(s, n - 1, n - 2, -1);
    var k := Step(s, a).0;
    Preempts(k, n - 1, n - 2);
    OneStep(s, a);
    OneStep(k, b);
    RunAppend(s, [a], [b]);
    assert [a] + [b] == [a, b];
  }

  /** The child names itself and is lost, and its parent runs again. */
  lemma ChildNamesItself(k: K, n: nat)
    requires ChildRuns(k, n)
    ensures Legal(k, Terminate(2, -1)) && Inv(Step(k, Terminate(2, -1)).0)
    ensures Step(k, Terminate(2, -1)).0 == Nulled(k).(current := n - 1, ready := [])
  {
    KernelInvariant.StepKeepsInv(k, Terminate(2, -1));
  }

  lemma PostPair(t: Tree, p: nat, c: nat)
    requires Forest(t) && p < |t.kids| && t.kids[p] == [c] && c < |t.kids| && t.kids[c] == []
    ensures Post(t, p) == [c, p]
  {
    assert c in t.kids[p];
    assert Post(t, c) == [c];
    assert PostAll(t, t.kids[p], t.birth[p]) == Post(t, c) + PostAll(t, t.kids[p][1..], t.birth[p]);
  }

  /** Nobody is left when `p` has terminated itself, and the kernel does not halt: it panics, or it waits for
      an interrupt if NULL reads as soft-blocked. */
  ghost predicate EndsWithoutHalt(k: K, p: nat)
    requires Inv(k)
  {
    && Legal(k, Terminate(0, p))
    && var (r, o) := Step(k, Terminate(0, p));
       && (forall x: nat :: x < |k.sem| ==> x in r.free)
       && o == if k.lay.Soft(k.lay.nullSem) then Wait else Deadlock
  }

  lemma NobodyLeftToWaitFor(k: K, n: nat)
    requires ChildRuns(k, n) && Inv(Nulled(k).(current := n - 1, ready := []))
    ensures EndsWithoutHalt(Nulled(k).(current := n - 1, ready := []), n - 1)
  {
    var m := Nulled(k).(current := n - 1, ready := []);
    assert SoftSet(m) == {};
    LastStep(m, n - 1, n - 2);
  }

  lemma LastStep(k: K, p: nat, c: nat)
    requires Inv(k) && k.current == p == c + 1 && |k.sem| == c + 2 && k.ready == [] && k.free == Descending(c)
    requires |k.tree.kids| == |k.sem| && k.tree.kids[p] == [c] && k.tree.kids[c] == []
    requires SoftSet(k) == {} && k.procs == 1 && k.soft == if k.lay.Soft(k.lay.nullSem) then -1 else 0
    ensures EndsWithoutHalt(k, p)
  {
    assert Core(k);
    hide Inv, Core, Forest, Step, Legal, SoftSet, Descending;
    CoreParts(k);
    PostPair(k.tree, p, c);
    PairStep(k, p, c);
    PairKilled(k, p, c);
    AllFree(c);
    hide Killed;
    assert -1 % Machine.WORD == Machine.WORD - 1;
  }

  lemma AllFree(c: nat)
    ensures var f := [c + 1, c] + Descending(c); forall x: nat :: x < c + 2 ==> x in f
  {
    DescendingElems(c);
  }

  lemma PairStep(k: K, p: nat, c: nat)
    requires Inv(k) && k.current == p && Post(k.tree, p) == [c, p]
    ensures Legal(k, Terminate(0, p)) && Step(k, Terminate(0, p)) == Scheduled(Killed(k, [c, p]))
  {
  }

  lemma PairKilled(k: K, p: nat, c: nat)
    requires Forest(k.tree) && k.ready == [] && SoftSet(k) == {}
    ensures var r := Killed(k, [c, p]);
            r.free == [p, c] + k.free && r.ready == [] && r.procs == k.procs - 2 && r.soft == k.soft && r.lay == k.lay
  {
    assert Reverse([c, p]) == [p, c];
  }

  /** A child names itself, and then the first process terminates itself and with it everybody. */
  lemma NobodyLeft(lay: Layout, n: nat, kind: seq<int>, mem: map<int, nat>)
    requires n > 1 && lay.WellPlaced() && KernelInvariant.KernelMemory(lay, mem)
    ensures var es := [Create(-1), Interrupt(true, false, [])] + [Terminate(2, -1)];
            var s := Started(lay, n, kind, mem);
            LegalRun(s, es) && EndsWithoutHalt(Run(s, es), n - 1)
  {
    var s := Started(lay, n, kind, mem);
    ChildComesToRun(lay, n, kind, mem);
    hide Started, Inv, Legal, Step, LegalRun, Run, ChildRuns, EndsWithoutHalt, Nulled;
    var es, e := [Create(-1), Interrupt(true, false, [])], Terminate(2, -1);
    var k := Run(s, es);
    ChildNamesItself(k, n);
    NobodyLeftToWaitFor(k, n);
    OneStep(k, e);
    RunAppend(s, es, [e]);
  }
}
