/** Which namespace a new process is in. */
module Creations {
  import Trees
  import opened KernelState
  import opened KernelSteps
  import KernelInvariant
  import Machine
  import KernelFacts
  import opened Namespaces
  import opened Recurrence
  import opened Runs
  import Subtrees

  /** The PID namespace that getNamespace finds for a process, -1 for none. */
  ghost function SpaceOf(k: K, p: nat): int
    requires SpacesOk(k.spaces) && p < |k.spaces.slots|
  {
    Space(k.spaces, p, NS_PID, 0, k.lay.nullWord)
  }

  /** The namespace requested, else that of the creator, and if it has none, the one that the PCB was left
      in by the process that had it before. */
  ghost function GivenSpace(k: K, nsd: int): int
    requires Inv(k) && Legal(k, Create(nsd)) && k.free != [] && k.free[0] < |k.sem|
  {
    if nsd != -1 then nsd else if SpaceOf(k, k.current) != -1 then SpaceOf(k, k.current) else SpaceOf(k, k.free[0])
  }

  /** The new process is in that namespace, and all others are where they were. */
  ghost predicate Placed(k: K, nsd: int, r: K)
    requires Inv(k) && Legal(k, Create(nsd)) && k.free != [] && k.free[0] < |k.sem|
  {
    && SpacesOk(r.spaces) && |r.spaces.slots| == |k.sem|
    && SpaceOf(r, k.free[0]) == GivenSpace(k, nsd)
    && forall q: nat :: q < |k.sem| && q != k.free[0] ==> SpaceOf(r, q) == SpaceOf(k, q)
  }

  /** The new process has no descendants. */
  lemma ChildIsAlone(k: K)
    requires Inv(k) && k.current != -1 && k.free != []
    ensures k.free[0] < |k.sem| == |Spawned(k).tree.kids|
    ensures forall q: nat :: q < |k.sem| ==> (Trees.Within(Spawned(k).tree, q, k.free[0]) <==> q == k.free[0])
  {
    var t, p := Spawned(k).tree, k.free[0];
    assert p in k.free && t.kids[p] == [];
    forall q: nat | q < |k.sem| && q != p
      ensures !Trees.Within(t, q, p)
    {
      if Trees.Within(t, q, p) {
        Trees.WithinChild(t, q, p);
      }
    }
  }

  lemma CreationSpaces(k: K, nsd: int)
    requires Inv(k) && Legal(k, Create(nsd)) && k.free != []
    ensures k.free[0] < |k.sem| && Placed(k, nsd, Created(k, nsd).0)
  {
    ChildIsAlone(k);
    var t, p := Spawned(k).tree, k.free[0];
    var d := if nsd != -1 then nsd else SpaceOf(k, k.current);
    SpaceKind(k.spaces, k.current, NS_PID, 0, k.lay.nullWord);
    var r := Created(k, nsd).0;
    if d != -1 {
      assert k.spaces.kind[d] == NS_PID;
      assert r.spaces == SpaceAdded(k.spaces, t, p, d);
      forall q: nat | q < |k.sem|
        ensures SpaceOf(r, q) == if q == p then d else SpaceOf(k, q)
      {
        Subtrees.NamespaceFound(k.spaces, t, p, d, q, NS_PID, k.lay.nullWord);
      }
    } else {
      assert r.spaces == k.spaces;
    }
  }

  /** So its creator has it among its children, as getChildren counts them, exactly when it asked for its
      own namespace, or inherits one, or neither its creator nor its PCB has one. */
  lemma ChildIsListed(k: K, nsd: int)
    requires Inv(k) && Legal(k, Create(nsd)) && k.free != []
    ensures var r := Created(k, nsd).0;
            var own := SpaceOf(k, k.current);
            && Inv(r) && r.current == k.current && k.free[0] < |k.sem| && r.tree.parent[k.free[0]] == k.current
            && (k.free[0] in KernelFacts.ChildrenOf(r)
                <==> if nsd != -1 then nsd == own else own != -1 || SpaceOf(k, k.free[0]) == -1)
  {
    KernelInvariant.CreateKeepsInv(k, nsd);
    CreationSpaces(k, nsd);
    var r := Created(k, nsd).0;
    assert k.free[0] in k.free && k.free[0] in r.tree.kids[k.current];
  }

  lemma StartsBare(lay: Layout, n: nat, kind: seq<int>, mem: map<int, nat>, p: nat)
    requires n > 0 && lay.WellPlaced() && KernelInvariant.KernelMemory(lay, mem) && p < n
    ensures SpaceOf(Started(lay, n, kind, mem), p) == -1
  {
    var k := Started(lay, n, kind, mem);
    assert k.spaces.slots[p] == [-1];
    assert Space(k.spaces, p, NS_PID, 1, lay.nullWord) == -1;
  }

  /** The last process of the run is the child of a process in no namespace, and is itself in one. */
  ghost predicate Astray(k: K, p: nat, c: nat, d: nat)
    requires Inv(k)
  {
    && k.current == p && p < |k.sem| && c < |k.sem| && k.tree.parent[c] == p
    && SpaceOf(k, p) == -1 && SpaceOf(k, c) == d && c !in KernelFacts.ChildrenOf(k)
  }

  lemma InheritsNothing(k: K, p: nat, c: nat, d: nat)
    requires Alone(k, p, c) && SpaceOf(k, p) == -1 && SpaceOf(k, c) == d
    ensures Legal(k, Create(-1)) && Inv(Step(k, Create(-1)).0) && Astray(Step(k, Create(-1)).0, p, c, d)
  {
    ChildIsListed(k, -1);
    CreationSpaces(k, -1);
  }

  lemma LeavesBehind(lay: Layout, n: nat, kind: seq<int>, mem: map<int, nat>, d: nat)
    requires n > 1 && lay.WellPlaced() && KernelInvariant.KernelMemory(lay, mem) && d < |kind| && kind[d] == NS_PID
    ensures LegalRun(Started(lay, n, kind, mem), Round(n - 2, d))
    ensures var r := Run(Started(lay, n, kind, mem), Round(n - 2, d));
            Alone(r, n - 1, n - 2) && SpaceOf(r, n - 1) == -1 && SpaceOf(r, n - 2) == d
  {
    var k := Started(lay, n, kind, mem);
    StartsAlone(lay, n, kind, mem);
    StartsBare(lay, n, kind, mem, n - 1);
    assert Legal(k, Create(d));
    hide Legal, Spawned, SpacesGiven, Run, Step, LegalRun, Started;
    CreationSpaces(k, d);
    OneRound(k, n - 1, n - 2, d);
    SizeKept(k, Round(n - 2, d));
    assert Created(k, d).0.spaces == SpacesGiven(Spawned(k), n - 2, d);
  }

  /** A namespace outlives the process it was requested for: the first process, which is in none, has a
      child that it requested none for, in the namespace of an earlier child, and does not see it. */
  lemma StaleNamespace(lay: Layout, n: nat, kind: seq<int>, mem: map<int, nat>, d: nat)
    requires n > 1 && lay.WellPlaced() && KernelInvariant.KernelMemory(lay, mem) && d < |kind| && kind[d] == NS_PID
    ensures LegalRun(Started(lay, n, kind, mem), Round(n - 2, d) + [Create(-1)])
    ensures Astray(Run(Started(lay, n, kind, mem), Round(n - 2, d) + [Create(-1)]), n - 1, n - 2, d)
  {
    hide Astray, Started, Round, Inv, Legal, Step;
    var k := Started(lay, n, kind, mem);
    LeavesBehind(lay, n, kind, mem, d);
    var r := Run(k, Round(n - 2, d));
    InheritsNothing(r, n - 1, n - 2, d);
    OneStep(r, Create(-1));
    RunAppend(k, Round(n - 2, d), [Create(-1)]);
  }

  /** The result of CREATEPROCESS is a C int: it reads -1, which means failure, when the table is full, and
      also when the new process has the largest PID. */
  lemma CreateReadsFailed(k: K, nsd: int)
    requires Inv(k) && Legal(k, Create(nsd)) && k.nextPid < Machine.WORD
    ensures Created(k, nsd).1 == -1 <==> k.free == [] || k.nextPid == Machine.WORD - 1
    ensures k.free != [] ==> Created(k, nsd).1 % Machine.WORD == k.nextPid
  {
  }

  /** Creating a process succeeds and reads failed. */
  ghost predicate ReadsFailed(k: K, p: nat, c: nat)
    requires Inv(k)
  {
    && Legal(k, Create(-1)) && Created(k, -1).1 == -1 && k.current == p < |k.sem|
    && c in k.free && c !in Created(k, -1).0.free && c in Created(k, -1).0.tree.kids[p]
  }

  lemma AloneReadsFailed(k: K, p: nat, c: nat)
    requires Alone(k, p, c) && k.nextPid == Machine.WORD - 1
    ensures ReadsFailed(k, p, c)
  {
    MayCreate(k, p, c);
    CreateReadsFailed(k, -1);
    Creates(k, p, c, -1);
  }

  /** A run after which the first process gets that result for a child that is live. */
  lemma ChildReadsFailed(lay: Layout, n: nat, kind: seq<int>, mem: map<int, nat>, t: nat)
    requires n > 1 && lay.WellPlaced() && KernelInvariant.KernelMemory(lay, mem) && t == Machine.WORD - 3
    ensures LegalRun(Started(lay, n, kind, mem), Rounds(n - 2, t))
    ensures ReadsFailed(Run(Started(lay, n, kind, mem), Rounds(n - 2, t)), n - 1, n - 2)
  {
    hide Rounds, Run, LegalRun, Started, ReadsFailed, Inv;
    var s := Started(lay, n, kind, mem);
    StartsAlone(lay, n, kind, mem);
    ManyRounds(s, n - 1, n - 2, t);
    AloneReadsFailed(Run(s, Rounds(n - 2, t)), n - 1, n - 2);
  }
}
