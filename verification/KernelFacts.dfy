/** What the handlers of the kernel rely on from one statement to the next. */
module KernelFacts {
  import opened Seqs
  import opened Trees
  import opened DeviceRegisters
  import opened KernelState
  import Machine
  import opened KernelSteps
  import opened KernelInvariant
  import Terminations
  import Namespaces

  function InterruptEvent(c: Pending): Event
    requires c.Ok()
  {
    Event.Interrupt(c.slice && c.te, c.tick, ServedIndices(c))
  }

  /** The children of the running process that share its PID namespace. */
  ghost function ChildrenOf(k: K): (l: seq<nat>)
    requires Inv(k) && k.current != -1
    ensures forall i :: 0 <= i < |l| ==> l[i] < |k.pid|
  {
    Namespaces.KidsAreEntries(k.tree, k.current);
    Namespaces.SpaceKids(k.spaces, k.tree, k.current, k.lay.nullWord)
  }

  /** A running process is in no queue, and no semaphore is at address 0. */
  lemma CallerApart(k: K)
    requires Inv(k) && k.current != -1
    ensures 0 <= k.current < |k.sem| && k.sem[k.current] == 0 && k.current !in k.free && k.current !in k.ready
    ensures 0 !in k.mem && k.lay.clock in k.mem
            && forall i {:trigger k.lay.DevSem(i)} :: 0 <= i < SEM_NUM ==> k.lay.DevSem(i) in k.mem
  {
  }

  lemma HeadsFull(k: K)
    requires Core(k)
    ensures forall a :: a in k.blocked ==> k.blocked[a] != [] && k.blocked[a][0] < |k.sem| && a != 0
  {
    HeadsOk(k);
  }

  lemma ServedOne(k: K, i: nat)
    requires Core(k) && i < SEM_NUM
    ensures var a := k.lay.DevSem(i);
            (a in k.blocked ==> k.blocked[a] != [] && k.blocked[a][0] < |k.sem|)
            && Served(k, [i]) == Signalled(k, a) && Core(Signalled(k, a))
            && (CurrentApart(k) ==> CurrentApart(Signalled(k, a)))
  {
    HeadsOk(k);
    CoreSignalled(k, k.lay.DevSem(i));
    assert [i][1..] == [];
  }

  /** Waking one process that waits for the clock leaves the rest of the tick to do. */
  lemma TickOne(k: K)
    requires Core(k) && CurrentApart(k) && k.lay.clock in k.blocked
    ensures k.blocked[k.lay.clock] != [] && k.blocked[k.lay.clock][0] < |k.sem|
    ensures var r := Woken(k, k.lay.clock).(soft := k.soft - 1);
            Core(r) && CurrentApart(r) && Ticked(r) == Ticked(k) && r.lay == k.lay
            && |Queue(r.blocked, k.lay.clock)| < |Queue(k.blocked, k.lay.clock)|
  {
    var c := k.lay.clock;
    HeadsOk(k);
    CoreWoken(k, c);
    WokenIsUnblocked(k, c);
    Terminations.CoreParts(k);
    hide Core, CurrentApart;
    var q := k.blocked[c];
    TickedReady(k.ready, q);
    TickedSem(k.sem, q);
    var r := Woken(k, c).(soft := k.soft - 1);
    assert Queue(r.blocked, c) == q[1..];
    assert r.blocked - {c} == k.blocked - {c};
  }

  lemma TickedReady(ready: seq<nat>, q: seq<nat>)
    requires NoDup(q) && q != []
    ensures Minus(Minus(ready, {q[0]}) + [q[0]], Elems(q[1..])) + q[1..] == Minus(ready, Elems(q)) + q
  {
    var p, rest := q[0], q[1..];
    var d := Elems(rest);
    RestOf(q);
    assert q == [p] + rest;
    assert Elems(q) == {p} + d;
    assert forall x :: x in [p] ==> x !in d;
    hide Minus, Elems, NoDup;
    var without := Minus(ready, {p});
    MinusAppend(without, [p], d);
    MinusNone([p], d);
    MinusMinus(ready, {p}, d);
    var left := Minus(ready, Elems(q));
    assert Minus(without + [p], d) == left + [p];
    Regrouped(left, p, rest);
  }

  lemma Regrouped(s: seq<nat>, p: nat, t: seq<nat>)
    ensures s + [p] + t == s + ([p] + t)
  {
  }

  lemma TickedSem(sem: seq<int>, q: seq<nat>)
    requires q != [] && q[0] < |sem|
    ensures Released(sem[q[0] := 0], Elems(q[1..])) == Released(sem, Elems(q))
  {
    assert q == [q[0]] + q[1..] && Elems(q) == {q[0]} + Elems(q[1..]);
  }

  lemma TickNone(k: K)
    requires Core(k) && k.lay.clock !in k.blocked
    ensures Ticked(k) == k.(mem := k.mem[k.lay.clock := 0])
  {
    assert Elems([]) == {};
    MinusNone(k.ready, {});
    assert Released(k.sem, {}) == k.sem;
  }

  lemma ListedLive(k: K, p: int, pid: nat)
    requires Core(k) && CurrentApart(k) && k.current != -1
    requires if pid == 0 then p == k.current else Listed(k, p, pid)
    ensures 0 <= p < |k.sem| && p !in k.free
  {
  }

  lemma {:induction false} ServedAppend(k: K, a: seq<nat>, b: seq<nat>)
    requires Core(k) && (forall i :: i in a ==> i < SEM_NUM) && (forall i :: i in b ==> i < SEM_NUM)
    ensures forall i :: i in a + b ==> i < SEM_NUM
    ensures Served(k, a + b) == Served(Served(k, a), b)
    decreases |a|
  {
    if a == [] {
      assert a + b == b;
    } else {
      assert a[0] in a && (forall i :: i in a[1..] ==> i in a) && (a + b)[1..] == a[1..] + b;
      HeadsOk(k);
      CoreSignalled(k, k.lay.DevSem(a[0]));
      ServedAppend(Signalled(k, k.lay.DevSem(a[0])), a[1..], b);
    }
  }

  /** Serving the transmitter and then the receiver is serving the terminal. */
  lemma TerminalParts(k: K, c: Pending)
    requires Core(k) && c.Ok()
    ensures var i := 32 + Top(c.bitmap[4]) * 2;
            && i + 1 < SEM_NUM
            && var k1 := if c.lines[4] && c.transmitted then Served(k, [i + 1]) else k;
               Served(k, TerminalIndices(c)) == if c.lines[4] && c.received then Served(k1, [i]) else k1
  {
    hide Core, Served;
    TopOfByte(c.bitmap[4]);
    var i := 32 + Top(c.bitmap[4]) * 2;
    var t := if c.lines[4] && c.transmitted then [i + 1] else [];
    var r := if c.lines[4] && c.received then [i] else [];
    assert TerminalIndices(c) == t + r;
    ServedAppend(k, t, r);
    ServedNothing(k);
    ServedNothing(Served(k, t));
  }

  lemma ServedNothing(k: K)
    requires Core(k)
    ensures Served(k, []) == k
  {
  }

  /** Serving line after line is serving all the units in turn. */
  lemma ServedAll(k: K, c: Pending)
    requires Core(k) && c.Ok()
    ensures Served(Served(Served(Served(Served(k, LineIndices(c, 0)), LineIndices(c, 1)), LineIndices(c, 2)),
                          LineIndices(c, 3)), TerminalIndices(c)) == Served(k, ServedIndices(c))
  {
    hide Core, LineIndices, TerminalIndices, Served;
    var l0, l1, l2, l3 := LineIndices(c, 0), LineIndices(c, 1), LineIndices(c, 2), LineIndices(c, 3);
    ServedAppend(k, l0, l1);
    ServedAppend(k, l0 + l1, l2);
    ServedAppend(k, l0 + l1 + l2, l3);
    ServedAppend(k, l0 + l1 + l2 + l3, TerminalIndices(c));
  }

  lemma InterruptParts(k: K, c: Pending)
    requires Inv(k) && c.Ok() && (c.slice && c.te ==> k.current != -1)
    ensures Core(k) && CurrentApart(k)
    ensures Legal(k, InterruptEvent(c)) && Inv(Step(k, InterruptEvent(c)).0)
    ensures var timer := c.slice && c.te;
            var k1 := if timer then Enqueued(k, k.current) else k;
            Core(k1) && CurrentApart(k1) && Core(Ticked(k1)) && CurrentApart(Ticked(k1))
            && (var r := Served(if c.tick then Ticked(k1) else k1, ServedIndices(c));
                r.current >= -1 &&
                Step(k, InterruptEvent(c)) == if r.current == -1 then Scheduled(r) else (r, Resume(r.current)))
            && (timer ==> 0 <= k.current < |k.sem| && k.current !in k.free && k.sem[k.current] == 0)
  {
    InterruptOk(k, c.slice && c.te, c.tick);
    assert forall i :: i in ServedIndices(c) ==> i < SEM_NUM;
    StepKeepsInv(k, InterruptEvent(c));
  }

  /** Making the process at the tail of the ready queue ready again changes nothing. */
  lemma AlreadyReady(k: K, a: int)
    requires Core(k) && a in k.blocked
    ensures k.blocked[a] != [] && k.blocked[a][0] < |k.sem|
    ensures var p := k.blocked[a][0];
            var r := Signalled(k, a);
            p < |r.sem| && p !in r.free && r.sem[p] == 0 && Enqueued(r, p) == r
  {
    WokenIsUnblocked(k, a);
    var p := k.blocked[a][0];
    MinusAppend(Minus(k.ready, {p}), [p], {p});
    MinusMinus(k.ready, {p}, {p});
    assert {p} + {p} == {p};
  }

  lemma ColdMemory(lay: Layout, n: nat, mem: map<int, nat>, m: map<int, nat>)
    ensures Cold(lay, n, Fill(n, 0), mem).(mem := m) == Cold(lay, n, Fill(n, 0), m)
    ensures Cold(lay, n, Fill(n, 0), mem).lay == lay && Cold(lay, n, Fill(n, 0), mem).mem == mem
  {
  }

  /** The first free PCB, live, ready and with the next PID, but under no other process. */
  ghost function WithFirst(k: K): K
    requires Core(k) && k.free != []
  {
    var p := k.free[0];
    FreeHeadOk(k);
    var r := Enqueued(k.(free := k.free[1..], tree := Born(k.tree, p)), p);
    r.(procs := r.procs + 1, nextPid := (r.nextPid + 1) % Machine.WORD, pid := r.pid[p := r.nextPid])
  }

  lemma FreeHeadOk(k: K)
    requires Core(k) && k.free != []
    ensures var p := k.free[0];
            p < |k.sem| == |k.tree.kids| == |k.pid| && k.sem[p] == 0 && k.tree.parent[p] == -1 && k.tree.kids[p] == []
            && Forest(k.tree)
  {
    assert k.free[0] in k.free;
  }

  lemma ColdFirst(lay: Layout, n: nat, m: map<int, nat>)
    requires n > 0 && lay.WellPlaced()
    ensures var k := Cold(lay, n, Fill(n, 0), m);
            Core(k) && k.free != [] && k.free[0] !in k.free[1..] && WithFirst(k) == Booted(lay, n, Fill(n, 0), m)
  {
    ColdCore(lay, n, Fill(n, 0), m);
    FreeHeadOk(Cold(lay, n, Fill(n, 0), m));
    hide Core, Forest;
    assert Descending(n) == [n - 1] + Descending(n - 1);
    assert Descending(n)[0] == n - 1 && Descending(n)[1..] == Descending(n - 1);
    assert Minus([], {n - 1}) + [n - 1] == [n - 1];
    hide Fill, Descending, Minus;
    var k := Cold(lay, n, Fill(n, 0), m);
    assert Born(k.tree, n - 1) == Tree(k.tree.kids, k.tree.parent, k.tree.birth[n - 1 := 1], 2);
    var r, b := WithFirst(k), Booted(lay, n, Fill(n, 0), m);
    assert r.free == b.free;
    assert r.ready == b.ready;
    assert r.sem == b.sem;
    assert r.tree == b.tree;
    assert r.pid == b.pid;
    assert r.nextPid == b.nextPid;
    assert r.spaces == b.spaces;
  }

  lemma FreeOk(k: K)
    requires Core(k)
    ensures Forest(k.tree) && |k.tree.kids| == |k.sem|
            && forall x :: x in k.free ==> x < |k.sem| && k.tree.kids[x] == []
  {
  }

  lemma SpawnReady(k: K)
    requires Core(k) && CurrentApart(k) && k.current != -1
    ensures Forest(k.tree) && 0 <= k.current < |k.sem|
    ensures k.free != [] ==> var p := k.free[0];
              p < |k.sem| && p != k.current && p !in k.free[1..] && k.sem[p] == 0 && k.current !in k.free[1..]
              && k.tree.parent[p] == -1 && k.tree.kids[p] == []
              && Born(k.tree, p).birth[k.current] < Born(k.tree, p).birth[p]
              && |k.tree.kids| == |k.sem| == |k.pid| == |k.spaces.slots|
  {
    if k.free != [] {
      assert k.free[0] in k.free && k.free == [k.free[0]] + k.free[1..];
    }
  }

  /** Put right for the terminations of NULL, the two counters stay within the table; so without any the
      unsigned words that hold them never wrap. */
  lemma CountersInRange(k: K)
    requires Core(k)
    ensures 0 <= k.procs + k.nulls <= |k.sem| && 0 <= k.soft + SoftNulls(k) <= k.procs + k.nulls
  {
    ElemsSize(k.free);
    SubsetSize(Elems(k.free), Below(|k.sem|));
    assert SoftSet(k) <= Below(|k.sem|) - Elems(k.free);
    SubsetSize(SoftSet(k), Below(|k.sem|) - Elems(k.free));
  }

  /** The new process is live, and so is everything in its subtree, which is itself alone. */
  lemma SpawnedLive(k: K)
    requires Inv(k) && k.current != -1 && k.free != []
    ensures var r := Spawned(k);
            var p := k.free[0];
            (forall x :: x in Post(r.tree, p) ==> x !in r.free) && |r.pid| == |r.sem| && r.pid[p] == k.nextPid
            && |r.tree.kids| == |r.sem| == |r.spaces.slots| && p < |r.sem| && 0 <= r.current < |r.sem|
  {
    SpawnReady(k);
    CoreSpawned(k);
    DeadIsSubtree(Spawned(k), k.free[0]);
  }

  lemma SpaceOfType(s: Spaces, p: nat, t: int, nullWord: int)
    requires SpacesOk(s) && p < |s.slots|
    ensures var d := Space(s, p, t, 0, nullWord); d == -1 || (0 <= d < |s.kind| && s.kind[d] == t)
  {
    SpaceKind(s, p, t, 0, nullWord);
  }
}
