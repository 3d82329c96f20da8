/** The exceptions that enter the kernel, as steps from one state to the next. */
module KernelSteps {
  import opened Seqs
  import opened Trees
  import DeviceRegisters
  import opened KernelState
  import Machine

  /** An exception.  `Terminate` carries the requested PID and the PCB that the kernel resolves
      it to, -1 for NULL; `AllocSpace` and `FreeSpace` are calls of allocNamespace and freeNamespace;
      `Query` stands for the requests that change no kernel structure. */
  datatype Event =
    | Create(nsd: int)
    | Terminate(pid: nat, target: int)
    | Passeren(sem: int)
    | Verhogen(sem: int)
    | DoIo(dev: nat, installed: bool)
    | ClockWait
    | AllocSpace(ty: int)
    | FreeSpace(d: nat)
    | Query
    | Interrupt(timer: bool, tick: bool, devs: seq<nat>)

  /** How the kernel leaves: back to the process it was entered from, to another one, waiting,
      halted, or in a panic. */
  datatype Outcome = Resume(p: nat) | Dispatch(p: nat) | Wait | Halt | Deadlock

  /** schedule */
  function Scheduled(k: K): (K, Outcome) {
    var s := k.(current := -1);
    if k.ready == [] then
      (s, if k.procs % Machine.WORD == 0 then Halt else if k.soft % Machine.WORD > 0 then Wait else Deadlock)
    else
      (s.(current := k.ready[0], ready := k.ready[1..]), Dispatch(k.ready[0]))
  }

  /** The descriptor that getNamespace returns for type `t`, scanning from slot `i`.  The C code
      reads the type through a NULL slot too; `nullWord` is the word it then sees. */
  function Space(s: Spaces, p: nat, t: int, i: nat, nullWord: int): int
    requires p < |s.slots| && i <= |s.slots[p]|
    requires forall j :: 0 <= j < |s.slots[p]| ==> -1 <= s.slots[p][j] < |s.kind|
    decreases |s.slots[p]| - i
  {
    if i == |s.slots[p]| then -1
    else
      var d := s.slots[p][i];
      if (if d == -1 then nullWord else s.kind[d]) == t then d
      else Space(s, p, t, i + 1, nullWord)
  }

  /** addNamespace: descriptor `d` fills the slot of its type in the whole subtree of `p`. */
  ghost function SpaceAdded(s: Spaces, t: Tree, p: nat, d: nat): Spaces
    requires Forest(t) && p < |t.kids| == |s.slots| && d < |s.kind|
  {
    s.(slots := seq(|s.slots|, q requires 0 <= q < |s.slots| =>
           if Within(t, q, p) && 0 <= s.kind[d] < |s.slots[q]| then s.slots[q][s.kind[d] := d] else s.slots[q]),
       free := Minus(s.free, {d}),
       used := Minus(s.used, {d}) + [d])
  }

  /** allocNamespace: the first free descriptor leaves the list with its type. */
  function SpaceAllocated(s: Spaces, ty: int): Spaces
    requires SpacesOk(s)
  {
    if s.free == [] then s
    else
      assert s.free[0] in s.free;
      s.(free := s.free[1..], kind := s.kind[s.free[0] := ty])
  }

  /** freeNamespace: the descriptor goes to the tail of the free list; the slots keep it. */
  function SpaceFreed(s: Spaces, d: nat): Spaces {
    s.(free := Minus(s.free, {d}) + [d], used := Minus(s.used, {d}))
  }

  lemma SpacesOkAllocated(s: Spaces, ty: int)
    requires SpacesOk(s)
    ensures SpacesOk(SpaceAllocated(s, ty))
  {
    if s.free != [] {
      RestOf(s.free);
      assert s.free[0] in s.free;
      assert |SpaceAllocated(s, ty).kind| == |s.kind|;
    }
  }

  lemma SpacesOkFreed(s: Spaces, d: nat)
    requires SpacesOk(s) && d < |s.kind|
    ensures SpacesOk(SpaceFreed(s, d))
  {
    MinusNoDup(s.free, {d});
    MinusNoDup(s.used, {d});
    NoDupAppend(Minus(s.free, {d}), [d]);
  }

  /** A process takes over the namespace of type `i` of another, if that has one. */
  ghost function OneInherited(s: Spaces, t: Tree, p: nat, from: nat, i: nat, nullWord: int): (r: Spaces)
    requires Forest(t) && p < |t.kids| == |s.slots| && from < |t.kids| && i < NS_TYPE_MAX
    requires SpacesOk(s)
    ensures SpacesOk(r) && |r.slots| == |s.slots| && r.kind == s.kind
  {
    var d := Space(s, from, i, 0, nullWord);
    SpaceKind(s, from, i, 0, nullWord);
    if d == -1 then s
    else
      SpacesOkAdded(s, t, p, d);
      SpaceAdded(s, t, p, d)
  }

  /** The namespaces of a new process that requests none: those of its creator, type by type. */
  ghost function SpaceInherited(s: Spaces, t: Tree, p: nat, from: nat, i: nat, nullWord: int): (r: Spaces)
    requires Forest(t) && p < |t.kids| == |s.slots| && from < |t.kids| && i <= NS_TYPE_MAX
    requires SpacesOk(s)
    ensures SpacesOk(r) && |r.slots| == |s.slots| && r.kind == s.kind
    decreases NS_TYPE_MAX - i
  {
    if i == NS_TYPE_MAX then s
    else SpaceInherited(OneInherited(s, t, p, from, i, nullWord), t, p, from, i + 1, nullWord)
  }

  lemma {:induction false} SpaceKind(s: Spaces, p: nat, t: int, i: nat, nullWord: int)
    requires p < |s.slots| && i <= |s.slots[p]|
    requires forall j :: 0 <= j < |s.slots[p]| ==> -1 <= s.slots[p][j] < |s.kind|
    ensures var d := Space(s, p, t, i, nullWord); d == -1 || (0 <= d < |s.kind| && s.kind[d] == t)
    decreases |s.slots[p]| - i
  {
    if i < |s.slots[p]| {
      SpaceKind(s, p, t, i + 1, nullWord);
    }
  }

  lemma SpacesOkAdded(s: Spaces, t: Tree, p: nat, d: nat)
    requires Forest(t) && p < |t.kids| == |s.slots| && d < |s.kind| && SpacesOk(s) && 0 <= s.kind[d] < NS_TYPE_MAX
    ensures SpacesOk(SpaceAdded(s, t, p, d))
  {
    MinusNoDup(s.free, {d});
    MinusNoDup(s.used, {d});
    NoDupAppend(Minus(s.used, {d}), [d]);
  }

  /** The first part of createProcess: the first free PCB gets the next PID, goes to the tail of the
      ready queue and becomes the last child of the caller. */
  ghost function Spawned(k: K): (r: K)
    requires Inv(k) && k.current != -1 && k.free != []
    ensures |r.sem| == |k.sem| && r.spaces == k.spaces && r.current == k.current
    ensures Forest(r.tree) && |r.tree.kids| == |k.sem| && k.free[0] < |k.sem|
  {
    var p := k.free[0];
    assert p in k.free;
    k.(free := k.free[1..], ready := Minus(k.ready, {p}) + [p], tree := Adopted(Born(k.tree, p), k.current, p),
       procs := k.procs + 1, pid := k.pid[p := k.nextPid], nextPid := (k.nextPid + 1) % Machine.WORD)
  }

  /** The namespaces after createProcess: the requested one, or those of the caller. */
  ghost function SpacesGiven(k: K, p: nat, nsd: int): (r: Spaces)
    requires Forest(k.tree) && p < |k.tree.kids| == |k.spaces.slots| && 0 <= k.current < |k.tree.kids|
             && SpacesOk(k.spaces)
    requires nsd == -1 || (0 <= nsd < |k.spaces.kind| && 0 <= k.spaces.kind[nsd] < NS_TYPE_MAX)
    ensures SpacesOk(r) && |r.slots| == |k.spaces.slots| && r.kind == k.spaces.kind
  {
    if nsd == -1 then SpaceInherited(k.spaces, k.tree, p, k.current, 0, k.lay.nullWord)
    else
      SpacesOkAdded(k.spaces, k.tree, p, nsd);
      SpaceAdded(k.spaces, k.tree, p, nsd)
  }

  /** createProcess, with the PID it returns. */
  ghost function Created(k: K, nsd: int): (K, int)
    requires Inv(k) && Legal(k, Create(nsd))
  {
    if k.free == [] then (k, -1 as int)
    else (Spawned(k).(spaces := SpacesGiven(Spawned(k), k.free[0], nsd)), Machine.Signed(k.nextPid))
  }

  /** terminateProcess, up to the call of the scheduler. */
  ghost function Terminated(k: K, p: nat): K
    requires Forest(k.tree) && p < |k.tree.kids|
  {
    Killed(k, Post(k.tree, p))
  }

  /** passeren */
  function Passed(k: K, a: int): K
    requires a in k.mem && 0 <= k.current < |k.sem|
    requires a in k.blocked ==> k.blocked[a] != [] && k.blocked[a][0] < |k.sem|
  {
    if k.mem[a] == 0 then Blocked(k, a, k.current)
    else if a in k.blocked then Woken(k, a)
    else k.(mem := k.mem[a := k.mem[a] - 1])
  }

  /** verhogen */
  function Raised(k: K, a: int): K
    requires a in k.mem && 0 <= k.current < |k.sem|
    requires a in k.blocked ==> k.blocked[a] != [] && k.blocked[a][0] < |k.sem|
  {
    if k.mem[a] == 1 then Blocked(k, a, k.current)
    else if a in k.blocked then Woken(k, a)
    else k.(mem := k.mem[a := (k.mem[a] + 1) % Machine.WORD])
  }

  /** P on a device or clock semaphore. */
  function Waited(k: K, a: int): K
    requires a in k.mem && 0 <= k.current < |k.sem|
  {
    if k.mem[a] == 0 then Blocked(k, a, k.current).(soft := k.soft + 1)
    else k.(mem := k.mem[a := 0])
  }

  /** V on a device semaphore. */
  function Signalled(k: K, a: int): K
    requires a in k.blocked ==> k.blocked[a] != [] && k.blocked[a][0] < |k.sem|
  {
    if a in k.blocked then Woken(k, a).(soft := k.soft - 1)
    else k.(mem := k.mem[a := 1])
  }

  /** The interval timer: all that wait for the clock become ready, in the order they came. */
  ghost function Ticked(k: K): K {
    var q := Queue(k.blocked, k.lay.clock);
    k.(ready := Minus(k.ready, Elems(q)) + q, blocked := k.blocked - {k.lay.clock},
       sem := Released(k.sem, Elems(q)), soft := k.soft - |q|, mem := k.mem[k.lay.clock := 0])
  }

  /** The processes that findPcb can return for a PID: the ready and the blocked ones. */
  ghost predicate Listed(k: K, p: int, pid: nat)
    requires |k.pid| == |k.sem|
  {
    0 <= p < |k.sem| && k.pid[p] == pid && (p in k.ready || k.sem[p] != 0)
  }

  /** What the hardware and the callers of the kernel guarantee: requests come from a running
      process; semaphores are words of memory outside the kernel's own; a descriptor has a type
      that exists; there are 48 device semaphores; the slice timer is off in WAIT. */
  ghost predicate Legal(k: K, e: Event)
    requires Inv(k)
  {
    match e
    case Create(d) => k.current != -1 && (d == -1 || (0 <= d < |k.spaces.kind| && 0 <= k.spaces.kind[d] < NS_TYPE_MAX))
    case Terminate(pid, t) =>
      k.current != -1 &&
      if pid == 0 then t == k.current
      else Listed(k, t, pid) || (t == -1 && forall p :: !Listed(k, p, pid))
    case Passeren(a) => k.current != -1 && a in k.mem && !k.lay.Soft(a)
    case Verhogen(a) => k.current != -1 && a in k.mem && !k.lay.Soft(a)
    case DoIo(d, _) => k.current != -1 && d < DeviceRegisters.SEM_NUM
    case ClockWait => k.current != -1
    case AllocSpace(_) => k.current != -1
    case FreeSpace(d) => k.current != -1 && d < |k.spaces.kind|
    case Query => k.current != -1
    case Interrupt(timer, _, devs) =>
      (timer ==> k.current != -1) && forall i :: i in devs ==> i < DeviceRegisters.SEM_NUM
  }

  lemma HeadsOk(k: K)
    requires Places(k)
    ensures forall a :: a in k.blocked ==> k.blocked[a] != [] && k.blocked[a][0] < |k.sem|
  {
    forall a | a in k.blocked
      ensures k.blocked[a][0] < |k.sem|
    {
      assert k.blocked[a][0] in k.blocked[a];
    }
  }

  lemma CoreSignalled(k: K, a: int)
    requires Core(k) && k.lay.Soft(a)
    ensures a in k.blocked ==> k.blocked[a] != [] && k.blocked[a][0] < |k.sem|
    ensures Core(Signalled(k, a))
    ensures CurrentApart(k) ==> CurrentApart(Signalled(k, a))
  {
    if a in k.blocked {
      CoreWoken(k, a);
    } else {
      assert SoftSet(Signalled(k, a)) == SoftSet(k);
    }
  }

  lemma CoreTicked(k: K)
    requires Core(k)
    ensures Core(Ticked(k))
    ensures CurrentApart(k) ==> CurrentApart(Ticked(k))
  {
    var c := k.lay.clock;
    var q := Queue(k.blocked, c);
    PlacesTicked(k);
    assert Elems(q) <= SoftSet(k);
    assert SoftSet(Ticked(k)) == SoftSet(k) - Elems(q);
    ElemsSize(q);
    hide Forest, Places, SoftSet, Elems, Released;
  }

  lemma PlacesTicked(k: K)
    requires Places(k)
    ensures Places(Ticked(k))
    ensures CurrentApart(k) ==> CurrentApart(Ticked(k))
  {
    var c := k.lay.clock;
    var q := Queue(k.blocked, c);
    QueuesDrain(k.blocked, k.sem, Elems(q));
    DrainedQueue(k.blocked, k.sem, c);
    MinusNoDup(k.ready, Elems(q));
    NoDupAppend(Minus(k.ready, Elems(q)), q);
  }

  /** Draining the processes of one queue empties that queue and touches no other. */
  lemma DrainedQueue(m: map<int, seq<nat>>, sem: seq<int>, a: int)
    requires Queues(m, sem)
    ensures Drained(m, Elems(Queue(m, a))) == m - {a}
  {
    var d := Elems(Queue(m, a));
    forall b | b in m && b != a
      ensures Minus(m[b], d) == m[b]
    {
      MinusNone(m[b], d);
    }
    if a in m {
      MinusAll(m[a], d);
    }
    forall b
      ensures b in Drained(m, d) <==> b in m - {a}
    {
    }
  }

  lemma InterruptOk(k: K, timer: bool, tick: bool)
    requires Inv(k) && (timer ==> k.current != -1)
    ensures var k1 := if timer then Enqueued(k, k.current) else k;
            Core(k1) && CurrentApart(k1) && Core(Ticked(k1)) && CurrentApart(Ticked(k1))
  {
    if timer {
      CoreEnqueued(k, k.current);
    }
    CoreTicked(if timer then Enqueued(k, k.current) else k);
  }

  /** The device interrupts of one exception, in the order in which they are served. */
  ghost function Served(k: K, devs: seq<nat>): (r: K)
    requires Core(k) && forall i :: i in devs ==> i < DeviceRegisters.SEM_NUM
    ensures Core(r) && (CurrentApart(k) ==> CurrentApart(r))
    decreases |devs|
  {
    if devs == [] then k
    else
      assert devs[0] in devs && forall i :: i in devs[1..] ==> i in devs;
      HeadsOk(k);
      CoreSignalled(k, k.lay.DevSem(devs[0]));
      Served(Signalled(k, k.lay.DevSem(devs[0])), devs[1..])
  }

  /** interruptHandler, up to the call of the scheduler: the slice timer, the interval timer,
      then the devices. */
  ghost function Interrupted(k: K, timer: bool, tick: bool, devs: seq<nat>): (r: K)
    requires Inv(k) && Legal(k, Interrupt(timer, tick, devs))
    ensures Core(r) && CurrentApart(r)
  {
    InterruptOk(k, timer, tick);
    var k1 := if timer then Enqueued(k, k.current) else k;
    Served(if tick then Ticked(k1) else k1, devs)
  }

  ghost function Step(k: K, e: Event): (K, Outcome)
    requires Inv(k) && Legal(k, e)
  {
    HeadsOk(k);
    match e
    case Create(d) => (Created(k, d).0, Resume(k.current))
    case Terminate(_, t) => Scheduled(if t == -1 then Nulled(k) else Terminated(k, t))
    case Passeren(a) => if k.mem[a] == 0 then Scheduled(Passed(k, a)) else (Passed(k, a), Resume(k.current))
    case Verhogen(a) => if k.mem[a] == 1 then Scheduled(Raised(k, a)) else (Raised(k, a), Resume(k.current))
    case DoIo(d, installed) => Scheduled(if installed then Waited(k, k.lay.DevSem(d)) else k)
    case ClockWait => Scheduled(Waited(k, k.lay.clock))
    case AllocSpace(ty) => (k.(spaces := SpaceAllocated(k.spaces, ty)), Resume(k.current))
    case FreeSpace(d) => (k.(spaces := SpaceFreed(k.spaces, d)), Resume(k.current))
    case Query => (k, Resume(k.current))
    case Interrupt(timer, tick, devs) =>
      var r := Interrupted(k, timer, tick, devs);
      if r.current == -1 then Scheduled(r) else (r, Resume(r.current))
  }
}
