/** What each request does to the state, field by field, and how the kernel leaves. */
module Effects {
  import opened Seqs
  import Trees
  import DeviceRegisters
  import opened KernelState
  import Machine
  import opened KernelSteps
  import KernelInvariant
  import opened Subtrees

  /** The kernel returns to the caller. */
  ghost predicate Returns(k: K, r: K, o: Outcome) {
    0 <= k.current == r.current && o == Resume(k.current)
  }

  /** The scheduler takes the first of the processes `q`, or gives its verdict if there are none. */
  ghost predicate Schedules(q: seq<nat>, r: K, o: Outcome) {
    if q != [] then r.current == q[0] && r.ready == q[1..] && o == Dispatch(q[0])
    else
      && r.current == -1 && r.ready == []
      && (o == Halt <==> r.procs % Machine.WORD == 0)
      && (o == Wait <==> r.procs % Machine.WORD != 0 && r.soft % Machine.WORD != 0)
      && (o == Deadlock <==> r.procs % Machine.WORD != 0 && r.soft % Machine.WORD == 0)
  }

  lemma SchedulesReady(k: K)
    ensures var (r, o) := Scheduled(k); Schedules(k.ready, r, o)
  {
  }

  /** Who is live, under whom, with which PID and in which namespaces is as it was. */
  ghost predicate SamePeople(k: K, r: K) {
    && |r.sem| == |k.sem| && r.free == k.free && r.tree == k.tree && r.pid == k.pid && r.nextPid == k.nextPid
    && r.spaces == k.spaces && r.lay == k.lay && r.procs == k.procs && r.nulls == k.nulls
  }

  ghost predicate OtherQueues(k: K, r: K, a: int) {
    forall b :: b != a ==> Queue(r.blocked, b) == Queue(k.blocked, b)
  }

  /** The caller is now last on the queue of semaphore `a`. */
  ghost predicate Blocks(k: K, r: K, a: int) {
    && 0 <= k.current < |k.sem| && Queue(r.blocked, a) == Queue(k.blocked, a) + [k.current] && OtherQueues(k, r, a)
    && r.sem == k.sem[k.current := a] && r.mem == k.mem
  }

  /** The first on the queue of semaphore `a` is now last of the ready processes. */
  ghost predicate Wakes(k: K, r: K, a: int) {
    var q := Queue(k.blocked, a);
    && q != [] && q[0] < |k.sem| && Queue(r.blocked, a) == q[1..] && OtherQueues(k, r, a)
    && r.sem == k.sem[q[0] := 0] && r.ready == k.ready + [q[0]] && r.mem == k.mem
  }

  /** An operation on a semaphore of a program: it blocks the caller, or wakes the first in the queue, or
      stores `v` when there is none. */
  ghost predicate Operates(k: K, a: int, blocks: bool, v: int, r: K, o: Outcome) {
    && SamePeople(k, r) && r.soft == k.soft
    && if blocks then Blocks(k, r, a) && Schedules(k.ready, r, o)
       else if Queue(k.blocked, a) != [] then Wakes(k, r, a) && Returns(k, r, o)
       else v >= 0 && r.mem == k.mem[a := v] && r.blocked == k.blocked && r.sem == k.sem && r.ready == k.ready
            && Returns(k, r, o)
  }

  /** P on a semaphore of the kernel, upon which the scheduler runs in any case: at 0 the caller blocks and is
      counted, and otherwise the semaphore becomes 0. */
  ghost predicate Waits(k: K, a: int, r: K, o: Outcome)
    requires a in k.mem
  {
    && SamePeople(k, r) && Schedules(k.ready, r, o) && r.mem == k.mem[a := 0]
    && if k.mem[a] == 0 then Blocks(k, r, a) && r.soft == k.soft + 1
       else r.blocked == k.blocked && r.sem == k.sem && r.soft == k.soft
  }

  /** Nothing but that the scheduler runs. */
  ghost predicate OnlySchedules(k: K, r: K, o: Outcome) {
    && SamePeople(k, r) && Schedules(k.ready, r, o)
    && r.blocked == k.blocked && r.sem == k.sem && r.mem == k.mem && r.soft == k.soft
  }

  /** A new process from the first free PCB, last among the ready ones and last under the caller, with the next
      PID; or nothing when there is no free PCB. */
  ghost predicate Spawns(k: K, r: K, o: Outcome)
    requires 0 <= k.current < |k.tree.kids|
  {
    && Returns(k, r, o) && r.blocked == k.blocked && r.sem == k.sem && r.mem == k.mem && r.soft == k.soft
    && if k.free == [] then r == k
       else
         var c := k.free[0];
         && c < |k.tree.kids| == |k.tree.parent| && c < |k.pid|
         && r.free == k.free[1..] && r.ready == k.ready + [c] && r.procs == k.procs + 1
         && r.tree.kids == k.tree.kids[k.current := k.tree.kids[k.current] + [c]]
         && r.tree.parent == k.tree.parent[c := k.current]
         && r.pid == k.pid[c := k.nextPid] && r.nextPid == (k.nextPid + 1) % Machine.WORD
  }

  /** The processes in `gone` are in no queue any more, the order of the others is kept, and the scheduler takes
      the first of those that are ready. */
  ghost predicate Leave(k: K, gone: set<nat>, r: K, o: Outcome) {
    && (forall b :: Queue(r.blocked, b) == Minus(Queue(k.blocked, b), gone))
    && Schedules(Minus(k.ready, gone), r, o) && r.mem == k.mem
    && r.procs == k.procs - |gone| && r.soft == k.soft - |SoftSet(k) * gone|
  }

  /** Those in `gone` are free, and the others are as they were, but that `p` is a child of none of them. */
  ghost predicate Freed(k: K, p: nat, gone: set<nat>, r: K) {
    && |r.sem| == |k.sem| == |k.tree.kids| == |r.tree.kids| && |r.tree.parent| == |k.tree.parent| == |k.sem|
    && (forall x :: x in r.free <==> x in k.free || x in gone)
    && r.pid == k.pid && r.nextPid == k.nextPid && r.spaces == k.spaces
    && (forall x: nat :: x < |k.sem| && x !in gone ==>
          && r.sem[x] == k.sem[x] && r.tree.parent[x] == k.tree.parent[x]
          && r.tree.kids[x] == Minus(k.tree.kids[x], {p}))
  }

  /** Process `p` and all its descendants are free and have left their queues, and nobody else. */
  ghost predicate Ends(k: K, p: nat, r: K, o: Outcome)
    requires Trees.Forest(k.tree) && p < |k.tree.kids|
  {
    var gone := Subtree(k.tree, p);
    Leave(k, gone, r, o) && Freed(k, p, gone, r)
  }

  /** One process less is counted and nobody is freed. */
  ghost predicate EndsNobody(k: K, r: K, o: Outcome) {
    && r.free == k.free && r.tree == k.tree && r.blocked == k.blocked && r.sem == k.sem && r.mem == k.mem
    && r.pid == k.pid && r.nextPid == k.nextPid && r.spaces == k.spaces && r.procs == k.procs - 1
    && r.soft == k.soft - (if k.lay.Soft(k.lay.nullSem) then 1 else 0) && Schedules(k.ready, r, o)
  }

  lemma WokenEffect(k: K, a: int)
    requires Core(k) && CurrentApart(k) && a in k.blocked
    ensures k.blocked[a] != [] && k.blocked[a][0] < |k.sem| && k.sem[k.blocked[a][0]] == a != 0
    ensures var r := Woken(k, a); Wakes(k, r, a) && SamePeople(k, r) && r.soft == k.soft && r.current == k.current
  {
    WokenIsUnblocked(k, a);
    MinusNone(k.ready, {k.blocked[a][0]});
  }

  lemma PasserenEffect(k: K, a: int)
    requires Inv(k) && Legal(k, Passeren(a))
    ensures var (r, o) := Step(k, Passeren(a)); Operates(k, a, k.mem[a] == 0, (k.mem[a] as int) - 1, r, o)
  {
    HeadsOk(k);
    if a in k.blocked {
      WokenEffect(k, a);
    }
    SchedulesReady(Blocked(k, a, k.current));
    hide Inv, Core, Places;
  }

  lemma VerhogenEffect(k: K, a: int)
    requires Inv(k) && Legal(k, Verhogen(a))
    ensures var (r, o) := Step(k, Verhogen(a)); Operates(k, a, k.mem[a] == 1, (k.mem[a] + 1) % Machine.WORD, r, o)
  {
    HeadsOk(k);
    if a in k.blocked {
      WokenEffect(k, a);
    }
    SchedulesReady(Blocked(k, a, k.current));
    hide Inv, Core, Places;
  }

  lemma WaitedEffect(k: K, a: int)
    requires Inv(k) && k.current != -1 && a in k.mem && a != 0
    ensures var (r, o) := Scheduled(Waited(k, a)); Waits(k, a, r, o)
  {
    SchedulesReady(Waited(k, a));
  }

  lemma DoIoEffect(k: K, d: nat, installed: bool)
    requires Inv(k) && Legal(k, DoIo(d, installed))
    ensures var (r, o) := Step(k, DoIo(d, installed));
            && k.lay.DevSem(d) in k.mem
            && if installed then Waits(k, k.lay.DevSem(d), r, o) else OnlySchedules(k, r, o)
  {
    WaitedEffect(k, k.lay.DevSem(d));
    SchedulesReady(k);
  }

  lemma ClockWaitEffect(k: K)
    requires Inv(k) && Legal(k, ClockWait)
    ensures var (r, o) := Step(k, ClockWait); k.lay.clock in k.mem && Waits(k, k.lay.clock, r, o)
  {
    WaitedEffect(k, k.lay.clock);
  }

  lemma CreateEffect(k: K, nsd: int)
    requires Inv(k) && Legal(k, Create(nsd))
    ensures var (r, o) := Step(k, Create(nsd)); 0 <= k.current < |k.tree.kids| && Spawns(k, r, o)
  {
    if k.free != [] {
      assert k.free[0] in k.free;
      MinusNone(k.ready, {k.free[0]});
    }
  }

  /** Of the PID 0 the caller is the process, of any other one that findPcb has found, or nobody. */
  lemma TerminateEffect(k: K, pid: nat, t: int)
    requires Inv(k) && Legal(k, Terminate(pid, t))
    ensures var (r, o) := Step(k, Terminate(pid, t));
            if t == -1 then EndsNobody(k, r, o)
            else Trees.Forest(k.tree) && 0 <= t < |k.tree.kids| && Ends(k, t, r, o)
  {
    if t == -1 {
      SchedulesReady(Nulled(k));
    } else {
      if pid != 0 {
        KernelInvariant.ListedIsLive(k, t, pid);
      }
      EndsEffect(k, t);
    }
  }

  lemma EndsEffect(k: K, p: nat)
    requires Inv(k) && p < |k.sem| && p !in k.free
    ensures var (r, o) := Scheduled(Terminated(k, p)); Ends(k, p, r, o)
  {
    FreedEffect(k, p);
    LeaveEffect(k, p);
  }

  lemma LeaveEffect(k: K, p: nat)
    requires Core(k) && p < |k.sem| && p !in k.free
    ensures var (r, o) := Scheduled(Terminated(k, p)); Leave(k, Subtree(k.tree, p), r, o)
  {
    var m := Terminated(k, p);
    assert m.mem == k.mem;
    TerminationFreesSubtree(k, p);
    QueuesLeft(k, p);
    SchedulesReady(m);
    hide Core, Terminated, Subtree, Minus, SoftSet, Schedules;
  }

  lemma FreedEffect(k: K, p: nat)
    requires Core(k) && p < |k.sem| && p !in k.free
    ensures Freed(k, p, Subtree(k.tree, p), Scheduled(Terminated(k, p)).0)
  {
    hide Core, Subtree, Minus, Terminated, Queue, SoftSet;
    FieldsLeft(k, p);
    FreeNow(k, p);
  }

  lemma FreeNow(k: K, p: nat)
    requires Core(k) && p < |k.sem| && p !in k.free
    ensures forall x :: x in Terminated(k, p).free <==> x in k.free || x in Subtree(k.tree, p)
  {
    TerminationFreesSubtree(k, p);
  }

  lemma FieldsLeft(k: K, p: nat)
    requires Core(k) && p < |k.sem| && p !in k.free
    ensures var m := Terminated(k, p);
            && |m.sem| == |m.tree.kids| == |m.tree.parent| == |k.sem| == |k.tree.parent| == |k.tree.kids|
            && m.pid == k.pid && m.nextPid == k.nextPid && m.spaces == k.spaces
            && (forall x: nat :: x < |k.sem| && x !in Subtree(k.tree, p) ==>
                  && m.sem[x] == k.sem[x] && m.tree.parent[x] == k.tree.parent[x]
                  && m.tree.kids[x] == Minus(k.tree.kids[x], {p}))
  {
    var m := Terminated(k, p);
    assert |m.sem| == |m.tree.kids| == |m.tree.parent| == |k.sem| == |k.tree.parent| == |k.tree.kids|;
    forall x: nat | x < |k.sem| && x !in Subtree(k.tree, p)
      ensures m.sem[x] == k.sem[x] && m.tree.parent[x] == k.tree.parent[x]
      ensures m.tree.kids[x] == Minus(k.tree.kids[x], {p})
    {
      TerminationSparesOthers(k, p, x);
    }
  }

  lemma QueuesLeft(k: K, p: nat)
    requires Core(k) && p < |k.sem| && p !in k.free
    ensures forall b :: Queue(Terminated(k, p).blocked, b) == Minus(Queue(k.blocked, b), Subtree(k.tree, p))
  {
    TerminationFreesSubtree(k, p);
    hide Core, Terminated, Subtree;
    assert Minus([], Subtree(k.tree, p)) == [];
  }

  /** The calls of a program. */
  lemma CallsEffect(k: K, ty: int, d: nat)
    requires Inv(k) && k.current != -1 && d < |k.spaces.kind|
    ensures var (r, o) := Step(k, AllocSpace(ty));
            && Returns(k, r, o) && r == k.(spaces := r.spaces)
            && r.spaces.slots == k.spaces.slots && r.spaces.used == k.spaces.used
            && if k.spaces.free == [] then r.spaces == k.spaces
               else k.spaces.free == [k.spaces.free[0]] + r.spaces.free && k.spaces.free[0] < |k.spaces.kind|
                    && r.spaces.kind == k.spaces.kind[k.spaces.free[0] := ty]
    ensures var (r, o) := Step(k, FreeSpace(d));
            && Returns(k, r, o) && r == k.(spaces := r.spaces)
            && r.spaces.slots == k.spaces.slots && r.spaces.kind == k.spaces.kind
            && r.spaces.free == Minus(k.spaces.free, {d}) + [d] && r.spaces.used == Minus(k.spaces.used, {d})
  {
    assert k.spaces.free != [] ==> k.spaces.free[0] in k.spaces.free;
  }

  /** The steps after which the caller goes on. */
  ghost predicate GoesOn(k: K, e: Event)
    requires Inv(k) && Legal(k, e)
  {
    match e
    case Create(_) => true
    case AllocSpace(_) => true
    case FreeSpace(_) => true
    case Query => true
    case Passeren(a) => k.mem[a] != 0
    case Verhogen(a) => k.mem[a] != 1
    case Interrupt(timer, _, _) => k.current != -1 && !timer
    case _ => false
  }

  /** The kernel returns to the caller from these steps and from no other; and in any case the outcome names
      the process that is then running, or says that none is. */
  lemma ReturnsWhen(k: K, e: Event)
    requires Inv(k) && Legal(k, e)
    ensures var (r, o) := Step(k, e); (GoesOn(k, e) <==> o.Resume?) && (GoesOn(k, e) <==> Returns(k, r, o))
    ensures var (r, o) := Step(k, e); NamesCurrent(r, o)
  {
    hide Step, Inv, Legal, SamePeople, Blocks, Wakes, OtherQueues, Subtree, Minus, Queue;
    match e
    case Create(d) => CreateEffect(k, d);
    case Terminate(pid, t) => TerminateEffect(k, pid, t);
    case Passeren(a) => PasserenEffect(k, a);
    case Verhogen(a) => VerhogenEffect(k, a);
    case DoIo(d, installed) => DoIoEffect(k, d, installed);
    case ClockWait => ClockWaitEffect(k);
    case Interrupt(timer, tick, devs) => InterruptReturns(k, timer, tick, devs);
    case _ => OthersReturn(k, e);
  }

  lemma OthersReturn(k: K, e: Event)
    requires Inv(k) && Legal(k, e) && (e.AllocSpace? || e.FreeSpace? || e.Query?)
    ensures var (r, o) := Step(k, e); Returns(k, r, o)
  {
  }

  ghost predicate NamesCurrent(r: K, o: Outcome) {
    match o
    case Resume(p) => r.current == p
    case Dispatch(p) => r.current == p
    case _ => r.current == -1
  }

  lemma InterruptReturns(k: K, timer: bool, tick: bool, devs: seq<nat>)
    requires Inv(k) && Legal(k, Interrupt(timer, tick, devs))
    ensures var e := Interrupt(timer, tick, devs);
            var (r, o) := Step(k, e);
            && (GoesOn(k, e) <==> o.Resume?) && (GoesOn(k, e) <==> Returns(k, r, o)) && NamesCurrent(r, o)
  {
    InterruptOk(k, timer, tick);
    var k1 := if timer then Enqueued(k, k.current) else k;
    CurrentServed(if tick then Ticked(k1) else k1, devs);
    var m := Interrupted(k, timer, tick, devs);
    assert m.current == if timer then -1 else k.current;
    SchedulesReady(m);
    hide Inv, Core, CurrentApart, Interrupted, Ticked, Served, Scheduled;
  }

  lemma {:induction false} CurrentServed(k: K, devs: seq<nat>)
    requires Core(k) && CurrentApart(k) && forall i :: i in devs ==> i < DeviceRegisters.SEM_NUM
    ensures Served(k, devs).current == k.current
    decreases |devs|
  {
    if devs != [] {
      assert devs[0] in devs && forall i :: i in devs[1..] ==> i in devs;
      var a := k.lay.DevSem(devs[0]);
      HeadsOk(k);
      CoreSignalled(k, a);
      if a in k.blocked {
        WokenEffect(k, a);
      }
      CurrentServed(Signalled(k, a), devs[1..]);
    }
  }
}
