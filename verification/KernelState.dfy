/** The state of the kernel as a value, what each kernel operation does to it, and the
    invariant that every operation keeps. */
module KernelState {
  import opened Seqs
  import opened Trees
  import DeviceRegisters


  /** Where the device semaphore array and the pseudo-clock semaphore are in memory, and what a read
      through a NULL pointer sees: the word where a namespace has its type, and the word where a PCB has
      its `p_semAdd`. */
  datatype Layout = Layout(devBase: int, clock: int, nullWord: int, nullSem: int) {
    /** getDevSem */
    function DevSem(i: nat): int {
      devBase + 4 * i
    }

    /** The address test of __terminateProcess: a device semaphore or the pseudo clock. */
    predicate Soft(a: int) {
      (DevSem(0) <= a <= DevSem(DeviceRegisters.SEM_NUM - 1)) || a == clock
    }

    ghost predicate WellPlaced() {
      0 < devBase && 0 < clock && !(DevSem(0) <= clock <= DevSem(DeviceRegisters.SEM_NUM - 1))
    }
  }

  /** Namespaces: the slots of every process (-1 for NULL), the type of every descriptor, and
      the lists of free and of used descriptors. */
  datatype Spaces = Spaces(slots: seq<seq<int>>, kind: seq<int>, free: seq<nat>, used: seq<nat>)

  /** A process is an index into the PCB table and a semaphore is its address, with 0 for NULL;
      `blocked` is the active semaphore hash as a map from semaphores to queues.  The two counters are
      words; `procs` and `soft` are their values before reduction.  `nulls` is not in the C code: it
      counts how often __terminateProcess has been called with NULL. */
  datatype K = K(
    lay: Layout,
    free: seq<nat>, ready: seq<nat>, blocked: map<int, seq<nat>>, current: int,
    sem: seq<int>, tree: Tree, pid: seq<nat>, nextPid: nat,
    spaces: Spaces, mem: map<int, nat>, procs: int, soft: int, nulls: nat)

  /** The processes blocked on a device or clock semaphore. */
  ghost function SoftSet(k: K): set<nat> {
    set x: nat | x < |k.sem| && k.lay.Soft(k.sem[x])
  }

  /** Queues and `p_semAdd` fields agree: a process is on the queue of exactly the semaphore
      that its field names. */
  ghost predicate Queues(blocked: map<int, seq<nat>>, sem: seq<int>) {
    && (forall a :: a in blocked ==> a != 0 && blocked[a] != [] && NoDup(blocked[a]))
    && (forall a, x {:trigger x in blocked[a]} :: a in blocked && x in blocked[a] ==> x < |sem| && sem[x] == a)
    && (forall x {:trigger sem[x]} :: 0 <= x < |sem| && sem[x] != 0 ==> sem[x] in blocked && x in blocked[sem[x]])
  }

  /** A list of processes none of which is blocked. */
  ghost predicate Loose(s: seq<nat>, sem: seq<int>) {
    NoDup(s) && forall x :: x in s ==> x < |sem| && sem[x] == 0
  }

  ghost predicate Places(k: K) {
    && Queues(k.blocked, k.sem)
    && Loose(k.free, k.sem) && Loose(k.ready, k.sem)
    && (forall x :: x in k.free ==> x !in k.ready)
  }

  /** How often __terminateProcess has taken NULL for a soft-blocked process. */
  function SoftNulls(k: K): nat {
    if k.lay.Soft(k.lay.nullSem) then k.nulls else 0
  }

  /** What every operation keeps, whatever the current process is.  The counters are exact but for the
      terminations of NULL. */
  ghost predicate Core(k: K) {
    && k.lay.WellPlaced()
    && |k.tree.kids| == |k.pid| == |k.spaces.slots| == |k.sem|
    && Forest(k.tree)
    && Places(k)
    && (forall x :: x in k.free ==> k.tree.parent[x] == -1 && k.tree.kids[x] == [])
    && k.procs == |k.sem| - |k.free| - k.nulls
    && k.soft == |SoftSet(k)| - SoftNulls(k)
  }

  /** The current process, if there is one, is allocated and in no queue. */
  ghost predicate CurrentApart(k: K) {
    k.current == -1 || (0 <= k.current < |k.sem| && k.sem[k.current] == 0 && k.current !in k.free
                        && k.current !in k.ready)
  }

  const NS_TYPE_MAX := 1

  /** Slots hold NULL or a descriptor; a descriptor is in at most one of the two lists, once. */
  ghost predicate SpacesOk(s: Spaces) {
    && (forall p :: 0 <= p < |s.slots| ==> |s.slots[p]| == NS_TYPE_MAX)
    && (forall p, t :: 0 <= p < |s.slots| && 0 <= t < NS_TYPE_MAX ==> -1 <= s.slots[p][t] < |s.kind|)
    && NoDup(s.free) && NoDup(s.used)
    && (forall x :: x in s.free ==> x < |s.kind| && x !in s.used)
    && (forall x :: x in s.used ==> x < |s.kind|)
  }

  /** Device semaphores are 0 or 1 and have a queue only at 0, the pseudo clock stays 0, and
      nobody waits inside the device semaphore array but on one of its elements. */
  ghost predicate Devices(k: K) {
    && (forall i {:trigger k.lay.DevSem(i)} :: 0 <= i < DeviceRegisters.SEM_NUM ==>
          && k.lay.DevSem(i) in k.mem && k.mem[k.lay.DevSem(i)] <= 1
          && (k.mem[k.lay.DevSem(i)] == 1 ==> k.lay.DevSem(i) !in k.blocked))
    && k.lay.clock in k.mem && k.mem[k.lay.clock] == 0
    && (forall a :: a in k.blocked && k.lay.Soft(a) ==>
          a == k.lay.clock || (0 <= a - k.lay.devBase && (a - k.lay.devBase) % 4 == 0))
    && 0 !in k.mem
  }

  ghost predicate Inv(k: K) {
    Core(k) && CurrentApart(k) && SpacesOk(k.spaces) && Devices(k)
  }

  function Queue(m: map<int, seq<nat>>, a: int): seq<nat> {
    if a in m then m[a] else []
  }

  /** The hash with queue `q` for semaphore `a`: an emptied semaphore is no longer active. */
  function WithQueue(m: map<int, seq<nat>>, a: int, q: seq<nat>): map<int, seq<nat>> {
    if q == [] then m - {a} else m[a := q]
  }

  /** The hash once the processes of `d` have left their queues. */
  ghost function Drained(m: map<int, seq<nat>>, d: set<nat>): map<int, seq<nat>> {
    map a | a in m && Minus(m[a], d) != [] :: Minus(m[a], d)
  }

  /** The `p_semAdd` fields once those of `d` are NULL. */
  ghost function Released(sem: seq<int>, d: set<nat>): seq<int> {
    seq(|sem|, x requires 0 <= x < |sem| => if x in d then 0 else sem[x])
  }

  /** enqueueReady */
  function Enqueued(k: K, p: nat): K {
    k.(ready := Minus(k.ready, {p}) + [p], current := if k.current == p then -1 else k.current)
  }

  /** insertBlocked */
  function Blocked(k: K, a: int, p: nat): K
    requires p < |k.sem|
  {
    k.(blocked := k.blocked[a := Queue(k.blocked, a) + [p]], sem := k.sem[p := a])
  }

  /** outBlocked */
  function Unblocked(k: K, p: nat): K
    requires p < |k.sem|
  {
    var a := k.sem[p];
    if a == 0 then k
    else k.(blocked := WithQueue(k.blocked, a, Minus(Queue(k.blocked, a), {p})), sem := k.sem[p := 0])
  }

  /** removeBlocked and enqueueReady: the process that has waited longest on `a` becomes ready. */
  function Woken(k: K, a: int): K
    requires a in k.blocked && k.blocked[a] != [] && k.blocked[a][0] < |k.sem|
  {
    var p := k.blocked[a][0];
    Enqueued(k.(blocked := WithQueue(k.blocked, a, k.blocked[a][1..]), sem := k.sem[p := 0]), p)
  }

  /** The state once the processes of `dead` have been freed, in that order. */
  ghost function Killed(k: K, dead: seq<nat>): K
    requires Forest(k.tree)
  {
    var d := Elems(dead);
    k.(free := Reverse(dead) + k.free,
       ready := Minus(k.ready, d),
       blocked := Drained(k.blocked, d),
       sem := Released(k.sem, d),
       tree := Pruned(k.tree, d),
       procs := k.procs - |dead|,
       soft := k.soft - |SoftSet(k) * d|)
  }

  /** __terminateProcess of NULL: only the counters change. */
  function Nulled(k: K): K {
    k.(procs := k.procs - 1, soft := if k.lay.Soft(k.lay.nullSem) then k.soft - 1 else k.soft, nulls := k.nulls + 1)
  }

  lemma CoreNulled(k: K)
    requires Core(k)
    ensures Core(Nulled(k)) && (CurrentApart(k) ==> CurrentApart(Nulled(k)))
  {
    SoftSetOf(k, Nulled(k));
  }

  lemma QueuesJoin(m: map<int, seq<nat>>, sem: seq<int>, a: int, p: nat)
    requires Queues(m, sem) && p < |sem| && sem[p] == 0 && a != 0
    ensures Queues(m[a := Queue(m, a) + [p]], sem[p := a])
  {
    assert forall b :: b in m ==> p !in m[b];
    NoDupAppend(Queue(m, a), [p]);
    assert p in Queue(m, a) + [p];
  }

  lemma QueuesDrain(m: map<int, seq<nat>>, sem: seq<int>, d: set<nat>)
    requires Queues(m, sem)
    ensures Queues(Drained(m, d), Released(sem, d))
  {
    forall a | a in Drained(m, d)
      ensures NoDup(Drained(m, d)[a])
    {
      MinusNoDup(m[a], d);
    }
    forall x | 0 <= x < |sem| && Released(sem, d)[x] != 0
      ensures sem[x] in Drained(m, d) && x in Drained(m, d)[sem[x]]
    {
      assert x in Minus(m[sem[x]], d);
    }
  }

  /** Draining one process touches only the queue it is on. */
  lemma DrainOne(m: map<int, seq<nat>>, sem: seq<int>, p: nat)
    requires Queues(m, sem) && p < |sem|
    ensures sem[p] == 0 ==> Drained(m, {p}) == m
    ensures sem[p] != 0 ==> sem[p] in m && Drained(m, {p}) == WithQueue(m, sem[p], Minus(m[sem[p]], {p}))
    ensures Released(sem, {p}) == sem[p := 0]
  {
    forall a | a in m && a != sem[p]
      ensures Minus(m[a], {p}) == m[a]
    {
      assert p !in m[a];
      MinusNone(m[a], {p});
    }
    if sem[p] == 0 {
      forall b
        ensures b in m <==> b in Drained(m, {p})
      {
      }
    } else {
      DrainKeys(m, sem[p], p);
    }
  }

  lemma DrainKeys(m: map<int, seq<nat>>, a: int, p: nat)
    requires a in m && forall b :: b in m ==> m[b] != []
    requires forall b :: b in m && b != a ==> Minus(m[b], {p}) == m[b]
    ensures Drained(m, {p}) == WithQueue(m, a, Minus(m[a], {p}))
  {
    var l, r := Drained(m, {p}), WithQueue(m, a, Minus(m[a], {p}));
    forall b
      ensures b in l <==> b in r
      ensures b in l ==> l[b] == r[b]
    {
      assert b in m && b != a ==> Minus(m[b], {p}) == m[b] != [];
    }
  }

  lemma LooseMinus(s: seq<nat>, sem: seq<int>, d: set<nat>)
    requires Loose(s, sem)
    ensures Loose(Minus(s, d), Released(sem, d))
  {
    MinusNoDup(s, d);
  }

  lemma CoreEnqueued(k: K, p: nat)
    requires Core(k) && p < |k.sem| && p !in k.free && k.sem[p] == 0
    ensures Core(Enqueued(k, p))
    ensures CurrentApart(k) ==> CurrentApart(Enqueued(k, p))
  {
    MinusNoDup(k.ready, {p});
    NoDupAppend(Minus(k.ready, {p}), [p]);
    assert SoftSet(Enqueued(k, p)) == SoftSet(k);
  }

  lemma PlacesBlocked(k: K, a: int, p: nat)
    requires Places(k) && p < |k.sem| && p !in k.free && p !in k.ready && k.sem[p] == 0 && a != 0
    ensures Places(Blocked(k, a, p))
  {
    QueuesJoin(k.blocked, k.sem, a, p);
  }

  lemma SoftSetBlocked(k: K, a: int, p: nat)
    requires k.lay.WellPlaced() && p < |k.sem| && k.sem[p] == 0
    ensures |SoftSet(Blocked(k, a, p))| == |SoftSet(k)| + if k.lay.Soft(a) then 1 else 0
  {
    assert SoftSet(Blocked(k, a, p)) == SoftSet(k) + if k.lay.Soft(a) then {p} else {};
  }

  lemma CoreBlocked(k: K, a: int, p: nat)
    requires Core(k) && p < |k.sem| && p !in k.free && p !in k.ready && k.sem[p] == 0 && a != 0
    ensures Core(Blocked(k, a, p).(soft := if k.lay.Soft(a) then k.soft + 1 else k.soft))
  {
    PlacesBlocked(k, a, p);
    SoftSetBlocked(k, a, p);
    var r := Blocked(k, a, p);
    assert SoftSet(r.(soft := if k.lay.Soft(a) then k.soft + 1 else k.soft)) == SoftSet(r);
  }

  lemma PlacesUnblocked(k: K, p: nat)
    requires Places(k) && p < |k.sem|
    ensures Places(Unblocked(k, p))
  {
    DrainOne(k.blocked, k.sem, p);
    QueuesDrain(k.blocked, k.sem, {p});
  }

  lemma CoreUnblocked(k: K, p: nat)
    requires Core(k) && p < |k.sem|
    ensures Core(Unblocked(k, p).(soft := if k.lay.Soft(k.sem[p]) then k.soft - 1 else k.soft))
  {
    PlacesUnblocked(k, p);
    SoftSetUnblocked(k, p);
    hide Forest, Queues, Loose, WithQueue, Minus, SoftSet;
    var r := Unblocked(k, p);
    var s := r.(soft := if k.lay.Soft(k.sem[p]) then k.soft - 1 else k.soft);
    assert Places(s) && SoftSet(s) == SoftSet(r) by {
      SoftSetOf(r, s);
    }
  }

  lemma SoftSetOf(k: K, r: K)
    requires r.lay == k.lay && r.sem == k.sem
    ensures SoftSet(r) == SoftSet(k)
  {
  }

  lemma SoftSetUnblocked(k: K, p: nat)
    requires k.lay.WellPlaced() && p < |k.sem|
    ensures |SoftSet(Unblocked(k, p))| == |SoftSet(k)| - if k.lay.Soft(k.sem[p]) then 1 else 0
  {
    assert SoftSet(Unblocked(k, p)) == SoftSet(k) - {p};
    assert p in SoftSet(k) <==> k.lay.Soft(k.sem[p]);
  }

  /** Waking the head of a queue is unblocking it and making it ready. */
  lemma WokenIsUnblocked(k: K, a: int)
    requires Core(k) && a in k.blocked
    ensures var p := k.blocked[a][0];
            p < |k.sem| && k.sem[p] == a && p !in k.free && Woken(k, a) == Enqueued(Unblocked(k, p), p)
  {
    var q := k.blocked[a];
    assert q[0] in q;
    MinusAt(q, 0);
    assert Minus(q, {q[0]}) == q[1..];
  }

  lemma CoreWoken(k: K, a: int)
    requires Core(k) && a in k.blocked
    ensures k.blocked[a] != [] && k.blocked[a][0] in k.blocked[a]
    ensures Core(Woken(k, a).(soft := if k.lay.Soft(a) then k.soft - 1 else k.soft))
    ensures CurrentApart(k) ==> CurrentApart(Woken(k, a))
  {
    WokenIsUnblocked(k, a);
    var p := k.blocked[a][0];
    CoreUnblocked(k, p);
    CoreEnqueued(Unblocked(k, p).(soft := if k.lay.Soft(a) then k.soft - 1 else k.soft), p);
  }

  lemma CoreKilled(k: K, dead: seq<nat>)
    requires Core(k) && NoDup(dead)
    requires forall x :: x in dead ==> x < |k.sem| && x !in k.free
    requires forall x, c :: x in dead && c in k.tree.kids[x] ==> c in dead
    ensures Core(Killed(k, dead))
  {
    PlacesKilled(k, dead);
    SoftSetKilled(k, dead);
    hide Places, SoftSet;
    ChildlessKilled(k, dead);
    hide Forest, Drained, Minus;
    ElemsSize(dead);
  }

  lemma ChildlessKilled(k: K, dead: seq<nat>)
    requires Forest(k.tree) && |k.tree.kids| == |k.sem| && forall x :: x in dead ==> x < |k.sem|
    requires forall x :: x in k.free ==> x < |k.sem| && k.tree.parent[x] == -1 && k.tree.kids[x] == []
    requires forall x, c :: x in dead && c in k.tree.kids[x] ==> c in dead
    ensures forall x :: x in Killed(k, dead).free ==>
                          Killed(k, dead).tree.parent[x] == -1 && Killed(k, dead).tree.kids[x] == []
  {
    forall x | x in Killed(k, dead).free
      ensures Killed(k, dead).tree.parent[x] == -1 && Killed(k, dead).tree.kids[x] == []
    {
      if x in dead {
        MinusAll(k.tree.kids[x], Elems(dead));
      } else {
        assert x in k.free;
      }
    }
  }

  lemma PlacesKilled(k: K, dead: seq<nat>)
    requires Places(k) && Forest(k.tree) && NoDup(dead) && forall x :: x in dead ==> x < |k.sem| && x !in k.free
    ensures Places(Killed(k, dead))
  {
    var d := Elems(dead);
    QueuesDrain(k.blocked, k.sem, d);
    LooseMinus(k.ready, k.sem, d);
    NoDupReverse(dead);
    NoDupAppend(Reverse(dead), k.free);
  }

  lemma ReverseTwice(a: seq<nat>, b: seq<nat>, f: seq<nat>)
    ensures Reverse(b) + (Reverse(a) + f) == Reverse(a + b) + f
  {
    ReverseAppend(a, b);
  }

  lemma SizeTwice(soft: set<nat>, s: set<nat>, t: set<nat>)
    requires s !! t
    ensures |soft * (s + t)| == |soft * s| + |(soft - s) * t|
  {
    assert soft * (s + t) == soft * s + (soft - s) * t;
  }

  lemma SoftSetKilled(k: K, dead: seq<nat>)
    requires k.lay.WellPlaced() && Forest(k.tree)
    ensures SoftSet(Killed(k, dead)) == SoftSet(k) - Elems(dead)
  {
  }

  /** Freeing some processes and then others is freeing them all. */
  lemma KilledTwice(k: K, a: seq<nat>, b: seq<nat>)
    requires k.lay.WellPlaced() && Forest(k.tree) && Elems(a) !! Elems(b)
    ensures Killed(Killed(k, a), b) == Killed(k, a + b)
  {
    var s, t := Elems(a), Elems(b);
    ElemsAppend(a, b);
    ReverseTwice(a, b, k.free);
    MinusMinus(k.ready, s, t);
    PrunedTwice(k.tree, s, t);
    DrainTwice(k.blocked, s, t);
    ReleasedTwice(k.sem, s, t);
    SoftSetKilled(k, a);
    SizeTwice(SoftSet(k), s, t);
  }

  lemma ReleasedTwice(sem: seq<int>, s: set<nat>, t: set<nat>)
    ensures Released(Released(sem, s), t) == Released(sem, s + t)
  {
  }

  lemma DrainTwice(m: map<int, seq<nat>>, s: set<nat>, t: set<nat>)
    ensures Drained(Drained(m, s), t) == Drained(m, s + t)
  {
    forall a | a in m
      ensures Minus(Minus(m[a], s), t) == Minus(m[a], s + t)
    {
      MinusMinus(m[a], s, t);
    }
  }
}
