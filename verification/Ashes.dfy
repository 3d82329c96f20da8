/** The active semaphore hash of ash.c: descriptors that are either on the free list or chained
    into the bucket of their key, each with a queue of blocked PCBs. */
module Ashes {
  import opened Seqs
  import opened Lists
  import opened HashLists
  import opened Processes
  import opened KernelState

  /** `struct semd_t`, but for its links; its queue is list `id` of the PCB table. */
  class Semd {
    const id: nat
    var s_key: int

    constructor (id: nat)
      ensures this.id == id && s_key == 0
    {
      this.id := id;
      s_key := 0;
    }
  }

  /** semdFree_table, statically allocated. */
  method NewSemds(n: nat) returns (ss: seq<Semd>, ghost objects: set<object>)
    ensures |ss| == n && fresh(objects)
    ensures forall i :: 0 <= i < |ss| ==> ss[i] in objects && ss[i].id == i && ss[i].s_key == 0
  {
    ss, objects := [], {};
    while |ss| < n
      invariant |ss| <= n && fresh(objects)
      invariant forall i :: 0 <= i < |ss| ==> ss[i] in objects && ss[i].id == i && ss[i].s_key == 0
    {
      var o := new Semd(|ss|);
      ss, objects := ss + [o], objects + {o};
    }
  }

  /** `desc` gives the descriptor of every active semaphore.  The active descriptors
      are those with a queue, and a blocked process is on the queue of the semaphore that its
      `p_semAdd` names. */
  ghost predicate Coupled(desc: map<int, nat>, t: Table) {
    && |t.q| == |t.sem| + 2
    && (forall a :: a in desc ==> a != 0 && desc[a] < |t.sem| && t.q[desc[a]] != [] && desc[a] in t.up)
    && (forall a, b :: a in desc && b in desc && desc[a] == desc[b] ==> a == b)
    && (forall h, x {:trigger x in t.q[h]} :: 0 <= h < |t.sem| && x in t.q[h] ==>
          x < |t.sem| && t.sem[x] in desc && desc[t.sem[x]] == h)
    && (forall x {:trigger t.sem[x]} :: 0 <= x < |t.sem| && t.sem[x] != 0 ==>
          t.sem[x] in desc && x in t.q[desc[t.sem[x]]])
  }

  /** The map from active semaphores to queues that the hash stands for. */
  ghost function Active(desc: map<int, nat>, t: Table): map<int, seq<nat>> {
    map a | a in desc && desc[a] < |t.q| :: t.q[desc[a]]
  }

  /** The table, but for the queues of the semaphores. */
  ghost function Outside(t: Table): Table
  {
    t.(q := t.q[if |t.sem| <= |t.q| then |t.sem| else |t.q|..], up := t.up * {|t.sem|, |t.sem| + 1})
  }

  /** Tables that agree outside the semaphore queues have the same free list and ready queue. */
  lemma OutsideSame(t: Table, u: Table, sem: seq<int>)
    requires |t.q| == |t.sem| + 2 && |u.q| == |u.sem| + 2 && |sem| == |t.sem|
    requires Outside(u) == Outside(t).(sem := sem)
    ensures u.sem == sem && u.tree == t.tree && u.kidsUp == t.kidsUp && u.pid == t.pid && u.slots == t.slots
    ensures u.q[|t.sem|] == t.q[|t.sem|] && u.q[|t.sem| + 1] == t.q[|t.sem| + 1]
    ensures |t.sem| in t.up ==> |t.sem| in u.up
    ensures |t.sem| + 1 in t.up ==> |t.sem| + 1 in u.up
  {
    var n := |t.sem|;
    assert u.q[n..][0] == u.q[n] && t.q[n..][0] == t.q[n];
    assert u.q[n..][1] == u.q[n + 1] && t.q[n..][1] == t.q[n + 1];
    assert n in t.up * {n, n + 1} <==> n in t.up;
    assert n in u.up * {n, n + 1} <==> n in u.up;
    assert n + 1 in u.up * {n, n + 1} <==> n + 1 in u.up;
    assert n + 1 in t.up * {n, n + 1} <==> n + 1 in t.up;
  }

  lemma CoupledJoin(desc: map<int, nat>, t: Table, h: nat, a: int, p: nat)
    requires Coupled(desc, t) && a != 0 && p < |t.sem| && Nowhere(t, p) && t.sem[p] == 0
    requires 0 <= h < |t.sem| && h in t.up
    requires if a in desc then h == desc[a] else t.q[h] == []
    ensures Coupled(desc[a := h], Joined(t, h, a, p))
  {
    var t' := Joined(t, h, a, p);
    assert forall b :: b in desc && b != a ==> desc[b] != h;
    assert p in t'.q[h];
    forall g, x {:trigger x in t'.q[g]} | 0 <= g < |t.sem| && x in t'.q[g]
      ensures x < |t.sem| && t'.sem[x] in desc[a := h] && desc[a := h][t'.sem[x]] == g
    {
      assert x in t.q[g] || (x == p && g == h);
    }
  }

  lemma ActiveJoin(desc: map<int, nat>, t: Table, h: nat, a: int, p: nat)
    requires Coupled(desc, t) && p < |t.sem| && 0 <= h < |t.sem|
    requires if a in desc then h == desc[a] else t.q[h] == []
    ensures Active(desc[a := h], Joined(t, h, a, p)) == Active(desc, t)[a := Queue(Active(desc, t), a) + [p]]
    ensures Outside(Joined(t, h, a, p)) == Outside(t).(sem := t.sem[p := a])
  {
    var t' := Joined(t, h, a, p);
    var l, r := Active(desc[a := h], t'), Active(desc, t)[a := Queue(Active(desc, t), a) + [p]];
    forall b
      ensures b in l <==> b in r
      ensures b in l ==> l[b] == r[b]
    {
    }
  }

  /** `p` has gone to the tail of the queue of `a`, and nothing else has changed. */
  ghost predicate HasJoined(m: map<int, seq<nat>>, t: Table, m': map<int, seq<nat>>, t': Table, a: int, p: nat) {
    p < |t.sem| && m' == m[a := Queue(m, a) + [p]] && Outside(t') == Outside(t).(sem := t.sem[p := a])
  }

  /** `p` has left the queue it was on, and nothing else has changed. */
  ghost predicate HasLeft(m: map<int, seq<nat>>, t: Table, m': map<int, seq<nat>>, t': Table, p: nat) {
    && p < |t.sem| && t.sem[p] in m && p in m[t.sem[p]]
    && m' == WithQueue(m, t.sem[p], Minus(m[t.sem[p]], {p}))
    && Outside(t') == Outside(t).(sem := t.sem[p := 0])
  }

  ghost function Closed(desc: map<int, nat>, a: int, q: seq<nat>): map<int, nat> {
    if q == [] then desc - {a} else desc
  }

  lemma CoupledLeave(desc: map<int, nat>, t: Table, a: int, p: nat)
    requires Coupled(desc, t) && p < |t.sem| && t.sem[p] == a != 0
    ensures a in desc
    ensures Coupled(Closed(desc, a, Minus(t.q[desc[a]], {p})), Left(t, desc[a], p))
  {
    var h := desc[a];
    var t' := Left(t, h, p);
    var desc' := Closed(desc, a, Minus(t.q[h], {p}));
    forall g, x {:trigger x in t'.q[g]} | 0 <= g < |t.sem| && x in t'.q[g]
      ensures x < |t.sem| && t'.sem[x] in desc' && desc'[t'.sem[x]] == g
    {
      assert x in t.q[g];
      assert g == h ==> x != p;
    }
    forall x {:trigger t'.sem[x]} | 0 <= x < |t.sem| && t'.sem[x] != 0
      ensures t'.sem[x] in desc' && x in t'.q[desc'[t'.sem[x]]]
    {
      assert x in t.q[desc[t.sem[x]]];
    }
  }

  lemma ActiveLeave(desc: map<int, nat>, t: Table, a: int, p: nat)
    requires Coupled(desc, t) && p < |t.sem| && a in desc
    ensures var q := Minus(t.q[desc[a]], {p});
            Active(Closed(desc, a, q), Left(t, desc[a], p)) == WithQueue(Active(desc, t), a, q)
    ensures Outside(Left(t, desc[a], p)) == Outside(t).(sem := t.sem[p := 0])
  {
    var h, q := desc[a], Minus(t.q[desc[a]], {p});
    var t' := Left(t, h, p);
    assert t'.q == t.q[h := q];
    hide Minus, Left;
    var l, r := Active(Closed(desc, a, q), t'), WithQueue(Active(desc, t), a, q);
    forall b
      ensures b in l <==> b in r
      ensures b in l ==> l[b] == r[b]
    {
      assert b in desc && desc[b] == h ==> b == a;
    }
  }

  /** A process that is not blocked is on no semaphore queue. */
  lemma UnblockedIsOff(desc: map<int, nat>, t: Table, p: nat)
    requires Coupled(desc, t) && p < |t.sem| && t.sem[p] == 0
    ensures forall h :: 0 <= h < |t.sem| ==> p !in t.q[h] && Minus(t.q[h], {p}) == t.q[h]
  {
    forall h | 0 <= h < |t.sem|
      ensures p !in t.q[h] && Minus(t.q[h], {p}) == t.q[h]
    {
      MinusNone(t.q[h], {p});
    }
  }

  /** What happens to the free list and the ready queue does not concern the hash. */
  lemma CoupledFrame(desc: map<int, nat>, t: Table, u: Table)
    requires Coupled(desc, t) && u.sem == t.sem && |u.q| == |t.q| && t.up <= u.up
    requires forall h :: 0 <= h < |t.sem| ==> u.q[h] == t.q[h]
    ensures Coupled(desc, u) && Active(desc, u) == Active(desc, t)
  {
    assert forall a :: a in desc ==> u.q[desc[a]] == t.q[desc[a]];
  }

  /** With a process in no queue, the nonempty queues are fewer than the descriptors. */
  lemma DescriptorsSuffice(desc: map<int, nat>, t: Table, p: nat)
    requires Coupled(desc, t) && p < |t.sem| && Nowhere(t, p)
    ensures exists h :: 0 <= h < |t.sem| && t.q[h] == []
  {
    if forall h :: 0 <= h < |t.sem| ==> t.q[h] != [] {
      var heads := seq(|t.sem|, j requires 0 <= j < |t.sem| => t.q[j][0]);
      forall j | 0 <= j < |heads|
        ensures heads[j] < |t.sem| && t.sem[heads[j]] in desc && desc[t.sem[heads[j]]] == j && heads[j] != p
      {
        assert heads[j] in t.q[j];
      }
      ElemsSize(heads);
      assert p !in Elems(heads) && Elems(heads) + {p} <= Below(|t.sem|);
      SubsetSize(Elems(heads) + {p}, Below(|t.sem|));
    }
  }

  /** `home` gives the bucket that each descriptor is chained in, or -1.  A descriptor is either
      free or in the bucket of its key, and each active semaphore has one. */
  ghost predicate Indexed(desc: map<int, nat>, keys: seq<int>, home: seq<int>, free: seq<nat>, bucketOf: int -> nat) {
    && |home| == |keys|
    && (forall j :: 0 <= j < |home| ==> (home[j] == -1 <==> j in free))
    && (forall j :: j in free ==> j < |home|)
    && (forall j :: 0 <= j < |home| && home[j] != -1 ==>
          keys[j] in desc && desc[keys[j]] == j && bucketOf(keys[j]) == home[j])
    && (forall a :: a in desc ==>
          desc[a] < |home| && keys[desc[a]] == a && home[desc[a]] == bucketOf(a))
  }

  lemma IndexedOpen(desc: map<int, nat>, keys: seq<int>, home: seq<int>, free: seq<nat>, bucketOf: int -> nat, a: int)
    requires Indexed(desc, keys, home, free, bucketOf) && NoDup(free) && free != [] && a !in desc
    ensures free[0] < |keys| && home[free[0]] == -1
    ensures forall b :: b in desc ==> desc[b] != free[0]
    ensures var j := free[0];
            Indexed(desc[a := j], keys[j := a], home[j := bucketOf(a)], free[1..], bucketOf)
  {
    var j := free[0];
    assert j in free && free == [j] + free[1..];
    forall i | i in free[1..]
      ensures i in free && i != j
    {
      var k :| 0 <= k < |free[1..]| && free[1..][k] == i;
      assert free[k + 1] == i;
    }
    assert forall b :: b in desc ==> home[desc[b]] != -1;
  }

  lemma IndexedClose(desc: map<int, nat>, keys: seq<int>, home: seq<int>, free: seq<nat>, bucketOf: int -> nat,
                     a: int, j: nat)
    requires Indexed(desc, keys, home, free, bucketOf) && a in desc && desc[a] == j
    ensures j < |home| && home[j] != -1 && j !in free
    ensures Indexed(desc - {a}, keys, home[j := -1], [j] + free, bucketOf)
  {
  }

  /** Nobody on queue `j` has PID `x`. */
  ghost predicate Absent(t: Table, j: nat, x: nat) {
    j < |t.q| ==> forall i :: i in t.q[j] && i < |t.pid| ==> t.pid[i] != x
  }

  ghost predicate Present(t: Table, j: nat, p: int, x: nat) {
    j < |t.q| && 0 <= p < |t.pid| && p in t.q[j] && t.pid[p] == x
  }

  class Ash {
    const table: ProcessTable
    const semds: seq<Semd>
    const freeLinks: Links   // s_freelink, under semdFree_h
    const hash: HashTable    // s_link, under semd_h
    const bucketOf: int -> nat
    ghost const Repr: set<object>
    ghost var desc: map<int, nat>
    ghost var keys: seq<int>

    constructor (t: ProcessTable, ss: seq<Semd>, ghost objects: set<object>, f: Links, h: HashTable,
                 bucketOf: int -> nat)
      requires forall i :: 0 <= i < |ss| ==> ss[i] in objects && ss[i].id == i && ss[i].s_key == 0
      requires f.Valid() && h.Valid() && objects !! f.Repr && objects !! h.Repr && f.Repr !! h.Repr
      requires |f.nodes| == |ss| && |f.heads| == 1 && |h.nodes| == |ss| && forall a :: bucketOf(a) < |h.buckets|
      requires f.up == {} && forall b :: 0 <= b < |h.chains| ==> h.chains[b] == []
      ensures Valid() && fresh(Repr - objects - f.Repr - h.Repr)
      ensures table == t && semds == ss && freeLinks == f && hash == h && this.bucketOf == bucketOf
    {
      table, semds, freeLinks, hash, this.bucketOf := t, ss, f, h, bucketOf;
      Repr := {this} + objects + f.Repr + h.Repr;
      desc, keys := map[], Fill(|ss|, 0);
    }

    /** The hash as the linker lays it out, over `t` and with 4096 buckets. */
    static method Allocate(t: ProcessTable, n: nat) returns (o: Ash)
      ensures o.Valid() && fresh(o.Repr) && o.table == t && |o.semds| == n
      ensures 0 !in o.freeLinks.up && o.freeLinks.lists[0] == []
    {
      var ss;
      ghost var objects;
      ss, objects := NewSemds(n);
      var f := new Links(1, n);
      var h := new HashTable(HASH_SIZE, n);
      o := new Ash(t, ss, objects, f, h, a => Hash32(a));
    }

    /** Everything that concerns the descriptors alone. */
    ghost predicate Valid()
      reads this, Repr
    {
      && {this, freeLinks, hash} <= Repr && (forall i :: 0 <= i < |semds| ==> semds[i] in Repr)
      && freeLinks.Repr <= Repr && hash.Repr <= Repr && freeLinks.Repr !! hash.Repr
      && this !in freeLinks.Repr && this !in hash.Repr
      && (forall i :: 0 <= i < |semds| ==> semds[i] !in freeLinks.Repr && semds[i] !in hash.Repr && semds[i].id == i)
      && freeLinks.Valid() && hash.Valid()
      && |freeLinks.nodes| == |semds| && |freeLinks.heads| == 1
      && |hash.nodes| == |semds| && (forall a :: bucketOf(a) < |hash.buckets|)
      && |keys| == |semds| && (forall i :: 0 <= i < |semds| ==> semds[i].s_key == keys[i])
      && (if 0 in freeLinks.up then Indexed(desc, keys, hash.home, freeLinks.lists[0], bucketOf)
          else desc == map[] && forall b :: 0 <= b < |hash.chains| ==> hash.chains[b] == [])
    }

    /** The hash and the PCB table together. */
    ghost predicate Linked()
      reads this, Repr, table, table.Repr
    {
      && Valid() && table.Valid() && table.Repr !! Repr && |table.pcbs| == |semds|
      && 0 in freeLinks.up && Coupled(desc, table.V())
    }

    ghost function Map(): map<int, seq<nat>>
      reads this, table, table.links, table.tree
    {
      Active(desc, table.V())
    }

    /** hash_for_each_possible up to the descriptor with the key: only one bucket is searched. */
    method Lookup(a: int) returns (sem: int)
      requires Valid() && 0 in freeLinks.up
      ensures sem == if a in desc then desc[a] else -1
    {
      ghost var l := hash.chains[bucketOf(a)];
      ghost var k := 0;
      var it := hash.buckets[bucketOf(a)].first;
      assert hash.Chain(bucketOf(a), l);
      if a in desc {
        hash.HomeIsChain(desc[a]);
      }
      while it != null
        invariant 0 <= k <= |l| && it == hash.After(l, k - 1)
        invariant forall j :: j in l[..k] ==> keys[j] != a
        decreases |l| - k
      {
        hash.ChainIsHome(bucketOf(a), k);
        assert it == hash.Nth(l, k);
        if semds[it.tag].s_key == a {
          return it.tag;
        }
        PrefixNext(l, k);
        it := it.next;
        k := k + 1;
      }
      assert l[..k] == l;
      sem := -1;
    }

    /** The loop of initASH: every descriptor goes to the front of the free list. */
    method FreeAll()
      requires Valid() && 0 !in freeLinks.up && freeLinks.lists[0] == []
      modifies freeLinks.Repr
      ensures freeLinks.Valid() && 0 in freeLinks.up && freeLinks.lists == [Descending(|semds|)]
    {
      freeLinks.InitHead(0);
      var i := 0;
      while i < |semds|
        invariant 0 <= i <= |semds| && freeLinks.Valid() && 0 in freeLinks.up && freeLinks.lists == [Descending(i)]
      {
        freeLinks.Add(i, 0);
        i := i + 1;
      }
    }

    /** Blocking a process that is in no queue always finds a descriptor. */
    lemma NeverOutOfDescriptors(p: nat)
      requires Linked() && p < |table.pcbs| && Nowhere(table.V(), p)
      ensures freeLinks.lists[0] != []
    {
      DescriptorsSuffice(desc, table.V(), p);
      var j :| 0 <= j < |semds| && table.V().q[j] == [];
      assert hash.home[j] == -1;
    }

    /** Free and active descriptors add up to the whole table. */
    lemma FreePlusActive()
      requires Linked()
      ensures |freeLinks.lists[0]| + |desc| == |semds|
    {
      hide Links.Valid, HashTable.Valid;
      freeLinks.ListsOk();
      var free := freeLinks.lists[0];
      ElemsSize(free);
      InjectiveSize(desc);
      forall j: nat
        ensures j in Below(|semds|) <==> j in Elems(free) + desc.Values
      {
        if j < |semds| && hash.home[j] != -1 {
          assert desc[keys[j]] in desc.Values;
        }
      }
      assert Below(|semds|) == Elems(free) + desc.Values;
      assert Elems(free) !! desc.Values;
    }

    /** initASH */
    method InitAsh()
      requires Valid() && 0 !in freeLinks.up && freeLinks.lists[0] == []
      modifies Repr
      ensures Valid() && 0 in freeLinks.up && desc == map[]
    {
      FreeAll();
      hash.Init();
      DescendingElems(|semds|);
    }

    /** headBlocked */
    method HeadBlocked(a: int) returns (p: int)
      requires Linked()
      ensures p == if a in Map() then Map()[a][0] else -1
    {
      hide Links.Valid, HashTable.Valid;
      if a == 0 {
        return -1;
      }
      var sem := Lookup(a);
      if sem == -1 {
        return -1;
      }
      p := table.HeadProcQ(sem);
    }

    /** list_first_entry and list_del on the free list. */
    method TakeFree() returns (sem: nat)
      requires freeLinks.Valid() && |freeLinks.heads| == 1 && 0 in freeLinks.up && freeLinks.lists[0] != []
      modifies freeLinks.Repr
      ensures freeLinks.Valid() && freeLinks.up == old(freeLinks.up)
      ensures sem == old(freeLinks.lists[0][0]) && freeLinks.lists == [old(freeLinks.lists[0][1..])]
    {
      HeadRemoved(freeLinks.lists, freeLinks.home, 0);
      sem := freeLinks.First(0);
      freeLinks.OnlyList(sem);
      freeLinks.Del(sem);
    }

    /** The descriptor from the front of the free list, for a key that has none. */
    method Open(a: int) returns (sem: nat)
      requires Valid() && 0 in freeLinks.up && a !in desc && freeLinks.lists[0] != []
      modifies Repr
      ensures Valid() && 0 in freeLinks.up && sem < |semds|
      ensures desc == old(desc)[a := sem] && forall b :: b in old(desc) ==> desc[b] != sem
    {
      hide Links.Valid, HashTable.Valid;
      freeLinks.ListsOk();
      IndexedOpen(desc, keys, hash.home, freeLinks.lists[0], bucketOf, a);
      sem := TakeFree();
      hash.HomeIsChain(sem);
      semds[sem].s_key := a;
      keys := keys[sem := a];
      hash.AddHead(sem, bucketOf(a));
      desc := desc[a := sem];
    }

    /** The descriptor of a key leaves its bucket for the front of the free list. */
    method Close(ghost a: int, sem: nat)
      requires Valid() && 0 in freeLinks.up && a in desc && desc[a] == sem
      modifies Repr
      ensures Valid() && 0 in freeLinks.up && desc == old(desc) - {a}
    {
      IndexedClose(desc, keys, hash.home, freeLinks.lists[0], bucketOf, a, sem);
      freeLinks.OnlyList(sem);
      hash.HomeIsChain(sem);
      hash.Del(sem);
      freeLinks.Add(sem, 0);
      desc := desc - {a};
    }

    /** The searches of hash_for_each over one bucket. */
    method SearchBucket(x: nat, b: nat) returns (p: int)
      requires Linked() && b < |hash.buckets|
      ensures p == -1 ==> forall j :: j in hash.chains[b] ==> Absent(table.V(), j, x)
      ensures p != -1 ==> exists j :: j in hash.chains[b] && Present(table.V(), j, p, x)
    {
      ghost var l := hash.chains[b];
      ghost var k := 0;
      var it := hash.buckets[b].first;
      assert hash.Chain(b, l);
      while it != null
        invariant 0 <= k <= |l| && it == hash.After(l, k - 1)
        invariant forall j :: j in l[..k] ==> Absent(table.V(), j, x)
        decreases |l| - k
      {
        hash.ChainIsHome(b, k);
        assert it == hash.Nth(l, k) && it.tag == l[k];
        p := table.SearchPcbByPid(x, it.tag);
        PrefixNext(l, k);
        if p != -1 {
          return;
        }
        it := it.next;
        k := k + 1;
      }
      assert l[..k] == l;
      p := -1;
    }

    /** findPcb: on list `h`, then on the queue of every active semaphore; -1 when on none. */
    method FindPcb(x: nat, h: nat) returns (p: int)
      requires Linked() && h < |table.V().q| && h in table.V().up
      ensures p == -1 ==> forall i :: i in table.V().q[h] ==> table.V().pid[i] != x
      ensures p == -1 ==> forall a, i :: a in Map() && i in Map()[a] ==> table.V().pid[i] != x
      ensures p != -1 ==> 0 <= p < |table.pcbs| && table.V().pid[p] == x
      ensures p != -1 ==> p in table.V().q[h] || exists a :: a in Map() && p in Map()[a]
    {
      hide Links.Valid, HashTable.Valid;
      table.QueuesApart();
      p := table.SearchPcbByPid(x, h);
      if p != -1 {
        return;
      }
      p := SearchBuckets(x);
    }

    method SearchBuckets(x: nat) returns (p: int)
      requires Linked()
      ensures p == -1 ==> forall a, i :: a in Map() && i in Map()[a] ==> table.V().pid[i] != x
      ensures p != -1 ==> 0 <= p < |table.pcbs| && table.V().pid[p] == x && exists a :: a in Map() && p in Map()[a]
    {
      hide Links.Valid, HashTable.Valid;
      hash.SameBuckets();
      var b := 0;
      while b < |hash.buckets|
        invariant 0 <= b <= |hash.buckets| == |hash.chains|
        invariant forall c, j :: 0 <= c < b && j in hash.chains[c] ==> Absent(table.V(), j, x)
      {
        p := SearchBucket(x, b);
        if p != -1 {
          ghost var j :| j in hash.chains[b] && Present(table.V(), j, p, x);
          ChainedIsActive(b, j);
          assert keys[j] in Map() && p in Map()[keys[j]];
          return;
        }
        b := b + 1;
      }
      p := -1;
      NowhereChained(x);
    }

    /** Every active descriptor is in some bucket. */
    lemma NowhereChained(x: nat)
      requires Linked() && forall c, j :: 0 <= c < |hash.chains| && j in hash.chains[c] ==> Absent(table.V(), j, x)
      ensures forall a :: a in desc ==> Absent(table.V(), desc[a], x)
    {
      hide Links.Valid, HashTable.Valid, Absent;
      forall a | a in desc
        ensures Absent(table.V(), desc[a], x)
      {
        ActiveIsChained(a);
        assert 0 <= bucketOf(a) < |hash.chains|;
      }
    }

    lemma ChainedIsActive(b: nat, j: nat)
      requires Linked() && b < |hash.buckets| && j in hash.chains[b]
      ensures j < |semds| && keys[j] in desc && desc[keys[j]] == j
      ensures forall i :: i in table.V().q[j] ==> i < |table.pcbs|
    {
      var k :| 0 <= k < |hash.chains[b]| && hash.chains[b][k] == j;
      hash.ChainIsHome(b, k);
      table.QueuesApart();
    }

    lemma ActiveIsChained(a: int)
      requires Linked() && a in desc
      ensures bucketOf(a) < |hash.chains| && desc[a] in hash.chains[bucketOf(a)]
    {
      hash.HomeIsChain(desc[a]);
    }

    /** insertBlocked, with its error codes; -1 is the NULL PCB. */
    method InsertBlocked(a: int, p: int) returns (r: int)
      requires Linked() && -1 <= p < |table.pcbs|
      requires a != 0 && p != -1 && table.V().sem[p] == 0 ==> Nowhere(table.V(), p)
      modifies Repr, table.Repr
      ensures Linked()
      ensures r == if a == 0 || p == -1 then 1
                   else if old(table.V().sem[p]) != 0 then 2
                   else if old(a !in Map() && freeLinks.lists[0] == []) then 3 else 0
      ensures r != 0 ==> table.V() == old(table.V()) && Map() == old(Map())
      ensures r == 0 ==> 0 <= p && HasJoined(old(Map()), old(table.V()), Map(), table.V(), a, p)
    {
      hide Links.Valid, HashTable.Valid;
      if a == 0 || p == -1 {
        return 1;
      }
      var semAdd := table.SemOf(p);
      if semAdd != 0 {
        return 2;
      }
      var sem := Lookup(a);
      if sem != -1 {
        r := JoinOld(a, sem, p);
        return;
      }
      var none := freeLinks.Empty(0);
      if none {
        return 3;
      }
      r := JoinNew(a, p);
    }

    /** The part of insertBlocked for a semaphore that is active already. */
    method JoinOld(a: int, sem: nat, p: nat) returns (r: int)
      requires Linked() && p < |table.pcbs| && a in desc && desc[a] == sem
      requires table.V().sem[p] == 0 && Nowhere(table.V(), p)
      modifies table.Repr
      ensures Linked() && r == 0
      ensures HasJoined(old(Map()), old(table.V()), Map(), table.V(), a, p)
    {
      hide Links.Valid, HashTable.Valid;
      CoupledJoin(desc, table.V(), sem, a, p);
      ActiveJoin(desc, table.V(), sem, a, p);
      assert desc[a := sem] == desc;
      table.JoinQueue(sem, a, p);
      r := 0;
    }

    /** The part of insertBlocked that activates a descriptor. */
    method JoinNew(a: int, p: nat) returns (r: int)
      requires Linked() && p < |table.pcbs| && a != 0 && a !in desc && freeLinks.lists[0] != []
      requires table.V().sem[p] == 0 && Nowhere(table.V(), p)
      modifies Repr, table.Repr
      ensures Linked() && r == 0
      ensures HasJoined(old(Map()), old(table.V()), Map(), table.V(), a, p)
    {
      hide Links.Valid, HashTable.Valid;
      ghost var d, t := desc, table.V();
      var sem := Open(a);
      CoupledOpen(d, t, sem, a, p);
      table.InitQueue(sem);
      table.JoinQueue(sem, a, p);
      r := 0;
    }

    /** removeBlocked */
    method RemoveBlocked(a: int) returns (p: int)
      requires Linked()
      modifies Repr, table.Repr
      ensures Linked()
      ensures old(a !in Map()) ==> p == -1 && table.V() == old(table.V()) && Map() == old(Map())
      ensures old(a in Map()) ==> p == old(Map()[a][0]) && 0 <= p < |table.pcbs|
      ensures old(a in Map()) ==> Map() == old(WithQueue(Map(), a, Map()[a][1..]))
      ensures old(a in Map()) ==> Outside(table.V()) == old(Outside(table.V()).(sem := table.V().sem[p := 0]))
    {
      hide Links.Valid, HashTable.Valid;
      if a == 0 {
        return -1;
      }
      var sem := Lookup(a);
      if sem == -1 {
        return -1;
      }
      assert table.V().q[sem][0] in table.V().q[sem];
      p := table.HeadProcQ(sem);
      table.QueuesApart();
      MinusAtHead(table.V().q[sem]);
      Leave(a, sem, p);
    }

    /** outBlocked; -1 is the NULL PCB. */
    method OutBlocked(p: int) returns (r: int)
      requires Linked() && -1 <= p < |table.pcbs|
      modifies Repr, table.Repr
      ensures Linked()
      ensures p == -1 || old(table.V().sem[p]) == 0 ==> r == -1 && table.V() == old(table.V()) && Map() == old(Map())
      ensures p != -1 && old(table.V().sem[p]) != 0 ==>
                r == p && HasLeft(old(Map()), old(table.V()), Map(), table.V(), p)
    {
      hide Links.Valid, HashTable.Valid;
      if p == -1 {
        return -1;
      }
      var a := table.SemOf(p);
      if a == 0 {
        return -1;
      }
      var sem := Lookup(a);
      if sem == -1 {
        return -1;
      }
      Leave(a, sem, p);
      r := p;
    }

    /** `p` leaves the queue of `a`, and the descriptor is released if that was the last. */
    method Leave(a: int, sem: nat, p: nat)
      requires Linked() && a in desc && desc[a] == sem && p < |table.pcbs| && p in table.V().q[sem]
      modifies Repr, table.Repr
      ensures Linked()
      ensures Map() == old(WithQueue(Map(), a, Minus(Map()[a], {p})))
      ensures Outside(table.V()) == old(Outside(table.V()).(sem := table.V().sem[p := 0]))
    {
      hide Links.Valid, HashTable.Valid, Coupled, Active, Outside, WithQueue, Minus;
      var empty := Unqueue(a, sem, p);
      if empty {
        Close(a, sem);
      }
    }

    /** outProcQ and emptyProcQ: the queue may now be empty, and the descriptor not yet released. */
    method Unqueue(ghost a: int, sem: nat, p: nat) returns (empty: bool)
      requires Linked() && a in desc && desc[a] == sem && p < |table.pcbs| && p in table.V().q[sem]
      modifies table.Repr
      ensures Valid() && table.Valid()
      ensures var desc' := if empty then desc - {a} else desc;
              Coupled(desc', table.V()) && Active(desc', table.V()) == old(WithQueue(Map(), a, Minus(Map()[a], {p})))
      ensures Outside(table.V()) == old(Outside(table.V()).(sem := table.V().sem[p := 0]))
    {
      hide Links.Valid, HashTable.Valid;
      CoupledLeave(desc, table.V(), a, p);
      ActiveLeave(desc, table.V(), a, p);
      table.LeaveQueue(sem, p);
      empty := table.EmptyProcQ(sem);
    }
  }

  lemma MinusAtHead(q: seq<nat>)
    requires NoDup(q) && q != []
    ensures Minus(q, {q[0]}) == q[1..]
  {
    MinusAt(q, 0);
  }

  lemma UnusedIsEmpty(desc: map<int, nat>, t: Table, h: nat)
    requires Coupled(desc, t) && h < |t.sem|
    ensures t.q[h] == [] || exists a :: a in desc && desc[a] == h
  {
    if t.q[h] != [] {
      assert t.q[h][0] in t.q[h];
      var a := t.sem[t.q[h][0]];
      assert a in desc && desc[a] == h;
    }
  }

  /** Blocking on a semaphore through a descriptor that was free until now. */
  lemma CoupledOpen(desc: map<int, nat>, t: Table, h: nat, a: int, p: nat)
    requires Coupled(desc, t) && a != 0 && a !in desc && p < |t.sem| && Nowhere(t, p) && t.sem[p] == 0
    requires h < |t.sem| && forall b :: b in desc ==> desc[b] != h
    ensures t.q[h] == []
    ensures var t' := Joined(t.(up := t.up + {h}), h, a, p);
            Coupled(desc[a := h], t')
            && Active(desc[a := h], t') == Active(desc, t)[a := Queue(Active(desc, t), a) + [p]]
            && Outside(t') == Outside(t).(sem := t.sem[p := a])
  {
    UnusedIsEmpty(desc, t, h);
    CoupledUp(desc, t, h);
    CoupledJoin(desc, t.(up := t.up + {h}), h, a, p);
    ActiveJoin(desc, t.(up := t.up + {h}), h, a, p);
  }

  lemma CoupledUp(desc: map<int, nat>, t: Table, h: nat)
    requires Coupled(desc, t) && h < |t.sem|
    ensures Coupled(desc, t.(up := t.up + {h}))
    ensures Active(desc, t.(up := t.up + {h})) == Active(desc, t)
    ensures Outside(t.(up := t.up + {h})) == Outside(t)
  {
  }
}
