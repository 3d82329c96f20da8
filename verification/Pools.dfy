/** The PCB table and the active semaphore hash together: where every process is. */
module Pools {
  import opened Seqs
  import opened Lists
  import opened HashLists
  import opened Trees
  import opened Processes
  import opened Ashes
  import Namespaces
  import opened KernelState
  import KernelSteps

  /** Free list, ready queue, semaphore queues, and the fields of the PCBs. */
  datatype Where = Where(
    free: seq<nat>, ready: seq<nat>, blocked: map<int, seq<nat>>,
    sem: seq<int>, tree: Tree, pid: seq<nat>, slots: seq<seq<int>>)

  function ListAt(q: seq<seq<nat>>, h: nat): seq<nat> {
    if h < |q| then q[h] else []
  }

  /** The table once the free list is full and the ready queue empty. */
  ghost function Initial(n: nat): Table {
    Table(Fill(n + 2, [])[n := Descending(n)], {n, n + 1}, Tree(Fill(n, []), Fill(n, -1), Fill(n, 0), 1), {},
          Fill(n, 0), Fill(n, 0), Fill(n, Fill(NS_TYPE_MAX, -1)))
  }

  ghost function ColdWhere(n: nat): Where {
    Where(Descending(n), [], map[], Fill(n, 0), Tree(Fill(n, []), Fill(n, -1), Fill(n, 0), 1), Fill(n, 0),
          Fill(n, Fill(NS_TYPE_MAX, -1)))
  }

  /** `p` has left the semaphore queue it was on, and nothing else has changed. */
  ghost predicate Freed(w: Where, w': Where, p: nat) {
    && p < |w.sem| && w.sem[p] in w.blocked
    && w' == w.(blocked := WithQueue(w.blocked, w.sem[p], Minus(w.blocked[w.sem[p]], {p})), sem := w.sem[p := 0])
  }

  /** `c`, the first child of `p`, has been cut off, and nothing else has changed. */
  ghost predicate FirstOff(w: Where, w': Where, p: nat, c: nat)
    requires Forest(w.tree) && p < |w.tree.kids|
  {
    w.tree.kids[p] != [] && c == w.tree.kids[p][0] && w' == w.(tree := Pruned(w.tree, {c}))
  }

  class Pool {
    const table: ProcessTable
    const ash: Ash
    ghost const Repr: set<object>

    ghost predicate Apart() {
      && Repr == {this} + table.Repr + ash.Repr
      && this !in table.Repr && this !in ash.Repr && table.Repr !! ash.Repr
      && ash.table == table && {table, table.links, table.tree} <= table.Repr && ash in ash.Repr
    }

    ghost predicate Valid()
      reads this, Repr
    {
      && Apart() && ash.Linked()
      && {table.FREE, table.READY} <= table.V().up
      && forall p: nat :: p < |table.pcbs| && p !in ListAt(table.V().q, table.FREE) ==> p in table.V().kidsUp
    }

    ghost function W(): Where
      reads this, table, table.links, table.tree, ash
    {
      Where(ListAt(table.V().q, table.FREE), ListAt(table.V().q, table.READY), Active(ash.desc, table.V()),
            table.V().sem, table.V().tree, table.V().pid, table.V().slots)
    }

    constructor (t: ProcessTable, a: Ash)
      requires t.Repr !! a.Repr && a.table == t && {t, t.links, t.tree} <= t.Repr && a in a.Repr
      ensures Apart() && table == t && ash == a && fresh(Repr - t.Repr - a.Repr)
    {
      table, ash := t, a;
      Repr := {this} + t.Repr + a.Repr;
    }

    /** initPcbs, initASH and the part of initScheduler that concerns the ready queue. */
    static method Start(n: nat) returns (o: Pool)
      ensures o.Valid() && fresh(o.Repr) && |o.table.pcbs| == n
      ensures o.W() == ColdWhere(n)
    {
      hide Links.Valid, HashTable.Valid, ProcessTable.Valid, Ash.Valid, Coupled, Active, ProcessTable.V;
      var t := StartTable(n);
      var a := StartAsh(t, n);
      o := new Pool(t, a);
      ColdTable(n);
    }

    static method StartTable(n: nat) returns (t: ProcessTable)
      ensures t.Valid() && fresh(t.Repr) && |t.pcbs| == n && {t, t.links, t.tree} <= t.Repr
      ensures t.FREE == n && t.READY == n + 1
      ensures t.V() == Initial(n)
    {
      t := ProcessTable.Allocate(n, NS_TYPE_MAX);
      hide Links.Valid;
      t.Sizes();
      t.InitPcbs();
      t.MkEmptyProcQ(t.READY);
    }

    static method StartAsh(t: ProcessTable, n: nat) returns (a: Ash)
      ensures a.Valid() && fresh(a.Repr) && a.table == t && |a.semds| == n && a in a.Repr
      ensures 0 in a.freeLinks.up && a.desc == map[]
    {
      a := Ash.Allocate(t, n);
      hide Links.Valid, HashTable.Valid;
      a.InitAsh();
    }

    lemma Sizes()
      requires Valid()
      ensures |W().sem| == |table.pcbs| && |W().pid| == |table.pcbs| && |W().slots| == |table.pcbs|
      ensures |W().tree.kids| == |table.pcbs|
    {
      table.Sizes();
    }

    lemma TableOk()
      requires Valid()
      ensures table.Valid() && table.Repr <= Repr
      ensures forall p: nat :: p < |table.pcbs| && p !in W().free ==> p in table.V().kidsUp
    {
    }

    lemma QueuesFull()
      requires Valid()
      ensures forall a :: a in W().blocked ==> W().blocked[a] != []
    {
    }

    /** insertProcQ on the ready queue. */
    method MakeReady(p: nat)
      requires Valid() && p < |table.pcbs| && p !in W().free && W().sem[p] == 0
      modifies Repr
      ensures Valid() && W() == old(W().(ready := Minus(W().ready, {p}) + [p]))
    {
      hide Links.Valid, HashTable.Valid;
      table.Sizes();
      UnblockedIsOff(ash.desc, table.V(), p);
      MinusNone(table.V().q[table.FREE], {p});
      ghost var v := table.V();
      table.InsertProcQ(table.READY, p);
      CoupledFrame(ash.desc, v, table.V());
    }

    /** removeProcQ on the ready queue. */
    method TakeReady() returns (p: int)
      requires Valid()
      modifies Repr
      ensures Valid()
      ensures old(W().ready) == [] ==> p == -1 && W() == old(W())
      ensures old(W().ready) != [] ==> p == old(W().ready[0]) && W() == old(W().(ready := W().ready[1..]))
    {
      hide Links.Valid, HashTable.Valid;
      table.Sizes();
      ghost var v := table.V();
      p := table.RemoveProcQ(table.READY);
      CoupledFrame(ash.desc, v, table.V());
    }

    /** outProcQ on the ready queue. */
    method DropReady(p: nat)
      requires Valid() && p < |table.pcbs|
      modifies Repr
      ensures Valid() && W() == old(W().(ready := Minus(W().ready, {p})))
    {
      hide Links.Valid, HashTable.Valid;
      table.Sizes();
      ghost var v := table.V();
      var r := table.OutProcQ(table.READY, p);
      CoupledFrame(ash.desc, v, table.V());
    }

    /** emptyProcQ on the ready queue. */
    method NoneReady() returns (r: bool)
      requires Valid()
      ensures r <==> W().ready == []
    {
      hide Links.Valid, HashTable.Valid;
      table.Sizes();
      r := table.EmptyProcQ(table.READY);
    }

    /** allocPcb; -1 when every PCB is in use. */
    method Alloc() returns (p: int)
      requires Valid() && Forest(W().tree)
      requires forall x :: x in W().free ==>
                 x < |table.pcbs| && W().sem[x] == 0 && W().tree.kids[x] == [] && W().tree.parent[x] == -1
      modifies Repr
      ensures Valid()
      ensures old(W().free) == [] ==> p == -1 && W() == old(W())
      ensures old(W().free) != [] ==>
                p == old(W().free[0]) && 0 <= p < |table.pcbs| &&
                W() == old(W().(free := W().free[1..], tree := Born(W().tree, W().free[0])))
    {
      hide Links.Valid, HashTable.Valid, Forest;
      table.Sizes();
      table.QueuesApart();
      ghost var v := table.V();
      assert v.q[table.FREE] != [] ==> v.q[table.FREE][0] in v.q[table.FREE];
      forall x | x in v.q[table.FREE]
        ensures table.Childless(x) && Reset(v.tree, x) == Born(v.tree, x)
      {
        NoParentNoSibling(v.tree, x);
        ResetIsBorn(v.tree, x);
      }
      p := table.AllocPcb();
      assert table.V().sem == v.sem;
      CoupledFrame(ash.desc, v, table.V());
    }

    /** freePcb of a process that is not blocked; -1 is NULL. */
    method Free(p: int)
      requires Valid() && -1 <= p < |table.pcbs| && (p != -1 ==> p !in W().free && W().sem[p] == 0)
      modifies Repr
      ensures Valid()
      ensures p == -1 ==> W() == old(W())
      ensures p != -1 ==> W() == old(W().(free := [p as nat] + W().free, ready := Minus(W().ready, {p as nat})))
    {
      hide Links.Valid, HashTable.Valid;
      table.Sizes();
      if p == -1 {
        ghost var v := table.V();
        table.FreePcb(p);
        CoupledFrame(ash.desc, v, table.V());
        return;
      }
      UnblockedIsOff(ash.desc, table.V(), p);
      MinusNone(table.V().q[table.FREE], {p});
      ghost var v := table.V();
      table.FreePcb(p);
      assert table.V().sem == v.sem;
      CoupledFrame(ash.desc, v, table.V());
    }

    lemma NowhereElse(p: nat)
      requires Valid() && p < |table.pcbs| && p !in W().free && p !in W().ready && W().sem[p] == 0
      ensures Nowhere(table.V(), p)
    {
      table.Sizes();
      UnblockedIsOff(ash.desc, table.V(), p);
      forall h | 0 <= h < |table.V().q|
        ensures p !in table.V().q[h]
      {
        if h >= |table.pcbs| {
          assert h == table.FREE || h == table.READY;
        }
      }
    }

    /** insertBlocked of a process in no queue, which never fails. */
    method Block(a: int, p: nat) returns (r: int)
      requires Valid() && a != 0 && p < |table.pcbs|
      requires p !in W().free && p !in W().ready && W().sem[p] == 0
      modifies Repr
      ensures Valid() && r == 0
      ensures W() == old(W().(blocked := W().blocked[a := Queue(W().blocked, a) + [p]], sem := W().sem[p := a]))
    {
      hide Links.Valid, HashTable.Valid;
      table.Sizes();
      NowhereElse(p);
      ash.NeverOutOfDescriptors(p);
      ghost var v := table.V();
      r := ash.InsertBlocked(a, p);
      OutsideSame(v, table.V(), v.sem[p := a]);
    }

    /** removeBlocked; -1 when nobody is blocked on `a`. */
    method WakeFirst(a: int) returns (p: int)
      requires Valid()
      modifies Repr
      ensures Valid()
      ensures old(a !in W().blocked) ==> p == -1 && W() == old(W())
      ensures old(a in W().blocked) ==>
                p == old(W().blocked[a][0]) && 0 <= p < |table.pcbs| &&
                W() == old(W()).(blocked := WithQueue(old(W().blocked), a, old(W().blocked[a][1..])),
                                 sem := old(W().sem)[p := 0])
    {
      hide Links.Valid, HashTable.Valid;
      table.Sizes();
      ghost var v := table.V();
      p := ash.RemoveBlocked(a);
      if p != -1 {
        OutsideSame(v, table.V(), v.sem[p := 0]);
      }
    }

    /** outBlocked; -1 is NULL. */
    method Unblock(p: int) returns (r: int)
      requires Valid() && -1 <= p < |table.pcbs|
      modifies Repr
      ensures Valid()
      ensures p == -1 || old(W().sem[p]) == 0 ==> r == -1 && W() == old(W())
      ensures p != -1 && old(W().sem[p]) != 0 ==> r == p && Freed(old(W()), W(), p)
    {
      hide Links.Valid, HashTable.Valid;
      table.Sizes();
      ghost var v := table.V();
      r := ash.OutBlocked(p);
      if p != -1 && v.sem[p] != 0 {
        OutsideSame(v, table.V(), v.sem[p := 0]);
      }
    }

    /** headBlocked */
    method Head(a: int) returns (p: int)
      requires Valid()
      ensures p == if a in W().blocked then W().blocked[a][0] else -1
    {
      p := ash.HeadBlocked(a);
    }

    /** Reads `p_semAdd`. */
    method SemOf(p: nat) returns (a: int)
      requires Valid() && p < |table.pcbs|
      ensures a == W().sem[p]
    {
      a := table.SemOf(p);
    }

    method SetPid(p: nat, x: nat)
      requires Valid() && p < |table.pcbs|
      modifies Repr
      ensures Valid() && W() == old(W().(pid := W().pid[p := x]))
    {
      hide Links.Valid, HashTable.Valid;
      ghost var v := table.V();
      table.SetPid(p, x);
      CoupledFrame(ash.desc, v, table.V());
    }

    /** insertChild */
    method InsertChild(prnt: nat, p: nat)
      requires Valid() && prnt < |table.pcbs| && p < |table.pcbs| && prnt !in W().free
      requires Forest(W().tree) && W().tree.parent[p] == -1 && W().tree.birth[prnt] < W().tree.birth[p]
      modifies Repr
      ensures Valid() && W() == old(W().(tree := Adopted(W().tree, prnt, p)))
    {
      hide Links.Valid, HashTable.Valid;
      table.Sizes();
      ghost var v := table.V();
      OlderOutside(v.tree, prnt, p);
      table.InsertChild(prnt, p);
      CoupledFrame(ash.desc, v, table.V());
    }

    /** outChild; -1 is NULL. */
    method OutChild(p: int)
      requires Valid() && -1 <= p < |table.pcbs| && Forest(W().tree)
      requires forall x :: x in W().free ==> x < |table.pcbs| && W().tree.kids[x] == []
      modifies Repr
      ensures Valid() && W() == if p == -1 then old(W()) else old(W().(tree := Pruned(W().tree, {p})))
    {
      hide Links.Valid, HashTable.Valid, Forest;
      table.Sizes();
      ghost var v := table.V();
      var r := table.OutChild(p);
      CoupledFrame(ash.desc, v, table.V());
    }

    /** removeChild; -1 is NULL, and when there is no child. */
    method RemoveChild(p: int) returns (c: int)
      requires Valid() && -1 <= p < |table.pcbs| && Forest(W().tree) && (p != -1 ==> p !in W().free)
      requires forall x :: x in W().free ==> x < |table.pcbs| && W().tree.kids[x] == []
      modifies Repr
      ensures Valid()
      ensures p == -1 || old(W().tree.kids[p]) == [] ==> c == -1 && W() == old(W())
      ensures p != -1 && old(W().tree.kids[p]) != [] ==> c >= 0 && FirstOff(old(W()), W(), p, c)
    {
      hide Links.Valid, HashTable.Valid, Forest;
      table.Sizes();
      ghost var v := table.V();
      c := table.RemoveChild(p);
      CoupledFrame(ash.desc, v, table.V());
    }

    /** findPcb on the ready queue and all the semaphore queues. */
    method Find(x: nat) returns (p: int)
      requires Valid()
      ensures p == -1 ==> forall i :: i in W().ready ==> W().pid[i] != x
      ensures p == -1 ==> forall a, i :: a in W().blocked && i in W().blocked[a] ==> W().pid[i] != x
      ensures p != -1 ==> 0 <= p < |table.pcbs| && W().pid[p] == x &&
                          (p in W().ready || exists a :: a in W().blocked && p in W().blocked[a])
    {
      hide Links.Valid, HashTable.Valid;
      table.Sizes();
      p := ash.FindPcb(x, table.READY);
      forall a, i | p == -1 && a in W().blocked && i in W().blocked[a]
        ensures W().pid[i] != x
      {
        assert a in ash.desc && i in table.V().q[ash.desc[a]];
      }
    }

    /** addNamespace on a process whose subtree is live; -1 is the NULL descriptor. */
    method AddNamespace(s: Namespaces.NamespaceTable, p: nat, d: int) returns (ok: bool)
      requires Valid() && s.Valid() && s.table == table && s.Repr !! Repr && Namespaces.NS_USED in s.links.up
      requires p < |table.pcbs| && Forest(W().tree) && |W().tree.kids| == |W().sem|
      requires p < |W().sem| && forall x :: x in Post(W().tree, p) ==> x !in W().free
      requires -1 <= d < |s.nsds| && SpacesOk(s.S()) && (d != -1 ==> 0 <= s.kind[d] < NS_TYPE_MAX)
      modifies Repr, s.Repr
      ensures Valid() && s.Valid() && s.links.up == old(s.links.up)
      ensures ok <==> d != -1
      ensures s.S() == if d == -1 then old(s.S()) else KernelSteps.SpaceAdded(old(s.S()), old(W().tree), p, d)
      ensures W() == old(W()).(slots := s.S().slots)
    {
      hide Links.Valid, HashTable.Valid, Namespaces.NamespaceTable.Valid, Forest, SpacesOk, KernelSteps.SpaceAdded;
      table.Sizes();
      ghost var v := table.V();
      assert forall x :: x in Post(v.tree, p) ==> x in v.kidsUp;
      ok := s.AddNamespace(p, d);
      CoupledFrame(ash.desc, v, table.V());
    }
  }

  lemma ColdTable(n: nat)
    ensures var t := Initial(n);
            Coupled(map[], t) && Active(map[], t) == map[] && ListAt(t.q, n) == Descending(n)
            && ListAt(t.q, n + 1) == []
    ensures forall j: nat :: j in Descending(n) <==> j < n
  {
    DescendingElems(n);
  }
}
