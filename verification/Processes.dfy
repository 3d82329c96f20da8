/** The PCB table of pcb.c and util.c: the free list, the process queues and the process tree. */
module Processes {
  import opened Seqs
  import opened Lists
  import opened Trees

  /** `struct pcb_t`, but for its links; pointers to PCBs are indices, with -1 for NULL. */
  class Pcb {
    const id: nat
    var p_parent: int
    var p_semAdd: int
    var p_pid: nat
    var namespaces: seq<int>

    constructor (id: nat, types: nat)
      ensures this.id == id && p_parent == -1 && p_semAdd == 0 && p_pid == 0
      ensures namespaces == Fill(types, -1)
    {
      this.id := id;
      p_parent, p_semAdd, p_pid := -1, 0, 0;
      namespaces := Fill(types, -1);
    }
  }

  /** The contents of the table: what each queue holds, the tree, the fields of the PCBs, and
      the headers initialised so far. */
  datatype Table = Table(
    q: seq<seq<nat>>, up: set<nat>, tree: Tree, kidsUp: set<nat>,
    sem: seq<int>, pid: seq<nat>, slots: seq<seq<int>>)

  /** insertProcQ: out of whatever queue holds it, then to the tail. */
  function MovedToTail(q: seq<seq<nat>>, h: nat, p: nat): (r: seq<seq<nat>>)
    requires h < |q|
    ensures |r| == |q|
    ensures r[h] == Minus(q[h], {p}) + [p]
    ensures forall g :: 0 <= g < |r| && g != h ==> r[g] == Minus(q[g], {p})
  {
    Unlinked(q, p)[h := Minus(q[h], {p}) + [p]]
  }

  ghost predicate Nowhere(t: Table, p: nat) {
    forall h :: 0 <= h < |t.q| ==> p !in t.q[h]
  }

  /** The table with `p` blocked on `a` through header `h`. */
  ghost function Joined(t: Table, h: nat, a: int, p: nat): Table
    requires h < |t.q| && p < |t.sem|
  {
    t.(q := t.q[h := t.q[h] + [p]], sem := t.sem[p := a])
  }

  /** The table with `p` off the queue under header `h`. */
  ghost function Left(t: Table, h: nat, p: nat): Table
    requires h < |t.q| && p < |t.sem|
  {
    t.(q := t.q[h := Minus(t.q[h], {p})], sem := t.sem[p := 0])
  }

  /** pcbFree_table, statically allocated. */
  method NewPcbs(n: nat, types: nat) returns (ps: seq<Pcb>, ghost objects: set<object>)
    ensures |ps| == n && fresh(objects)
    ensures forall i :: 0 <= i < |ps| ==>
              ps[i] in objects && ps[i].id == i && ps[i].p_parent == -1 && ps[i].p_semAdd == 0
              && ps[i].p_pid == 0 && ps[i].namespaces == Fill(types, -1)
  {
    ps, objects := [], {};
    while |ps| < n
      invariant |ps| <= n && fresh(objects)
      invariant forall i :: 0 <= i < |ps| ==>
                  ps[i] in objects && ps[i].id == i && ps[i].p_parent == -1 && ps[i].p_semAdd == 0
                  && ps[i].p_pid == 0 && ps[i].namespaces == Fill(types, -1)
    {
      var o := new Pcb(|ps|, types);
      ps, objects := ps + [o], objects + {o};
    }
  }

  /** PCBs are linked through `p_list` under n + 2 headers: header `j` below n is the queue of
      semaphore descriptor `j`, and then come the free list and the ready queue. */
  class ProcessTable {
    const FREE: nat
    const READY: nat
    const pcbs: seq<Pcb>
    const links: Links   // p_list
    const tree: Links    // p_sib under p_child
    ghost const Repr: set<object>
    ghost var parent: seq<int>
    ghost var sem: seq<int>
    ghost var pid: seq<nat>
    ghost var slots: seq<seq<int>>
    ghost var birth: seq<nat>
    ghost var born: nat

    ghost predicate Valid()
      reads this, Repr
    {
      && {this, links, tree} <= Repr && (forall i :: 0 <= i < |pcbs| ==> pcbs[i] in Repr)
      && links.Repr <= Repr && tree.Repr <= Repr
      && links.Repr !! tree.Repr && this !in links.Repr && this !in tree.Repr
      && (forall i :: 0 <= i < |pcbs| ==> pcbs[i] !in links.Repr && pcbs[i] !in tree.Repr && pcbs[i].id == i)
      && links.Valid() && tree.Valid()
      && |links.nodes| == |pcbs| && |links.heads| == |pcbs| + 2 && FREE == |pcbs| && READY == |pcbs| + 1
      && |tree.nodes| == |pcbs| && |tree.heads| == |pcbs|
      && |parent| == |pcbs| && |sem| == |pcbs| && |pid| == |pcbs| && |slots| == |pcbs| && |birth| == |pcbs|
      && (forall i :: 0 <= i < |pcbs| ==>
            pcbs[i].p_parent == parent[i] && pcbs[i].p_semAdd == sem[i]
            && pcbs[i].p_pid == pid[i] && pcbs[i].namespaces == slots[i])
    }

    ghost function V(): Table
      reads this, links, tree
    {
      Table(links.lists, links.up, Tree(tree.lists, parent, birth, born), tree.up, sem, pid, slots)
    }

    constructor (ps: seq<Pcb>, ghost objects: set<object>, l: Links, t: Links, types: nat)
      requires forall i :: 0 <= i < |ps| ==>
                 ps[i] in objects && ps[i].id == i && ps[i].p_parent == -1 && ps[i].p_semAdd == 0
                 && ps[i].p_pid == 0 && ps[i].namespaces == Fill(types, -1)
      requires l.Valid() && t.Valid() && objects !! l.Repr && objects !! t.Repr && l.Repr !! t.Repr
      requires |l.nodes| == |ps| && |l.heads| == |ps| + 2 && |t.nodes| == |ps| && |t.heads| == |ps|
      ensures Valid() && fresh(Repr - objects - l.Repr - t.Repr)
      ensures pcbs == ps && links == l && tree == t
      ensures parent == Fill(|ps|, -1) && sem == Fill(|ps|, 0) && pid == Fill(|ps|, 0)
      ensures slots == Fill(|ps|, Fill(types, -1)) && birth == Fill(|ps|, 0) && born == 1
    {
      pcbs, links, tree := ps, l, t;
      FREE, READY := |ps|, |ps| + 1;
      Repr := {this} + objects + l.Repr + t.Repr;
      parent, sem, pid := Fill(|ps|, -1), Fill(|ps|, 0), Fill(|ps|, 0);
      slots, birth, born := Fill(|ps|, Fill(types, -1)), Fill(|ps|, 0), 1;
    }

    /** The table as the linker lays it out: all zero, no list initialised. */
    static method Allocate(n: nat, types: nat) returns (o: ProcessTable)
      ensures o.Valid() && fresh(o.Repr) && |o.pcbs| == n
      ensures o.V() == Table(Fill(n + 2, []), {}, Tree(Fill(n, []), Fill(n, -1), Fill(n, 0), 1), {},
                             Fill(n, 0), Fill(n, 0), Fill(n, Fill(types, -1)))
    {
      var ps;
      ghost var objects;
      ps, objects := NewPcbs(n, types);
      var l := new Links(n + 2, n);
      var t := new Links(n, n);
      o := new ProcessTable(ps, objects, l, t, types);
    }

    lemma Sizes()
      requires Valid()
      ensures |V().q| == |pcbs| + 2 && FREE == |pcbs| && READY == |pcbs| + 1
      ensures |V().sem| == |pcbs| && |V().pid| == |pcbs| && |V().slots| == |pcbs|
      ensures |V().tree.kids| == |pcbs| && |V().tree.parent| == |pcbs| && |V().tree.birth| == |pcbs|
    {
    }

    /** A process is on at most one queue, once. */
    lemma QueuesApart()
      requires Valid()
      ensures forall h :: 0 <= h < |V().q| ==> NoDup(V().q[h]) && forall x :: x in V().q[h] ==> x < |pcbs|
      ensures forall g, h, x {:trigger x in V().q[g], x in V().q[h]} ::
                0 <= g < |V().q| && 0 <= h < |V().q| && x in V().q[g] && x in V().q[h] ==> g == h
    {
    }

    method SetPid(p: nat, x: nat)
      requires Valid() && p < |pcbs|
      modifies Repr
      ensures Valid() && V() == old(V().(pid := V().pid[p := x]))
    {
      pcbs[p].p_pid := x;
      pid := pid[p := x];
    }

    method SetSem(p: nat, a: int)
      requires Valid() && p < |pcbs|
      modifies Repr
      ensures Valid() && V() == old(V().(sem := V().sem[p := a]))
    {
      pcbs[p].p_semAdd := a;
      sem := sem[p := a];
    }

    /** Reads `p_pid`. */
    method PidOf(p: nat) returns (x: nat)
      requires Valid() && p < |pcbs|
      ensures |V().pid| == |pcbs| && x == V().pid[p]
    {
      x := pcbs[p].p_pid;
    }

    /** Reads `p_semAdd`. */
    method SemOf(p: nat) returns (a: int)
      requires Valid() && p < |pcbs|
      ensures a == V().sem[p]
    {
      a := pcbs[p].p_semAdd;
    }

    method SetSlot(p: nat, t: nat, d: int)
      requires Valid() && p < |pcbs| && t < |V().slots[p]|
      modifies Repr
      ensures Valid() && V() == old(V().(slots := V().slots[p := V().slots[p][t := d]]))
    {
      pcbs[p].namespaces := pcbs[p].namespaces[t := d];
      slots := slots[p := slots[p][t := d]];
    }

    /** initPcbs: every entry goes to the front of the free list. */
    method InitPcbs()
      requires Valid() && forall h :: 0 <= h < |V().q| ==> V().q[h] == []
      modifies Repr
      ensures Valid()
      ensures V() == old(V().(q := V().q[FREE := Descending(|pcbs|)], up := V().up + {FREE}))
    {
      assert V().q[FREE] == [];
      links.InitHead(FREE);
      var i := 0;
      while i < |pcbs|
        invariant 0 <= i <= |pcbs| && Valid()
        invariant V() == old(V().(q := V().q[FREE := Descending(i)], up := V().up + {FREE}))
      {
        links.Add(i, FREE);
        i := i + 1;
      }
    }

    /** A PCB in no child list, its own or another's; whatever its `p_parent` holds. */
    ghost predicate Childless(p: nat)
      reads this, tree
    {
      p < |tree.lists| && tree.lists[p] == [] && tree.Detached(p)
    }

    /** The part of resetPcb that concerns the tree; the process is new from here on. */
    method ResetTree(p: nat)
      requires Valid() && p < |pcbs| && Childless(p)
      modifies Repr
      ensures Valid() && |old(V().tree.parent)| == |old(V().tree.birth)| == |pcbs|
      ensures V() == old(V().(kidsUp := V().kidsUp + {p})).(tree := Reset(old(V().tree), p))
    {
      hide Links.Represents;
      tree.InitHead(p);
      tree.ClearNode(p);
      pcbs[p].p_parent := -1;
      parent, birth, born := parent[p := -1], birth[p := born], born + 1;
    }

    /** resetPcb of an entry that is on no list; -1 is NULL. */
    method ResetPcb(p: int)
      requires Valid() && -1 <= p < |pcbs|
      requires p != -1 ==> Childless(p) && forall h :: 0 <= h < |V().q| ==> p !in V().q[h]
      modifies Repr
      ensures Valid() && |old(V().tree.parent)| == |old(V().tree.birth)| == |pcbs|
      ensures p == -1 ==> V() == old(V())
      ensures p != -1 ==>
                V() == old(V().(kidsUp := V().kidsUp + {p as nat}, sem := V().sem[p := 0]))
                       .(tree := Reset(old(V().tree), p))
    {
      if p == -1 {
        return;
      }
      assert links.Detached(p) by {
        assert V().q == links.lists;
      }
      links.ClearNode(p);
      ResetTree(p);
      SetSem(p, 0);
    }

    /** allocPcb: the first free entry, reset; -1 when there is none. */
    method AllocPcb() returns (p: int)
      requires Valid() && FREE in V().up
      requires forall x :: x in V().q[FREE] ==> Childless(x)
      modifies Repr
      ensures Valid() && |old(V().tree.parent)| == |old(V().tree.birth)| == |pcbs|
      ensures old(V().q[FREE]) == [] ==> p == -1 && V() == old(V())
      ensures old(V().q[FREE]) != [] ==>
                p == old(V().q[FREE][0]) && 0 <= p < |pcbs| &&
                V() == old(V().(q := V().q[FREE := V().q[FREE][1..]], kidsUp := V().kidsUp + {V().q[FREE][0]},
                                sem := V().sem[V().q[FREE][0] := 0])).(tree := Reset(old(V().tree), p))
    {
      var empty := links.Empty(FREE);
      if empty {
        return -1;
      }
      ghost var q := V().q;
      p := links.First(FREE);
      assert p in q[FREE] && p in V().q[FREE] && Childless(p);
      HeadRemoved(links.lists, links.home, FREE);
      links.SafeDel(p);
      ResetPcb(p);
    }

    /** freePcb: off any list and to the front of the free list; -1 is NULL. */
    method FreePcb(p: int)
      requires Valid() && -1 <= p < |pcbs| && FREE in V().up
      modifies Repr
      ensures Valid() && (p == -1 ==> V() == old(V()))
      ensures p != -1 ==>
                V() == old(V().(q := Unlinked(V().q, p)[FREE := [p as nat] + Minus(V().q[FREE], {p})],
                                sem := V().sem[p := 0]))
    {
      if p == -1 {
        return;
      }
      links.SafeDel(p);
      SetSem(p, 0);
      links.Add(p, FREE);
    }

    /** mkEmptyProcQ of a queue that holds nothing. */
    method MkEmptyProcQ(h: nat)
      requires Valid() && h < |V().q| && V().q[h] == []
      modifies Repr
      ensures Valid() && V() == old(V().(up := V().up + {h}))
    {
      var empty := links.Empty(h);
      if !empty {
        links.InitHead(h);
      }
    }

    /** emptyProcQ */
    method EmptyProcQ(h: nat) returns (r: bool)
      requires Valid() && h < |V().q| && h in V().up
      ensures r <==> V().q[h] == []
    {
      r := links.Empty(h);
    }

    /** list_add_tail of a `p_list` that is on no list, and the store of `p_semAdd`. */
    method JoinQueue(h: nat, a: int, p: nat)
      requires Valid() && p < |pcbs| && h < |V().q| && h in V().up && Nowhere(V(), p)
      modifies Repr
      ensures Valid() && V() == Joined(old(V()), h, a, p)
    {
      links.AddTail(p, h);
      SetSem(p, a);
    }

    /** list_del of a `p_list` that is on list `h`, and `p_semAdd` becomes NULL. */
    method LeaveQueue(h: nat, p: nat)
      requires Valid() && p < |pcbs| && h < |V().q| && p in V().q[h]
      modifies Repr
      ensures Valid() && V() == Left(old(V()), h, p)
    {
      ghost var k :| 0 <= k < |links.lists[h]| && links.lists[h][k] == p;
      UnlinkedAt(links.lists, links.home, h, k);
      links.Del(p);
      SetSem(p, 0);
    }

    /** INIT_LIST_HEAD of a queue that holds nothing. */
    method InitQueue(h: nat)
      requires Valid() && h < |V().q| && V().q[h] == []
      modifies Repr
      ensures Valid() && V() == old(V().(up := V().up + {h}))
    {
      links.InitHead(h);
    }

    /** insertProcQ; -1 is a NULL process or a NULL header. */
    method InsertProcQ(h: int, p: int)
      requires Valid() && -1 <= p < |pcbs| && -1 <= h < |V().q| && (h != -1 ==> h in V().up)
      modifies Repr
      ensures Valid()
      ensures V() == if p == -1 || h == -1 then old(V()) else old(V().(q := MovedToTail(V().q, h, p)))
    {
      if p == -1 || h == -1 {
        return;
      }
      links.SafeDel(p);
      links.AddTail(p, h);
    }

    /** headProcQ */
    method HeadProcQ(h: nat) returns (p: int)
      requires Valid() && h < |V().q| && h in V().up
      ensures p == if V().q[h] == [] then -1 else V().q[h][0]
    {
      var empty := links.Empty(h);
      if empty {
        return -1;
      }
      p := links.First(h);
    }

    /** outProcQ: `p` leaves queue `h` if it is on it; -1 is NULL. */
    method OutProcQ(h: nat, p: int) returns (r: int)
      requires Valid() && -1 <= p < |pcbs| && h < |V().q| && h in V().up
      modifies Repr
      ensures Valid() && V() == if p == -1 then old(V()) else old(V().(q := V().q[h := Minus(V().q[h], {p})]))
      ensures r == if p != -1 && p in old(V().q[h]) then p else -1
    {
      var found := links.Contains(p, h);
      if !found {
        if p != -1 {
          MinusNone(V().q[h], {p});
        }
        return -1;
      }
      ghost var k :| 0 <= k < |links.lists[h]| && links.lists[h][k] == p;
      UnlinkedAt(links.lists, links.home, h, k);
      links.SafeDel(p);
      r := p;
    }

    /** removeProcQ */
    method RemoveProcQ(h: nat) returns (p: int)
      requires Valid() && h < |V().q| && h in V().up
      modifies Repr
      ensures Valid()
      ensures old(V().q[h]) == [] ==> p == -1 && V() == old(V())
      ensures old(V().q[h]) != [] ==>
                p == old(V().q[h][0]) && V() == old(V().(q := V().q[h := V().q[h][1..]]))
    {
      var empty := links.Empty(h);
      if empty {
        return -1;
      }
      var first := links.First(h);
      HeadRemoved(links.lists, links.home, h);
      assert first in V().q[h];
      p := OutProcQ(h, first);
    }

    /** searchPcbByPid: the first on the queue with that PID, or -1. */
    method SearchPcbByPid(x: nat, h: nat) returns (p: int)
      requires Valid() && h < |V().q| && h in V().up
      ensures p == -1 ==> forall i :: i in V().q[h] ==> V().pid[i] != x
      ensures p != -1 ==> p in V().q[h] && V().pid[p] == x
      ensures p != -1 ==> exists k :: 0 <= k < |V().q[h]| && V().q[h][k] == p &&
                                      forall i :: i in V().q[h][..k] ==> V().pid[i] != x
    {
      ghost var l := links.lists[h];
      ghost var k := 1;
      assert links.At(h, l, 0) == links.heads[h] && links.At(h, l, 1) == links.heads[h].next;
      var tmp := links.heads[h].next;
      while tmp != links.heads[h]
        invariant 1 <= k <= |l| + 1 && tmp == links.At(h, l, k)
        invariant forall i :: i in l[..k - 1] ==> pid[i] != x
        decreases |l| - k
      {
        assert tmp.tag == l[k - 1];
        if pcbs[tmp.tag].p_pid == x {
          return tmp.tag;
        }
        assert l[..k] == l[..k - 1] + [l[k - 1]];
        assert tmp.next == links.At(h, l, k + 1);
        tmp := tmp.next;
        k := k + 1;
      }
      assert l[..k - 1] == l;
      p := -1;
    }

    /** emptyChild, which is false of NULL. */
    method EmptyChild(p: int) returns (r: bool)
      requires Valid() && -1 <= p < |pcbs| && (p != -1 ==> p in V().kidsUp)
      ensures r <==> p != -1 && V().tree.kids[p] == []
    {
      if p == -1 {
        return false;
      }
      r := tree.Empty(p);
    }

    /** insertChild of a process without parent, under any process outside its subtree; -1 is NULL. */
    method InsertChild(prnt: int, p: int)
      requires Valid() && -1 <= prnt < |pcbs| && -1 <= p < |pcbs| && Forest(V().tree)
      requires prnt != -1 && p != -1 ==> prnt in V().kidsUp && V().tree.parent[p] == -1 && !Within(V().tree, prnt, p)
      modifies Repr
      ensures Valid()
      ensures V() == if prnt == -1 || p == -1 then old(V()) else old(V().(tree := Attached(V().tree, prnt, p)))
    {
      if prnt == -1 || p == -1 {
        return;
      }
      hide Links.Valid;
      Sizes();
      NoParentNoSibling(V().tree, p);
      ghost var t := Attached(V().tree, prnt, p);
      pcbs[p].p_parent := prnt;
      parent, birth, born := parent[p := prnt], t.birth, t.born;
      tree.AddTail(p, prnt);
    }

    /** The stores of outChild. */
    method LeaveParent(p: nat, ghost q: nat)
      requires Valid() && p < |pcbs| && q < |pcbs| && p in V().tree.kids[q]
      modifies Repr
      ensures Valid()
      ensures V() == old(V().(tree := V().tree.(kids := Unlinked(V().tree.kids, p),
                                                parent := V().tree.parent[p := -1])))
    {
      tree.Del(p);
      pcbs[p].p_parent := -1;
      parent := parent[p := -1];
    }

    /** outChild: `p` leaves its parent, if it has one; -1 is NULL. */
    method OutChild(p: int) returns (r: int)
      requires Valid() && -1 <= p < |pcbs| && Forest(V().tree)
      requires forall q, c :: 0 <= q < |pcbs| && c in V().tree.kids[q] ==> q in V().kidsUp
      modifies Repr
      ensures Valid() && V() == if p == -1 then old(V()) else old(V().(tree := Pruned(V().tree, {p})))
      ensures r == if p == -1 || old(V().tree.parent[p]) == -1 then -1 else p
    {
      if p == -1 {
        return -1;
      }
      PrunedOne(V().tree, p);
      if pcbs[p].p_parent == -1 {
        return -1;
      }
      assert p in V().tree.kids[parent[p]];
      var empty := tree.Empty(pcbs[p].p_parent);
      if empty {
        return -1;
      }
      LeaveParent(p, parent[p]);
      r := p;
    }

    /** removeChild: the first child, or -1; -1 is NULL. */
    method RemoveChild(p: int) returns (c: int)
      requires Valid() && -1 <= p < |pcbs| && Forest(V().tree) && (p != -1 ==> p in V().kidsUp)
      requires forall q, c :: 0 <= q < |pcbs| && c in V().tree.kids[q] ==> q in V().kidsUp
      modifies Repr
      ensures Valid()
      ensures p == -1 || old(V().tree.kids[p]) == [] ==> c == -1 && V() == old(V())
      ensures p != -1 && old(V().tree.kids[p]) != [] ==>
                c == old(V().tree.kids[p][0]) && V() == old(V().(tree := Pruned(V().tree, {V().tree.kids[p][0]})))
    {
      var empty := EmptyChild(p);
      if empty || p == -1 {
        return -1;
      }
      assert V().tree.kids[p][0] in V().tree.kids[p];
      var first := tree.First(p);
      c := OutChild(first);
    }
  }

  /** Moving a process to the tail twice is moving it once. */
  lemma MoveIsIdempotent(q: seq<seq<nat>>, h: nat, p: nat)
    requires h < |q|
    ensures MovedToTail(MovedToTail(q, h, p), h, p) == MovedToTail(q, h, p)
  {
    var r := MovedToTail(q, h, p);
    forall g | 0 <= g < |q|
      ensures Minus(r[g], {p}) == Minus(q[g], {p})
    {
      MinusMinus(q[g], {p}, {p});
      if g == h {
        MinusAppend(Minus(q[h], {p}), [p], {p});
      }
      assert {p} + {p} == {p};
    }
  }
}
