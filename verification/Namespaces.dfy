/** The namespace descriptors of ns.c and their propagation over the process tree. */
module Namespaces {
  import opened Seqs
  import opened Lists
  import opened Trees
  import opened Processes
  import opened KernelState
  import opened KernelSteps
  import Machine

  /** `struct nsd_t`, but for its link. */
  class Nsd {
    const id: nat
    var n_type: int

    constructor (id: nat)
      ensures this.id == id && n_type == 0
    {
      this.id := id;
      n_type := 0;
    }
  }

  /** PID_nsd, statically allocated. */
  method NewNsds(n: nat) returns (ns: seq<Nsd>, ghost objects: set<object>)
    ensures |ns| == n && fresh(objects)
    ensures forall i :: 0 <= i < |ns| ==> ns[i] in objects && ns[i].id == i && ns[i].n_type == 0
  {
    ns, objects := [], {};
    while |ns| < n
      invariant |ns| <= n && fresh(objects)
      invariant forall i :: 0 <= i < |ns| ==> ns[i] in objects && ns[i].id == i && ns[i].n_type == 0
    {
      var o := new Nsd(|ns|);
      ns, objects := ns + [o], objects + {o};
    }
  }

  const NS_FREE := 0
  const NS_USED := 1

  /** The slots once descriptor `d` fills slot `t` of the processes in `ps`. */
  ghost function Painted(slots: seq<seq<int>>, ps: set<nat>, t: nat, d: int): (r: seq<seq<int>>)
    requires forall q :: 0 <= q < |slots| ==> t < |slots[q]|
    ensures |r| == |slots| && forall q :: 0 <= q < |r| ==> |r[q]| == |slots[q]|
  {
    seq(|slots|, q requires 0 <= q < |slots| && t < |slots[q]| => if q in ps then slots[q][t := d] else slots[q])
  }

  lemma PaintedTwice(slots: seq<seq<int>>, a: set<nat>, b: set<nat>, t: nat, d: int)
    requires forall q :: 0 <= q < |slots| ==> t < |slots[q]|
    ensures Painted(Painted(slots, a, t, d), b, t, d) == Painted(slots, a + b, t, d)
  {
    assert forall q :: 0 <= q < |slots| ==> slots[q][t := d][t := d] == slots[q][t := d];
  }

  lemma PaintedOne(slots: seq<seq<int>>, p: nat, t: nat, d: int)
    requires p < |slots| && forall q :: 0 <= q < |slots| ==> t < |slots[q]|
    ensures Painted(slots, {p}, t, d) == slots[p := slots[p][t := d]]
  {
  }

  lemma PaintedNone(slots: seq<seq<int>>, t: nat, d: int)
    requires forall q :: 0 <= q < |slots| ==> t < |slots[q]|
    ensures Painted(slots, {}, t, d) == slots
  {
  }

  /** Painting the postorder of a subtree is what addNamespace promises. */
  lemma PaintedSubtree(s: Spaces, t: Tree, p: nat, d: nat)
    requires Forest(t) && p < |t.kids| == |s.slots| && d < |s.kind|
    requires 0 <= s.kind[d] && forall q :: 0 <= q < |s.slots| ==> s.kind[d] < |s.slots[q]|
    ensures SpaceAdded(s, t, p, d) ==
            s.(slots := Painted(s.slots, Elems(Post(t, p)), s.kind[d], d), free := Minus(s.free, {d}),
               used := Minus(s.used, {d}) + [d])
  {
    forall q | 0 <= q < |s.slots|
      ensures q in Post(t, p) <==> Within(t, q, p)
    {
      PostIsSubtree(t, p, q);
    }
  }

  const NS_PID := 0

  /** Those of the processes `cs` whose PID namespace is `d`, in order. */
  function KidsInSpace(s: Spaces, cs: seq<nat>, d: int, nullWord: int): (r: seq<nat>)
    requires SpacesOk(s) && forall i :: 0 <= i < |cs| ==> cs[i] < |s.slots|
    ensures forall x :: x in r <==> x in cs && Space(s, x, NS_PID, 0, nullWord) == d
    ensures forall i :: 0 <= i < |r| ==> r[i] < |s.slots|
    ensures |r| <= |cs|
  {
    if cs == [] then []
    else (if Space(s, cs[0], NS_PID, 0, nullWord) == d then [cs[0]] else []) + KidsInSpace(s, cs[1..], d, nullWord)
  }

  lemma {:induction false} KidsInSpaceAppend(s: Spaces, a: seq<nat>, b: seq<nat>, d: int, nullWord: int)
    requires SpacesOk(s) && forall i :: 0 <= i < |a + b| ==> (a + b)[i] < |s.slots|
    requires (forall i :: 0 <= i < |a| ==> a[i] < |s.slots|) && forall i :: 0 <= i < |b| ==> b[i] < |s.slots|
    ensures KidsInSpace(s, a + b, d, nullWord) == KidsInSpace(s, a, d, nullWord) + KidsInSpace(s, b, d, nullWord)
  {
    if a == [] {
      assert a + b == b;
    } else {
      assert (a + b)[1..] == a[1..] + b;
      KidsInSpaceAppend(s, a[1..], b, d, nullWord);
    }
  }

  lemma KidsInSpaceNext(s: Spaces, l: seq<nat>, k: nat, d: int, nullWord: int)
    requires SpacesOk(s) && k < |l| && forall i :: 0 <= i < |l| ==> l[i] < |s.slots|
    ensures KidsInSpace(s, l[..k + 1], d, nullWord) ==
            KidsInSpace(s, l[..k], d, nullWord) + if Space(s, l[k], NS_PID, 0, nullWord) == d then [l[k]] else []
  {
    assert l[..k + 1] == l[..k] + [l[k]];
    KidsInSpaceAppend(s, l[..k], [l[k]], d, nullWord);
    assert [l[k]][1..] == [];
  }

  /** The children of `p` in the PID namespace of `p`, in the order in which they were created. */
  function SpaceKids(s: Spaces, t: Tree, p: nat, nullWord: int): (r: seq<nat>)
    requires SpacesOk(s) && p < |t.kids| && p < |s.slots|
             && forall i :: 0 <= i < |t.kids[p]| ==> t.kids[p][i] < |s.slots|
    ensures forall i :: 0 <= i < |r| ==> r[i] < |s.slots|
  {
    KidsInSpace(s, t.kids[p], Space(s, p, NS_PID, 0, nullWord), nullWord)
  }

  /** The PIDs of some processes, as C ints. */
  function Pids(pid: seq<nat>, ps: seq<nat>): (r: seq<int>)
    requires forall i :: 0 <= i < |ps| ==> ps[i] < |pid|
  {
    seq(|ps|, i requires 0 <= i < |ps| => Machine.Signed(pid[ps[i]]))
  }

  lemma PidsNext(pid: seq<nat>, ps: seq<nat>, p: nat)
    requires p < |pid| && forall i :: 0 <= i < |ps| ==> ps[i] < |pid|
    ensures forall i :: 0 <= i < |ps + [p]| ==> (ps + [p])[i] < |pid|
    ensures Pids(pid, ps + [p]) == Pids(pid, ps) + [Machine.Signed(pid[p])]
  {
  }

  /** The cells of an array after as many of `xs` as fit in `size` have been written to its start. */
  function Written(before: seq<int>, xs: seq<int>, size: int): (r: seq<int>)
    ensures |r| == |before|
    ensures forall i :: 0 <= i < |r| ==> r[i] == if i < size && i < |xs| then xs[i] else before[i]
  {
    seq(|before|, i requires 0 <= i < |before| => if i < size && i < |xs| then xs[i] else before[i])
  }

  lemma WrittenNext(before: seq<int>, xs: seq<int>, x: int, size: int)
    requires size <= |before|
    ensures |xs| < size ==> Written(before, xs + [x], size) == Written(before, xs, size)[|xs| := x]
    ensures |xs| >= size ==> Written(before, xs + [x], size) == Written(before, xs, size)
  {
  }

  /** Cell by cell: the PID of a process as an int, or what was there. */
  lemma CellsWritten(before: seq<int>, pid: seq<nat>, ps: seq<nat>, size: int, i: nat)
    requires (forall j :: 0 <= j < |ps| ==> ps[j] < |pid|) && i < |before|
    ensures var cell := Written(before, Pids(pid, ps), size)[i];
            if i < size && i < |ps| then
              cell % Machine.WORD == pid[ps[i]] % Machine.WORD && -0x8000_0000 <= cell < 0x8000_0000
            else cell == before[i]
  {
  }

  /** The cells and the count after the first `k` children of a list. */
  function Taken(s: Spaces, pid: seq<nat>, l: seq<nat>, k: nat, d: int, nullWord: int, before: seq<int>,
                 size: int): (seq<int>, nat)
    requires SpacesOk(s) && |pid| == |s.slots| && k <= |l| && forall i :: 0 <= i < |l| ==> l[i] < |s.slots|
  {
    var kids := KidsInSpace(s, l[..k], d, nullWord);
    (Written(before, Pids(pid, kids), size), |kids|)
  }

  lemma TakenNone(s: Spaces, pid: seq<nat>, l: seq<nat>, d: int, nullWord: int, before: seq<int>, size: int)
    requires SpacesOk(s) && |pid| == |s.slots| && forall i :: 0 <= i < |l| ==> l[i] < |s.slots|
    ensures Taken(s, pid, l, 0, d, nullWord, before, size) == (before, 0)
  {
    assert l[..0] == [];
    assert Written(before, [], size) == before;
  }

  lemma TakenAll(s: Spaces, pid: seq<nat>, l: seq<nat>, d: int, nullWord: int, before: seq<int>, size: int)
    requires SpacesOk(s) && |pid| == |s.slots| && forall i :: 0 <= i < |l| ==> l[i] < |s.slots|
    ensures var kids := KidsInSpace(s, l, d, nullWord);
            Taken(s, pid, l, |l|, d, nullWord, before, size) == (Written(before, Pids(pid, kids), size), |kids|)
  {
    assert l[..|l|] == l;
  }

  lemma TakenNext(s: Spaces, pid: seq<nat>, l: seq<nat>, k: nat, d: int, nullWord: int, before: seq<int>, size: int)
    requires SpacesOk(s) && |pid| == |s.slots| && k < |l|
             && (forall i :: 0 <= i < |l| ==> l[i] < |s.slots|) && size <= |before|
    ensures var (cells, n) := Taken(s, pid, l, k, d, nullWord, before, size);
            |cells| == |before| &&
            Taken(s, pid, l, k + 1, d, nullWord, before, size) ==
            if Space(s, l[k], NS_PID, 0, nullWord) != d then (cells, n)
            else (if n < size then cells[n := Machine.Signed(pid[l[k]])] else cells, n + 1)
  {
    var kids := KidsInSpace(s, l[..k], d, nullWord);
    KidsInSpaceNext(s, l, k, d, nullWord);
    PidsWritten(before, pid, kids, l[k], size);
    hide KidsInSpace, Written, Pids, Space, SpacesOk;
    assert kids + [] == kids;
  }

  lemma PidsWritten(before: seq<int>, pid: seq<nat>, ps: seq<nat>, p: nat, size: int)
    requires p < |pid| && (forall i :: 0 <= i < |ps| ==> ps[i] < |pid|) && size <= |before|
    ensures forall i :: 0 <= i < |ps + [p]| ==> (ps + [p])[i] < |pid|
    ensures var cells := Written(before, Pids(pid, ps), size);
            Written(before, Pids(pid, ps + [p]), size) ==
            if |ps| < size then cells[|ps| := Machine.Signed(pid[p])] else cells
  {
    PidsNext(pid, ps, p);
    WrittenNext(before, Pids(pid, ps), Machine.Signed(pid[p]), size);
  }

  lemma KidsAreEntries(t: Tree, p: nat)
    requires Forest(t) && p < |t.kids|
    ensures forall i :: 0 <= i < |t.kids[p]| ==> t.kids[p][i] < |t.kids|
  {
    forall i | 0 <= i < |t.kids[p]|
      ensures t.kids[p][i] < |t.kids|
    {
      assert t.kids[p][i] in t.kids[p];
    }
  }

  class NamespaceTable {
    const table: ProcessTable
    const nsds: seq<Nsd>
    const links: Links   // n_link, under PID_nsFree_h and PID_nsList_h
    ghost const Repr: set<object>
    ghost var kind: seq<int>

    ghost predicate Valid()
      reads this, Repr
    {
      && {this, links} <= Repr && (forall i :: 0 <= i < |nsds| ==> nsds[i] in Repr)
      && links.Repr <= Repr && this !in links.Repr && table !in Repr
      && (forall i :: 0 <= i < |nsds| ==> nsds[i] !in links.Repr && nsds[i].id == i)
      && links.Valid() && |links.nodes| == |nsds| && |links.heads| == 2
      && |kind| == |nsds| && (forall i :: 0 <= i < |nsds| ==> nsds[i].n_type == kind[i])
    }

    ghost function S(): Spaces
      reads this, links, table
    {
      Spaces(table.slots, kind,
             if |links.lists| == 2 then links.lists[NS_FREE] else [],
             if |links.lists| == 2 then links.lists[NS_USED] else [])
    }

    constructor (t: ProcessTable, ns: seq<Nsd>, ghost objects: set<object>, l: Links)
      requires forall i :: 0 <= i < |ns| ==> ns[i] in objects && ns[i].id == i && ns[i].n_type == 0
      requires t !in objects && t !in l.Repr && l.Valid() && objects !! l.Repr && |l.nodes| == |ns| && |l.heads| == 2
      ensures Valid() && fresh(Repr - objects - l.Repr)
      ensures table == t && nsds == ns && links == l && kind == Fill(|ns|, 0)
    {
      table, nsds, links := t, ns, l;
      Repr := {this} + objects + l.Repr;
      kind := Fill(|ns|, 0);
    }

    /** PID_nsd and its two lists, statically allocated. */
    static method Allocate(t: ProcessTable, n: nat) returns (o: NamespaceTable)
      ensures o.Valid() && fresh(o.Repr) && o.table == t && |o.nsds| == n && o.kind == Fill(n, 0)
      ensures o.links.lists == [[], []] && o.links.up == {}
    {
      var ns;
      ghost var objects;
      ns, objects := NewNsds(n);
      var l := new Links(2, n);
      o := new NamespaceTable(t, ns, objects, l);
      assert Fill<seq<nat>>(2, []) == [[], []];
    }

    /** setAllChildNamespace: the slot of every proper descendant of `p`. */
    method SetAllChildNamespace(p: nat, t: nat, d: int)
      requires table.Valid() && p < |table.pcbs| && Forest(table.V().tree)
      requires forall x :: x in Post(table.V().tree, p) ==> x in table.V().kidsUp
      requires forall q :: 0 <= q < |table.pcbs| ==> t < |table.V().slots[q]|
      modifies table.Repr
      ensures table.Valid()
      ensures table.V() == old(table.V().(slots := Painted(table.V().slots,
                Elems(PostAll(table.V().tree, table.V().tree.kids[p], table.V().tree.birth[p])), t, d)))
      decreases table.V().tree.born - table.V().tree.birth[p]
    {
      hide Links.Valid, Painted, PaintedKids, PostAll, Forest;
      table.tree.ListsOk();
      table.Sizes();
      ghost var v := table.V();
      ghost var l := v.tree.kids[p];
      ghost var k := 0;
      assert p in Post(v.tree, p);
      PaintedKidsEnds(v.slots, v.tree, p, t, d);
      var child := table.tree.Next(table.tree.heads[p], p, 0);
      while child != table.tree.heads[p]
        invariant 0 <= k <= |l| && child == table.tree.At(p, l, k + 1)
        invariant child == table.tree.heads[p] <==> k == |l|
        invariant k < |l| ==> child.tag == l[k]
        invariant table.Valid() && table.V() == v.(slots := PaintedKids(v.slots, v.tree, p, k, t, d))
        decreases |l| - k
      {
        SubtreeOf(v.tree, p, k);
        PaintedChild(v.slots, v.tree, p, k, t, d);
        table.SetSlot(child.tag, t, d);
        SetAllChildNamespace(child.tag, t, d);
        child := table.tree.Next(child, p, k + 1);
        k := k + 1;
      }
    }

    /** initNamespaces */
    method InitNamespaces()
      requires Valid() && links.lists == [[], []]
      modifies Repr
      ensures Valid() && links.up == {NS_FREE, NS_USED} + old(links.up) && kind == old(kind)
      ensures links.lists == [Ascending(|nsds|), []]
    {
      hide Links.Represents;
      links.InitHead(NS_FREE);
      links.InitHead(NS_USED);
      var i := 0;
      while i < |nsds|
        invariant 0 <= i <= |nsds| && Valid() && kind == old(kind)
        invariant links.up == {NS_FREE, NS_USED} + old(links.up)
        invariant links.lists == [Ascending(i), []]
      {
        links.AddTail(i, NS_FREE);
        i := i + 1;
      }
    }

    /** getNamespace; `nullWord` is what a read through a NULL slot sees. */
    method GetNamespace(p: nat, t: int, nullWord: int) returns (d: int)
      requires Valid() && table.Valid() && p < |table.pcbs| && SpacesOk(S())
      ensures d == Space(S(), p, t, 0, nullWord)
    {
      var i := 0;
      while i < NS_TYPE_MAX
        invariant 0 <= i <= NS_TYPE_MAX
        invariant Space(S(), p, t, 0, nullWord) == Space(S(), p, t, i, nullWord)
      {
        var ns := table.pcbs[p].namespaces[i];
        var n_type := if ns == -1 then nullWord else nsds[ns].n_type;
        if n_type == t {
          return ns;
        }
        i := i + 1;
      }
      d := -1;
    }

    /** One child: its PID goes to the next cell if it is in the namespace and there is a cell. */
    method TakeChild(child: nat, nsd: int, nullWord: int, children: array<int>, size: int, count: nat) returns (n: nat)
      requires Valid() && table.Valid() && table.tree.Valid() && SpacesOk(S())
               && child < |table.pcbs| == |S().slots| == |table.V().pid|
      requires children !in Repr && children !in table.Repr && children !in table.tree.Repr && size <= children.Length
      modifies children
      ensures Valid() && table.Valid() && table.tree.Valid() && S() == old(S()) && table.V() == old(table.V())
      ensures Space(S(), child, NS_PID, 0, nullWord) != nsd ==> n == count && children[..] == old(children[..])
      ensures Space(S(), child, NS_PID, 0, nullWord) == nsd ==> n == count + 1
      ensures Space(S(), child, NS_PID, 0, nullWord) == nsd ==>
                children[..] == if count < size then old(children[..])[count := Machine.Signed(table.V().pid[child])]
                                else old(children[..])
    {
      hide Links.Valid, SpacesOk;
      n := count;
      var space := GetNamespace(child, NS_PID, nullWord);
      if nsd == space {
        var pid := table.PidOf(child);
        if n < size {
          children[n] := Machine.Signed(pid);
        }
        n := n + 1;
      }
    }

    /** The loop of getChildren over the children `l` of `p`. */
    method EachChild(p: nat, ghost l: seq<nat>, nsd: int, nullWord: int, children: array<int>, size: int)
      returns (n: nat)
      requires Valid() && table.Valid() && table.tree.Valid() && SpacesOk(S())
               && |S().slots| == |table.pcbs| == |table.V().pid|
      requires p < |table.tree.heads| == |table.tree.lists| && p in table.tree.up && table.tree.lists[p] == l
               && table.tree.InTable(p, l)
      requires forall i :: 0 <= i < |l| ==> l[i] < |table.pcbs|
      requires children !in Repr && children !in table.Repr && children !in table.tree.Repr && size <= children.Length
      modifies children
      ensures (children[..], n) == Taken(S(), table.V().pid, l, |l|, nsd, nullWord, old(children[..]), size)
    {
      hide ProcessTable.Valid, Valid, SpacesOk, S, ProcessTable.V, Taken, Links.Valid;
      ghost var s, pid, before := S(), table.V().pid, children[..];
      ghost var k := 0;
      TakenNone(s, pid, l, nsd, nullWord, before, size);
      n := 0;
      var child := table.tree.Next(table.tree.heads[p], p, 0);
      while child != table.tree.heads[p]
        invariant 0 <= k <= |l| && child == table.tree.At(p, l, k + 1)
        invariant child == table.tree.heads[p] <==> k == |l|
        invariant k < |l| ==> child.tag == l[k]
        invariant Valid() && table.Valid() && table.tree.Valid() && S() == s && table.V().pid == pid
        invariant (children[..], n) == Taken(s, pid, l, k, nsd, nullWord, before, size)
        decreases |l| - k
      {
        TakenNext(s, pid, l, k, nsd, nullWord, before, size);
        n := TakeChild(child.tag, nsd, nullWord, children, size, n);
        child := table.tree.Next(child, p, k + 1);
        k := k + 1;
      }
    }

    /** getChildren: the PIDs of the children of `p` in the namespace of `p`, as many as fit, and how
        many there are. */
    method GetChildren(p: nat, nullWord: int, children: array<int>, size: int) returns (n: nat)
      requires Valid() && table.Valid() && SpacesOk(S()) && |S().slots| == |table.pcbs|
      requires p < |table.pcbs| && p in table.V().kidsUp && Forest(table.V().tree)
      requires children !in Repr && children !in table.Repr && size <= children.Length
      modifies children
      ensures n == |SpaceKids(S(), table.V().tree, p, nullWord)|
      ensures children[..] == Written(old(children[..]),
                                      Pids(table.V().pid, SpaceKids(S(), table.V().tree, p, nullWord)), size)
    {
      hide Links.Valid, Forest, SpacesOk;
      table.Sizes();
      KidsAreEntries(table.V().tree, p);
      ghost var l := table.V().tree.kids[p];
      var nsd := GetNamespace(p, NS_PID, nullWord);
      TakenAll(S(), table.V().pid, l, nsd, nullWord, children[..], size);
      var empty := table.EmptyChild(p);
      if empty {
        assert Written(children[..], [], size) == children[..];
        return 0;
      }
      n := EachChild(p, l, nsd, nullWord, children, size);
    }

    /** The slot of `p` and of all its descendants. */
    method PaintSubtree(p: nat, t: nat, d: int)
      requires table.Valid() && p < |table.pcbs| && Forest(table.V().tree)
      requires forall x :: x in Post(table.V().tree, p) ==> x in table.V().kidsUp
      requires forall q :: 0 <= q < |table.pcbs| ==> t < |table.V().slots[q]|
      modifies table.Repr
      ensures table.Valid()
      ensures table.V() == old(table.V().(slots := Painted(table.V().slots, Elems(Post(table.V().tree, p)), t, d)))
    {
      hide Links.Valid;
      PaintedAll(table.V().slots, table.V().tree, p, t, d);
      table.SetSlot(p, t, d);
      SetAllChildNamespace(p, t, d);
    }

    /** list_safe_del and list_add_tail of a descriptor. */
    method Move(d: nat, h: nat)
      requires Valid() && d < |nsds| && h < 2 && h in links.up
      modifies Repr
      ensures Valid() && links.up == old(links.up) && kind == old(kind)
      ensures links.lists == old(MovedToTail(links.lists, h, d))
    {
      hide Links.Valid;
      links.ListsOk();
      links.SafeDel(d);
      links.ListsOk();
      links.AddTail(d, h);
    }

    /** addNamespace; -1 is the NULL process or descriptor. */
    method AddNamespace(p: int, d: int) returns (ok: bool)
      requires Valid() && table.Valid() && Repr !! table.Repr && -1 <= p < |table.pcbs|
      requires Forest(table.V().tree)
      requires p != -1 ==> forall x :: x in Post(table.V().tree, p) ==> x in table.V().kidsUp
      requires -1 <= d < |nsds| && SpacesOk(S()) && NS_USED in links.up
      requires d != -1 ==> 0 <= kind[d] < NS_TYPE_MAX
      modifies Repr, table.Repr
      ensures Valid() && table.Valid() && links.up == old(links.up)
      ensures ok <==> d != -1 && p != -1
      ensures S() == if d == -1 || p == -1 then old(S()) else SpaceAdded(old(S()), old(table.V().tree), p, d)
      ensures table.V() == old(table.V()).(slots := S().slots)
    {
      if d == -1 || p == -1 {
        return false;
      }
      Add(p, d);
      ok := true;
    }

    /** addNamespace of a descriptor that is not NULL. */
    method Add(p: nat, d: nat)
      requires Valid() && table.Valid() && Repr !! table.Repr && p < |table.pcbs|
      requires Forest(table.V().tree) && forall x :: x in Post(table.V().tree, p) ==> x in table.V().kidsUp
      requires d < |nsds| && 0 <= kind[d] && NS_USED in links.up
      requires forall q :: 0 <= q < |table.pcbs| ==> kind[d] < |table.V().slots[q]|
      modifies Repr, table.Repr
      ensures Valid() && table.Valid() && links.up == old(links.up)
      ensures S() == SpaceAdded(old(S()), old(table.V().tree), p, d)
      ensures table.V() == old(table.V()).(slots := S().slots)
    {
      hide Links.Valid, Forest, Post, PostAll, SpaceAdded, Painted;
      links.ListsOk();
      table.tree.ListsOk();
      ghost var s, v := S(), table.V();
      PaintedSubtree(s, v.tree, p, d);
      PaintSubtree(p, nsds[d].n_type, d);
      ghost var painted := table.V();
      assert links.lists == [s.free, s.used];
      Move(d, NS_USED);
      links.ListsOk();
      assert table.V() == painted;
    }

    /** allocNamespace: the first free descriptor, off the list and with its type; -1 if none. */
    method AllocNamespace(t: int) returns (d: int)
      requires Valid() && NS_FREE in links.up
      modifies Repr
      ensures Valid() && links.up == old(links.up)
      ensures old(S().free) == [] ==> d == -1 && S() == old(S())
      ensures old(S().free) != [] ==>
                d == old(S().free[0]) && 0 <= d < |nsds| &&
                S() == old(S()).(free := old(S().free[1..]), kind := old(S().kind)[d := t])
    {
      hide Links.Valid;
      links.ListsOk();
      var empty := links.Empty(NS_FREE);
      if empty {
        return -1;
      }
      links.HeadOff(NS_FREE);
      d := links.First(NS_FREE);
      links.Del(d);
      nsds[d].n_type := t;
      kind := kind[d := t];
    }

    /** freeNamespace */
    method FreeNamespace(d: nat)
      requires Valid() && d < |nsds| && NS_FREE in links.up
      modifies Repr
      ensures Valid() && links.up == old(links.up)
      ensures S() == old(S()).(free := Minus(old(S().free), {d}) + [d], used := Minus(old(S().used), {d}))
    {
      hide Links.Valid;
      links.ListsOk();
      Move(d, NS_FREE);
      links.ListsOk();
    }
  }

  /** Painting a process and then its proper descendants is painting its subtree. */
  lemma PaintedAll(slots: seq<seq<int>>, tree: Tree, p: nat, t: nat, d: int)
    requires Forest(tree) && p < |tree.kids| == |slots| && forall q :: 0 <= q < |slots| ==> t < |slots[q]|
    ensures var rest := PostAll(tree, tree.kids[p], tree.birth[p]);
            Painted(slots[p := slots[p][t := d]], Elems(rest), t, d) == Painted(slots, Elems(Post(tree, p)), t, d)
  {
    var rest := PostAll(tree, tree.kids[p], tree.birth[p]);
    ElemsAppend(rest, [p]);
    assert Elems(Post(tree, p)) == {p} + Elems(rest);
    PaintedOne(slots, p, t, d);
    PaintedTwice(slots, {p}, Elems(rest), t, d);
  }

  /** The subtree of a child is part of the subtree. */
  lemma SubtreeOf(t: Tree, p: nat, k: nat)
    requires Forest(t) && p < |t.kids| && k < |t.kids[p]|
    ensures t.kids[p][k] < |t.kids| && t.birth[p] < t.birth[t.kids[p][k]] < t.born
    ensures forall x :: x in Post(t, t.kids[p][k]) ==> x in Post(t, p)
  {
    var c := t.kids[p][k];
    assert c in t.kids[p];
    forall x | x in Post(t, c)
      ensures x in Post(t, p)
    {
      PostIsSubtree(t, c, x);
      WithinTrans(t, x, c, p);
      PostIsSubtree(t, p, x);
    }
  }

  /** The slots once the subtrees of the first `k` children of `p` are painted. */
  ghost function PaintedKids(slots: seq<seq<int>>, tree: Tree, p: nat, k: nat, t: nat, d: int): (r: seq<seq<int>>)
    requires Forest(tree) && p < |tree.kids| == |slots| && k <= |tree.kids[p]|
             && forall q :: 0 <= q < |slots| ==> t < |slots[q]|
    ensures |r| == |slots| && forall q :: 0 <= q < |r| ==> |r[q]| == |slots[q]|
  {
    FirstKids(tree, p, k);
    Painted(slots, Elems(PostAll(tree, tree.kids[p][..k], tree.birth[p])), t, d)
  }

  lemma PaintedKidsEnds(slots: seq<seq<int>>, tree: Tree, p: nat, t: nat, d: int)
    requires Forest(tree) && p < |tree.kids| == |slots| && forall q :: 0 <= q < |slots| ==> t < |slots[q]|
    ensures PaintedKids(slots, tree, p, 0, t, d) == slots
    ensures PaintedKids(slots, tree, p, |tree.kids[p]|, t, d)
            == Painted(slots, Elems(PostAll(tree, tree.kids[p], tree.birth[p])), t, d)
  {
    FirstKids(tree, p, 0);
    assert tree.kids[p][..|tree.kids[p]|] == tree.kids[p] && tree.kids[p][..0] == [];
    assert Elems([]) == {};
    PaintedNone(slots, t, d);
  }

  /** One more child painted: first itself, then its descendants. */
  lemma PaintedChild(slots: seq<seq<int>>, tree: Tree, p: nat, k: nat, t: nat, d: int)
    requires Forest(tree) && p < |tree.kids| == |slots| && k < |tree.kids[p]|
    requires forall q :: 0 <= q < |slots| ==> t < |slots[q]|
    ensures tree.kids[p][k] < |tree.kids|
    ensures var c := tree.kids[p][k];
            var done := PaintedKids(slots, tree, p, k, t, d);
            Painted(done[c := done[c][t := d]], Elems(PostAll(tree, tree.kids[c], tree.birth[c])), t, d)
            == PaintedKids(slots, tree, p, k + 1, t, d)
  {
    var l, b := tree.kids[p], tree.birth[p];
    var c := l[k];
    assert c in l;
    assert l[..k + 1] == l[..k] + [c];
    FirstKids(tree, p, k + 1);
    PostAllAppend(tree, l[..k], [c], b);
    var done := Elems(PostAll(tree, l[..k], b));
    var rest := PostAll(tree, tree.kids[c], tree.birth[c]);
    assert PostAll(tree, [c], b) == Post(tree, c) + PostAll(tree, [], b) == rest + [c];
    ElemsAppend(PostAll(tree, l[..k], b), rest + [c]);
    ElemsAppend(rest, [c]);
    assert Elems(rest + [c]) == {c} + Elems(rest);
    PaintedOne(Painted(slots, done, t, d), c, t, d);
    PaintedTwice(slots, done, {c}, t, d);
    PaintedTwice(slots, done + {c}, Elems(rest), t, d);
    assert done + {c} + Elems(rest) == done + Elems(rest + [c]);
  }
}
