/** The circular doubly linked lists of list.h and the safe deletion and search of util.h. */
module Lists {
  import opened Seqs

  /** The contents of a family of lists over one table: `lists[h]` is what list `h` holds and
      `home[i]` the list that entry `i` is linked into, or -1. */
  ghost predicate Family(lists: seq<seq<nat>>, home: seq<int>) {
    && (forall h :: 0 <= h < |lists| ==> NoDup(lists[h]))
    && (forall h, k :: 0 <= h < |lists| && 0 <= k < |lists[h]| ==> lists[h][k] < |home| && home[lists[h][k]] == h)
    && (forall i :: 0 <= i < |home| ==> home[i] == -1 || (0 <= home[i] < |lists| && i in lists[home[i]]))
  }

  function Inserted(l: seq<nat>, pos: nat, i: nat): (r: seq<nat>)
    requires pos <= |l|
    ensures forall x :: x in r <==> x == i || x in l
  {
    assert l == l[..pos] + l[pos..];
    l[..pos] + [i] + l[pos..]
  }

  lemma InsertedNoDup(l: seq<nat>, pos: nat, i: nat)
    requires NoDup(l) && pos <= |l| && i !in l
    ensures NoDup(Inserted(l, pos, i))
  {
    var m := Inserted(l, pos, i);
    forall a, b | 0 <= a < b < |m|
      ensures m[a] != m[b]
    {
      assert m[a] == if a < pos then l[a] else if a == pos then i else l[a - 1];
      assert m[b] == if b < pos then l[b] else if b == pos then i else l[b - 1];
    }
  }

  lemma FamilyInsert(lists: seq<seq<nat>>, home: seq<int>, h: nat, pos: nat, i: nat)
    requires Family(lists, home) && h < |lists| && pos <= |lists[h]| && i < |home|
    requires forall g :: 0 <= g < |lists| ==> i !in lists[g]
    ensures Family(lists[h := Inserted(lists[h], pos, i)], home[i := h])
  {
    InsertedNoDup(lists[h], pos, i);
    var m := Inserted(lists[h], pos, i);
    forall k | 0 <= k < |m|
      ensures m[k] == i || m[k] in lists[h]
    {
      assert m[k] in m;
    }
  }

  lemma FamilyRemove(lists: seq<seq<nat>>, home: seq<int>, h: nat, i: nat)
    requires Family(lists, home) && h < |lists| && i in lists[h]
    ensures Family(lists[h := Minus(lists[h], {i})], home[i := -1])
  {
    MinusNoDup(lists[h], {i});
    var m := Minus(lists[h], {i});
    forall k | 0 <= k < |m|
      ensures m[k] in lists[h] && m[k] != i
    {
      assert m[k] in m;
    }
  }

  lemma UnlinkedAt(lists: seq<seq<nat>>, home: seq<int>, h: nat, k: nat)
    requires Family(lists, home) && h < |lists| && k < |lists[h]|
    ensures Unlinked(lists, lists[h][k]) == lists[h := Minus(lists[h], {lists[h][k]})]
  {
    forall g | 0 <= g < |lists| && g != h
      ensures Minus(lists[g], {lists[h][k]}) == lists[g]
    {
      MinusNone(lists[g], {lists[h][k]});
    }
  }

  lemma HeadRemoved(lists: seq<seq<nat>>, home: seq<int>, h: nat)
    requires Family(lists, home) && h < |lists| && lists[h] != []
    ensures Unlinked(lists, lists[h][0]) == lists[h := lists[h][1..]]
    ensures Minus(lists[h], {lists[h][0]}) == lists[h][1..]
  {
    UnlinkedAt(lists, home, h, 0);
    MinusAt(lists[h], 0);
    assert lists[h][..0] + lists[h][1..] == lists[h][1..];
  }

  /** `struct list_head`.  `tag` is the table entry in which the field is embedded, which is
      what `container_of` recovers; `anchor` tells a list header from an embedded link. */
  class ListHead {
    var next: ListHead?
    var prev: ListHead?
    const tag: nat
    const anchor: bool

    constructor (tag: nat, anchor: bool)
      ensures next == null && prev == null && this.tag == tag && this.anchor == anchor
    {
      this.tag, this.anchor := tag, anchor;
      next, prev := null, null;
    }
  }

  /** The lists that share the links of one table: entry `i` of the table is linked through
      `nodes[i]` into at most one of the lists headed by `heads`. */
  class Links {
    const heads: seq<ListHead>
    const nodes: seq<ListHead>
    ghost const Repr: set<object>
    ghost var lists: seq<seq<nat>>
    ghost var home: seq<int>
    ghost var up: set<nat>          // the headers initialised so far

    ghost predicate InTable(h: nat, l: seq<nat>) {
      h < |heads| && forall k :: 0 <= k < |l| ==> l[k] < |nodes|
    }

    /** The object at position `k` of a ring that is headed by `h` and holds `l`: the header
        stands at both ends. */
    ghost function At(h: nat, l: seq<nat>, k: int): ListHead
      requires InTable(h, l)
    {
      if 0 < k <= |l| then nodes[l[k - 1]] else heads[h]
    }

    /** `next` and `prev` are each other's inverse all around the ring. */
    ghost predicate Ring(h: nat, l: seq<nat>)
      requires InTable(h, l)
      reads heads, nodes
    {
      forall j, k {:trigger At(h, l, j), At(h, l, k)} :: 0 <= j && k == j + 1 && k <= |l| + 1 ==>
        At(h, l, j).next == At(h, l, k) && At(h, l, k).prev == At(h, l, j)
    }

    /** The ring, but for the two pointers between positions `pos` and `pos + 1`. */
    ghost predicate OpenRing(h: nat, l: seq<nat>, pos: nat)
      requires InTable(h, l)
      reads heads, nodes
    {
      forall j, k {:trigger At(h, l, j), At(h, l, k)} :: 0 <= j && k == j + 1 && k <= |l| + 1 && j != pos ==>
        At(h, l, j).next == At(h, l, k) && At(h, l, k).prev == At(h, l, j)
    }

    lemma RingAfterInsert(h: nat, l: seq<nat>, pos: nat, i: nat)
      requires InTable(h, l) && i < |nodes| && pos <= |l| && OpenRing(h, l, pos)
      requires At(h, l, pos).next == nodes[i] && nodes[i].prev == At(h, l, pos)
      requires At(h, l, pos + 1).prev == nodes[i] && nodes[i].next == At(h, l, pos + 1)
      ensures InTable(h, Inserted(l, pos, i)) && Ring(h, Inserted(l, pos, i))
    {
      var m := Inserted(l, pos, i);
      forall j, k | 0 <= j && k == j + 1 && k <= |m| + 1
        ensures At(h, m, j).next == At(h, m, k) && At(h, m, k).prev == At(h, m, j)
      {
        if j < pos {
          assert At(h, m, j) == At(h, l, j) && At(h, m, k) == At(h, l, k);
        } else if j > pos + 1 {
          assert At(h, m, j) == At(h, l, j - 1) && At(h, m, k) == At(h, l, k - 1);
        }
      }
    }

    ghost predicate Tagged() {
      && (forall h :: 0 <= h < |heads| ==> heads[h].anchor && heads[h].tag == h)
      && (forall i :: 0 <= i < |nodes| ==> !nodes[i].anchor && nodes[i].tag == i)
    }

    /** The pointers represent the given contents: headers in `up` head rings, headers not yet
        initialised are NULL, and so are the links of unlinked entries. */
    ghost predicate Represents(lists: seq<seq<nat>>, home: seq<int>, up: set<nat>)
      reads heads, nodes
    {
      && |lists| == |heads| && |home| == |nodes|
      && Tagged() && Family(lists, home)
      && (forall h :: 0 <= h < |heads| ==>
            if h in up then Ring(h, lists[h]) else lists[h] == [] && heads[h].next == null)
      && (forall i :: 0 <= i < |nodes| && home[i] == -1 ==> nodes[i].next == null && nodes[i].prev == null)
    }

    ghost predicate Valid()
      reads this, Repr
    {
      && Repr == {this} + (set o: object | o in heads) + (set o: object | o in nodes)
      && Represents(lists, home, up)
    }

    /** Objects at the positions of a ring differ, but for the header at both ends, and are
        on no other ring. */
    lemma Distinct(h: nat, pos: nat)
      requires Valid() && h < |heads| && pos <= |lists[h]| + 1
      ensures InTable(h, lists[h])
      ensures forall g, j {:trigger At(g, lists[g], j)} ::
                0 <= g < |heads| && 0 <= j <= |lists[g]| + 1 && At(g, lists[g], j) == At(h, lists[h], pos) ==>
                g == h && (j == pos || (j == 0 && pos == |lists[h]| + 1) || (pos == 0 && j == |lists[h]| + 1))
    {
      forall g, j | 0 <= g < |heads| && 0 <= j <= |lists[g]| + 1 && At(g, lists[g], j) == At(h, lists[h], pos)
        ensures g == h && (j == pos || (j == 0 && pos == |lists[h]| + 1) || (pos == 0 && j == |lists[h]| + 1))
      {
        var o := At(h, lists[h], pos);
        assert o.anchor ==> o == heads[h] == heads[g];
        if !o.anchor {
          assert lists[g][j - 1] == o.tag == lists[h][pos - 1];
          assert home[o.tag] == g && home[o.tag] == h;
        }
      }
    }

    /** Entry `i` is in none of the lists. */
    ghost predicate Detached(i: nat)
      reads this
    {
      forall h :: 0 <= h < |lists| ==> i !in lists[h]
    }

    lemma ListsOk()
      requires Valid()
      ensures |lists| == |heads|
      ensures forall h :: 0 <= h < |lists| ==> NoDup(lists[h]) && InTable(h, lists[h])
    {
    }

    lemma HeadOff(h: nat)
      requires Valid() && h < |lists| && lists[h] != []
      ensures lists[h][0] < |nodes| && !Detached(lists[h][0])
      ensures Unlinked(lists, lists[h][0]) == lists[h := lists[h][1..]]
    {
      HeadRemoved(lists, home, h);
      assert lists[h][0] in lists[h];
    }

    lemma OnlyList(i: nat)
      requires |lists| == 1
      ensures Detached(i) <==> i !in lists[0]
    {
      if i !in lists[0] {
        forall h | 0 <= h < |lists|
          ensures i !in lists[h]
        {
          assert h == 0;
        }
      }
    }

    /** Statically allocated storage: every pointer is NULL. */
    constructor (headCount: nat, nodeCount: nat)
      ensures Valid() && fresh(Repr)
      ensures |heads| == headCount && |nodes| == nodeCount
      ensures lists == Fill(headCount, []) && up == {}
    {
      var hs: seq<ListHead> := [];
      var ns: seq<ListHead> := [];
      while |hs| < headCount
        invariant |hs| <= headCount
        invariant forall h :: 0 <= h < |hs| ==> fresh(hs[h]) && hs[h].anchor && hs[h].tag == h && hs[h].next == null
      {
        var o := new ListHead(|hs|, true);
        hs := hs + [o];
      }
      while |ns| < nodeCount
        invariant |ns| <= nodeCount
        invariant forall h :: 0 <= h < |hs| ==> fresh(hs[h]) && hs[h].anchor && hs[h].tag == h && hs[h].next == null
        invariant forall i :: 0 <= i < |ns| ==> fresh(ns[i]) && !ns[i].anchor && ns[i].tag == i
                                                && ns[i].next == null && ns[i].prev == null
      {
        var o := new ListHead(|ns|, false);
        ns := ns + [o];
      }
      heads, nodes := hs, ns;
      Repr := {this} + (set o: object | o in hs) + (set o: object | o in ns);
      lists := Fill(headCount, []);
      home := Fill(nodeCount, -1);
      up := {};
    }

    /** INIT_LIST_HEAD on a header. */
    method InitHead(h: nat)
      requires Valid() && h < |heads| && lists[h] == []
      modifies Repr
      ensures Valid() && lists == old(lists) && up == old(up) + {h}
    {
      heads[h].next := heads[h];
      heads[h].prev := heads[h];
      up := up + {h};
      forall g | 0 <= g < |heads| && g in up && g != h
        ensures Ring(g, lists[g])
      {
        assert old(Ring(g, lists[g]));
      }
    }

    /** The NULL stores of resetPcb on a link. */
    method ClearNode(i: nat)
      requires Valid() && i < |nodes| && Detached(i)
      modifies Repr
      ensures Valid() && lists == old(lists) && up == old(up)
    {
      nodes[i].next := null;
      nodes[i].prev := null;
      forall g | 0 <= g < |heads| && g in up
        ensures Ring(g, lists[g])
      {
        assert old(Ring(g, lists[g]));
      }
    }

    lemma RepresentsInserted(lists: seq<seq<nat>>, home: seq<int>, up: set<nat>, h: nat, pos: nat, i: nat)
      requires |lists| == |heads| && |home| == |nodes| && Tagged() && Family(lists, home)
      requires i < |nodes| && h < |heads| && h in up && pos <= |lists[h]|
      requires forall g :: 0 <= g < |lists| ==> i !in lists[g]
      requires OpenRing(h, lists[h], pos)
      requires At(h, lists[h], pos).next == nodes[i] && nodes[i].prev == At(h, lists[h], pos)
      requires At(h, lists[h], pos + 1).prev == nodes[i] && nodes[i].next == At(h, lists[h], pos + 1)
      requires forall g :: 0 <= g < |heads| && g != h ==>
                 if g in up then Ring(g, lists[g]) else lists[g] == [] && heads[g].next == null
      requires forall j :: 0 <= j < |nodes| && home[j] == -1 && j != i ==>
                 nodes[j].next == null && nodes[j].prev == null
      ensures Represents(lists[h := Inserted(lists[h], pos, i)], home[i := h], up)
    {
      RingAfterInsert(h, lists[h], pos, i);
      FamilyInsert(lists, home, h, pos, i);
    }

    /** __list_add with `prev` and `next` the objects at ring positions `pos` and `pos + 1`. */
    method InsertBetween(i: nat, prev: ListHead, next: ListHead, ghost h: nat, ghost pos: nat)
      requires Valid() && i < |nodes| && h < |heads| && h in up && Detached(i)
      requires pos <= |lists[h]| && prev == At(h, lists[h], pos) && next == At(h, lists[h], pos + 1)
      modifies Repr
      ensures Valid() && up == old(up)
      ensures lists == old(lists[h := Inserted(lists[h], pos, i)])
    {
      assert forall g, j {:trigger At(g, lists[g], j)} ::
        0 <= g < |heads| && 0 <= j <= |lists[g]| + 1 ==> At(g, lists[g], j) != nodes[i];
      Distinct(h, pos);
      Distinct(h, pos + 1);
      next.prev := nodes[i];
      nodes[i].next := next;
      nodes[i].prev := prev;
      prev.next := nodes[i];
      assert OpenRing(h, lists[h], pos) by {
        assert old(Ring(h, lists[h]));
      }
      forall g | 0 <= g < |heads| && g in up && g != h
        ensures Ring(g, lists[g])
      {
        assert old(Ring(g, lists[g]));
      }
      RepresentsInserted(lists, home, up, h, pos, i);
      lists := lists[h := Inserted(lists[h], pos, i)];
      home := home[i := h];
    }

    /** list_add: after the header. */
    method Add(i: nat, h: nat)
      requires Valid() && i < |nodes| && h < |heads| && h in up && Detached(i)
      modifies Repr
      ensures Valid() && up == old(up)
      ensures lists == old(lists[h := [i] + lists[h]])
    {
      assert At(h, lists[h], 0) == heads[h];
      assert Inserted(lists[h], 0, i) == [i] + lists[h];
      assert heads[h].next == At(h, lists[h], 1);
      InsertBetween(i, heads[h], heads[h].next, h, 0);
    }

    /** list_add_tail: before the header. */
    method AddTail(i: nat, h: nat)
      requires Valid() && i < |nodes| && h < |heads| && h in up && Detached(i)
      modifies Repr
      ensures Valid() && up == old(up)
      ensures lists == old(lists[h := lists[h] + [i]])
    {
      ghost var n := |lists[h]|;
      assert At(h, lists[h], n + 1) == heads[h];
      assert Inserted(lists[h], n, i) == lists[h] + [i];
      assert heads[h].prev == At(h, lists[h], n);
      InsertBetween(i, heads[h].prev, heads[h], h, n);
    }

    /** The ring, but for the pointers from and to the object at position `k + 1`. */
    ghost predicate GapRing(h: nat, l: seq<nat>, k: nat)
      requires InTable(h, l)
      reads heads, nodes
    {
      forall j, j' {:trigger At(h, l, j), At(h, l, j')} ::
        0 <= j && j' == j + 1 && j' <= |l| + 1 && j != k && j != k + 1 ==>
          At(h, l, j).next == At(h, l, j') && At(h, l, j').prev == At(h, l, j)
    }

    lemma RingAfterRemove(h: nat, l: seq<nat>, k: nat)
      requires InTable(h, l) && k < |l|
      requires GapRing(h, l, k)
      requires At(h, l, k).next == At(h, l, k + 2) && At(h, l, k + 2).prev == At(h, l, k)
      ensures InTable(h, l[..k] + l[k + 1..]) && Ring(h, l[..k] + l[k + 1..])
    {
      var m := l[..k] + l[k + 1..];
      forall j, j' | 0 <= j && j' == j + 1 && j' <= |m| + 1
        ensures At(h, m, j).next == At(h, m, j') && At(h, m, j').prev == At(h, m, j)
      {
        if j < k {
          assert At(h, m, j) == At(h, l, j) && At(h, m, j') == At(h, l, j');
        } else if j == k {
          assert At(h, m, j) == At(h, l, k) && At(h, m, j') == At(h, l, k + 2);
        } else {
          assert At(h, m, j) == At(h, l, j + 1) && At(h, m, j') == At(h, l, j' + 1);
        }
      }
    }

    lemma RepresentsRemoved(lists: seq<seq<nat>>, home: seq<int>, up: set<nat>, h: nat, k: nat)
      requires |lists| == |heads| && |home| == |nodes| && Tagged() && Family(lists, home)
      requires h < |heads| && h in up && k < |lists[h]|
      requires GapRing(h, lists[h], k)
      requires At(h, lists[h], k).next == At(h, lists[h], k + 2) && At(h, lists[h], k + 2).prev == At(h, lists[h], k)
      requires forall g :: 0 <= g < |heads| && g != h ==>
                 if g in up then Ring(g, lists[g]) else lists[g] == [] && heads[g].next == null
      requires forall j :: 0 <= j < |nodes| && (home[j] == -1 || j == lists[h][k]) ==>
                 nodes[j].next == null && nodes[j].prev == null
      ensures Represents(Unlinked(lists, lists[h][k]), home[lists[h][k] := -1], up)
    {
      RingAfterRemove(h, lists[h], k);
      FamilyRemove(lists, home, h, lists[h][k]);
      UnlinkedAt(lists, home, h, k);
      MinusAt(lists[h], k);
    }

    /** The stores of list_del: the neighbours of entry `i`, at position `k + 1` of ring `h`,
        are joined, and its own pointers become NULL. */
    method Unlink(i: nat, ghost h: nat, ghost k: nat)
      requires Valid() && h < |heads| && h in up && k < |lists[h]| && i == lists[h][k]
      modifies heads, nodes
      ensures nodes[i].next == null && nodes[i].prev == null
      ensures GapRing(h, lists[h], k)
      ensures At(h, lists[h], k).next == At(h, lists[h], k + 2) && At(h, lists[h], k + 2).prev == At(h, lists[h], k)
      ensures forall g :: 0 <= g < |heads| && g != h ==>
                if g in up then Ring(g, lists[g]) else lists[g] == [] && heads[g].next == null
      ensures forall j :: 0 <= j < |nodes| && (home[j] == -1 || j == i) ==>
                nodes[j].next == null && nodes[j].prev == null
    {
      assert At(h, lists[h], k + 1) == nodes[i];
      Distinct(h, k);
      Distinct(h, k + 1);
      Distinct(h, k + 2);
      var prev, next := nodes[i].prev, nodes[i].next;
      assert prev == At(h, lists[h], k) && next == At(h, lists[h], k + 2);
      next.prev := prev;
      prev.next := next;
      nodes[i].next := null;
      nodes[i].prev := null;
      assert GapRing(h, lists[h], k) by {
        assert old(Ring(h, lists[h]));
      }
      forall g | 0 <= g < |heads| && g in up && g != h
        ensures Ring(g, lists[g])
      {
        assert old(Ring(g, lists[g]));
      }
    }

    /** list_del of a linked entry. */
    method Del(i: nat)
      requires Valid() && i < |nodes| && !Detached(i)
      modifies Repr
      ensures Valid() && up == old(up)
      ensures lists == Unlinked(old(lists), i)
    {
      ghost var h := home[i];
      ghost var k :| 0 <= k < |lists[h]| && lists[h][k] == i;
      Unlink(i, h, k);
      RepresentsRemoved(lists, home, up, h, k);
      lists := Unlinked(lists, i);
      home := home[i := -1];
    }

    /** list_safe_del: nothing happens to an entry that is not linked. */
    method SafeDel(i: nat)
      requires Valid() && i < |nodes|
      modifies Repr
      ensures Valid() && up == old(up)
      ensures lists == Unlinked(old(lists), i)
    {
      LinkedHasPointers(i);
      if !(nodes[i].next == null && nodes[i].prev == null) {
        Del(i);
      }
    }

    lemma LinkedHasPointers(i: nat)
      requires Valid() && i < |nodes|
      ensures Detached(i) <==> nodes[i].next == null && nodes[i].prev == null
      ensures Detached(i) ==> lists == Unlinked(lists, i)
    {
      if home[i] != -1 {
        var h := home[i];
        var k :| 0 <= k < |lists[h]| && lists[h][k] == i;
        assert At(h, lists[h], k + 1) == nodes[i];
        assert nodes[i].next == At(h, lists[h], k + 2);
      } else {
        forall h | 0 <= h < |lists|
          ensures Minus(lists[h], {i}) == lists[h]
        {
          MinusNone(lists[h], {i});
        }
      }
    }

    /** list_empty, which is false of a header that was never initialised. */
    method Empty(h: nat) returns (r: bool)
      requires Valid() && h < |heads|
      ensures r <==> h in up && lists[h] == []
    {
      assert h in up ==> At(h, lists[h], 0).next == At(h, lists[h], 1);
      r := heads[h].next == heads[h];
    }

    /** list_first_entry on a list that is not empty. */
    method First(h: nat) returns (i: nat)
      requires Valid() && h < |heads| && h in up && lists[h] != []
      ensures i == lists[h][0]
    {
      assert At(h, lists[h], 0) == heads[h] && heads[h].next == At(h, lists[h], 1);
      i := heads[h].next.tag;
    }

    /** Steps of list_for_each_entry: the object after position `k` of ring `h`. */
    method Next(o: ListHead, ghost h: nat, ghost k: nat) returns (r: ListHead)
      requires Valid() && h < |heads| && h in up && k <= |lists[h]| && o == At(h, lists[h], k)
      ensures r == At(h, lists[h], k + 1)
      ensures r == heads[h] <==> k == |lists[h]|
      ensures k < |lists[h]| ==> r.tag == lists[h][k]
    {
      assert At(h, lists[h], k).next == At(h, lists[h], k + 1);
      r := o.next;
    }

    /** list_contains, that is list_search with list_cmp; -1 is the address of no entry. */
    method Contains(i: int, h: nat) returns (r: bool)
      requires Valid() && -1 <= i < |nodes| && h < |heads| && h in up
      ensures r <==> i != -1 && i in lists[h]
    {
      ghost var l := lists[h];
      ghost var k := 1;
      assert At(h, l, 0) == heads[h] && At(h, l, 1) == heads[h].next;
      var tmp := heads[h].next;
      while tmp != heads[h]
        invariant 1 <= k <= |l| + 1 && tmp == At(h, l, k)
        invariant i !in l[..k - 1]
        decreases |l| - k
      {
        if i != -1 && tmp == nodes[i] {
          return true;
        }
        assert l[..k] == l[..k - 1] + [l[k - 1]];
        assert tmp.next == At(h, l, k + 1);
        tmp := tmp.next;
        k := k + 1;
      }
      assert l[..k - 1] == l;
      r := false;
    }

    /** list_size. */
    method Size(h: nat) returns (size: nat)
      requires Valid() && h < |heads| && h in up
      ensures size == |lists[h]|
    {
      ghost var l := lists[h];
      assert At(h, l, 0) == heads[h] && At(h, l, 1) == heads[h].next;
      size := 0;
      var tmp := heads[h].next;
      while tmp != heads[h]
        invariant 0 <= size <= |l| && tmp == At(h, l, size + 1)
        decreases |l| - size
      {
        assert tmp.next == At(h, l, size + 2);
        tmp := tmp.next;
        size := size + 1;
      }
    }
  }
}
