/** How __terminateProcess takes a subtree apart, child by child. */
module Terminations {
  import opened Seqs
  import opened Trees
  import opened KernelState
  import KernelSteps
  import KernelInvariant

  /** A child on its way out: it has left its parent and the ready queue. */
  ghost function Orphaned(k: K, c: nat): K
    requires Forest(k.tree)
  {
    k.(tree := Pruned(k.tree, {c}), ready := Minus(k.ready, {c}))
  }

  /** What the loop has freed after `i` children of `p`. */
  ghost function Dead(t: Tree, p: nat, i: nat): seq<nat>
    requires Forest(t) && p < |t.kids| && i <= |t.kids[p]|
  {
    FirstKids(t, p, i);
    PostAll(t, t.kids[p][..i], t.birth[p])
  }

  lemma DeadNext(t: Tree, p: nat, i: nat)
    requires Forest(t) && p < |t.kids| && i < |t.kids[p]|
    ensures t.kids[p][i] < |t.kids|
    ensures Dead(t, p, i + 1) == Dead(t, p, i) + Post(t, t.kids[p][i])
  {
    var l, b := t.kids[p], t.birth[p];
    assert l[..i + 1] == l[..i] + [l[i]] && l[i] in l;
    FirstKids(t, p, i + 1);
    PostAllAppend(t, l[..i], [l[i]], b);
    assert PostAll(t, [l[i]], b) == Post(t, l[i]) + PostAll(t, [], b);
  }

  lemma DeadAll(t: Tree, p: nat)
    requires Forest(t) && p < |t.kids|
    ensures Post(t, p) == Dead(t, p, |t.kids[p]|) + [p]
  {
    assert t.kids[p][..|t.kids[p]|] == t.kids[p];
  }

  ghost predicate WithinKid(t: Tree, p: nat, j: int, x: nat)
    requires Forest(t) && p < |t.kids| && x < |t.kids|
  {
    0 <= j < |t.kids[p]| && t.kids[p][j] < |t.kids| && Within(t, x, t.kids[p][j])
  }

  /** A process freed by the first `i` children is within one of them, and never `p` itself. */
  lemma DeadWithin(t: Tree, p: nat, i: nat, x: nat)
    requires Forest(t) && p < |t.kids| && i <= |t.kids[p]| && x < |t.kids|
    ensures x in Dead(t, p, i) <==> exists j :: 0 <= j < i && WithinKid(t, p, j, x)
    ensures x in Dead(t, p, i) ==> x != p && x in Post(t, p)
  {
    FirstKids(t, p, i);
    PostAllIsSubtrees(t, t.kids[p][..i], t.birth[p], x);
    if x in Dead(t, p, i) {
      var c :| c in t.kids[p][..i] && Within(t, x, c);
      assert c in t.kids[p];
      WithinTrans(t, x, c, p);
      PostIsSubtree(t, p, x);
      var j :| 0 <= j < i && t.kids[p][..i][j] == c;
      assert WithinKid(t, p, j, x);
    }
    if exists j :: 0 <= j < i && WithinKid(t, p, j, x) {
      var j :| 0 <= j < i && WithinKid(t, p, j, x);
      assert t.kids[p][..i][j] == t.kids[p][j];
      assert t.kids[p][j] in t.kids[p][..i];
    }
  }

  /** The subtree of the next child is still whole. */
  lemma NextChildWhole(t: Tree, p: nat, i: nat, x: nat)
    requires Forest(t) && p < |t.kids| && i < |t.kids[p]| && t.kids[p][i] < |t.kids| && x in Post(t, t.kids[p][i])
    ensures x !in Dead(t, p, i)
  {
    var c := t.kids[p][i];
    PostIsSubtree(t, c, x);
    DeadWithin(t, p, i, x);
    forall j | 0 <= j < i
      ensures !WithinKid(t, p, j, x)
    {
      assert t.kids[p][j] in t.kids[p] && c in t.kids[p];
      SiblingsApart(t, x, c, t.kids[p][j]);
    }
  }

  /** After `i` children the next one is the first of those left. */
  lemma KidsLeft(t: Tree, p: nat, i: nat)
    requires Forest(t) && p < |t.kids| && i <= |t.kids[p]|
    ensures Pruned(t, Elems(Dead(t, p, i))).kids[p] == t.kids[p][i..]
  {
    var l, d := t.kids[p], Elems(Dead(t, p, i));
    FirstDead(t, p, i);
    forall c | c in l[i..]
      ensures c !in d
    {
      var j :| 0 <= j < |l[i..]| && l[i..][j] == c;
      NextChildWholeAt(t, p, i, i + j);
    }
    hide Forest, Dead;
    assert l == l[..i] + l[i..];
    MinusSplit(l[..i], l[i..], d);
  }

  lemma FirstDead(t: Tree, p: nat, i: nat)
    requires Forest(t) && p < |t.kids| && i <= |t.kids[p]|
    ensures forall c :: c in t.kids[p][..i] ==> c in Dead(t, p, i)
  {
    forall c | c in t.kids[p][..i]
      ensures c in Dead(t, p, i)
    {
      var j :| 0 <= j < i && t.kids[p][..i][j] == c;
      assert c in t.kids[p];
      DeadWithin(t, p, i, c);
      assert WithinKid(t, p, j, c);
    }
  }

  lemma NextChildWholeAt(t: Tree, p: nat, i: nat, m: nat)
    requires Forest(t) && p < |t.kids| && i <= m < |t.kids[p]|
    ensures t.kids[p][m] !in Dead(t, p, i)
  {
    var c := t.kids[p][m];
    assert c in t.kids[p];
    DeadWithin(t, p, i, c);
    forall j | 0 <= j < i
      ensures !WithinKid(t, p, j, c)
    {
      assert t.kids[p][j] in t.kids[p];
      SiblingsApart(t, c, c, t.kids[p][j]);
    }
  }

  lemma PrefixNoDup(a: seq<nat>, b: seq<nat>)
    requires NoDup(a + b)
    ensures NoDup(a) && NoDup(b) && Elems(a) !! Elems(b)
  {
    forall i, j | 0 <= i < j < |a|
      ensures a[i] != a[j]
    {
      assert (a + b)[i] != (a + b)[j];
    }
    forall i, j | 0 <= i < j < |b|
      ensures b[i] != b[j]
    {
      assert (a + b)[|a| + i] != (a + b)[|a| + j];
    }
    forall i, j | 0 <= i < |a| && 0 <= j < |b|
      ensures a[i] != b[j]
    {
      assert (a + b)[i] != (a + b)[|a| + j];
    }
  }

  lemma {:induction false} DeadNoDup(t: Tree, p: nat, i: nat)
    requires Forest(t) && p < |t.kids| && i <= |t.kids[p]|
    ensures NoDup(Dead(t, p, i))
    ensures i < |t.kids[p]| ==> t.kids[p][i] < |t.kids| && Elems(Dead(t, p, i)) !! Elems(Post(t, t.kids[p][i]))
    ensures i == |t.kids[p]| ==> p !in Dead(t, p, i)
    decreases |t.kids[p]| - i
  {
    if i == |t.kids[p]| {
      PostNoDup(t, p);
      DeadAll(t, p);
      PrefixNoDup(Dead(t, p, i), [p]);
    } else {
      DeadNoDup(t, p, i + 1);
      DeadNext(t, p, i);
      PrefixNoDup(Dead(t, p, i), Post(t, t.kids[p][i]));
    }
  }

  /** The loop invariant's state is a kernel state like any other. */
  lemma DeadCore(k: K, p: nat, i: nat)
    requires Core(k) && p < |k.sem| && p !in k.free && i <= |k.tree.kids[p]|
    ensures Core(Killed(k, Dead(k.tree, p, i)))
    ensures p !in Killed(k, Dead(k.tree, p, i)).free
  {
    var dead := Dead(k.tree, p, i);
    DeadNoDup(k.tree, p, i);
    KernelInvariant.DeadIsSubtree(k, p);
    forall x | x in dead
      ensures x < |k.sem| && x !in k.free && x != p
      ensures forall c :: c in k.tree.kids[x] ==> c in dead
    {
      DeadWithin(k.tree, p, i, x);
      var j :| 0 <= j < i && WithinKid(k.tree, p, j, x);
      forall c | c in k.tree.kids[x]
        ensures c in dead
      {
        assert k.tree.kids[p][j] in k.tree.kids[p];
        assert WithinKid(k.tree, p, j, c);
        DeadWithin(k.tree, p, i, c);
      }
    }
    CoreKilled(k, dead);
  }

  /** Setting a process apart before it is freed with its subtree changes nothing. */
  lemma OrphanKilled(k: K, c: nat, dead: seq<nat>)
    requires Forest(k.tree) && c in dead
    ensures Killed(Orphaned(k, c), dead) == Killed(k, dead)
  {
    var d := Elems(dead);
    PrunedTwice(k.tree, {c}, d);
    MinusMinus(k.ready, {c}, d);
    assert {c} + d == d;
    assert SoftSet(Orphaned(k, c)) == SoftSet(k);
  }

  lemma CoreOrphaned(k: K, c: nat)
    requires Core(k) && c < |k.sem|
    ensures Core(Orphaned(k, c))
    ensures c !in k.free ==> c !in Orphaned(k, c).free
  {
    MinusNoDup(k.ready, {c});
    forall x | x in k.free
      ensures Orphaned(k, c).tree.kids[x] == []
    {
      assert k.tree.kids[x] == [];
    }
    assert SoftSet(Orphaned(k, c)) == SoftSet(k);
  }

  /** One turn of the loop: from `i` children freed to `i + 1`. */
  lemma KillChild(k: K, p: nat, i: nat)
    requires Core(k) && p < |k.sem| && p !in k.free && i < |k.tree.kids[p]|
    ensures var m := Killed(k, Dead(k.tree, p, i));
            var c := k.tree.kids[p][i];
            Core(m) && c < |k.sem| && c !in m.free && m.tree.kids[p] == k.tree.kids[p][i..] && Core(Orphaned(m, c))
            && |Orphaned(m, c).sem| == |k.sem| && c !in Orphaned(m, c).free && Orphaned(m, c).tree.parent[c] == -1
            && Orphaned(m, c).tree.birth == k.tree.birth && Orphaned(m, c).tree.born == k.tree.born
            && Killed(Orphaned(m, c), Post(Orphaned(m, c).tree, c)) == Killed(k, Dead(k.tree, p, i + 1))
  {
    var t := k.tree;
    var dead := Dead(t, p, i);
    var m := Killed(k, dead);
    var c := t.kids[p][i];
    assert c in t.kids[p];
    DeadCore(k, p, i);
    KidsLeft(t, p, i);
    assert m.tree.kids[p][0] == c && c in m.tree.kids[p];
    assert m.tree.parent[c] == p;
    CoreOrphaned(m, c);
    DeadNoDup(t, p, i);
    DeadNext(t, p, i);
    ChildWhole(k, p, i);
    assert c in Post(t, c);
    OrphanKilled(m, c, Post(t, c));
    KilledTwice(k, dead, Post(t, c));
  }

  /** Nothing below a child of `p` has been freed before its turn, so its child lists are whole. */
  lemma KidsWhole(t: Tree, p: nat, i: nat, x: nat)
    requires Forest(t) && p < |t.kids| && i < |t.kids[p]| && t.kids[p][i] < |t.kids| && x in Post(t, t.kids[p][i])
    ensures Minus(t.kids[x], Elems(Dead(t, p, i)) + {t.kids[p][i]}) == t.kids[x]
  {
    var c := t.kids[p][i];
    var d := Elems(Dead(t, p, i));
    PostIsSubtree(t, c, x);
    WithinBirth(t, x, c);
    forall y | y in t.kids[x]
      ensures y !in d + {c}
    {
      assert Within(t, y, c);
      PostIsSubtree(t, c, y);
      NextChildWhole(t, p, i, y);
    }
    MinusNone(t.kids[x], d + {c});
  }

  lemma ChildWhole(k: K, p: nat, i: nat)
    requires Core(k) && p < |k.sem| && i < |k.tree.kids[p]| && k.tree.kids[p][i] < |k.sem|
    ensures var m := Killed(k, Dead(k.tree, p, i));
            var c := k.tree.kids[p][i];
            Post(Orphaned(m, c).tree, c) == Post(k.tree, c)
  {
    var t := k.tree;
    var c := t.kids[p][i];
    var d := Elems(Dead(t, p, i));
    PrunedTwice(t, d, {c});
    forall x | x in Post(t, c)
      ensures Pruned(t, d + {c}).kids[x] == t.kids[x]
    {
      KidsWhole(t, p, i, x);
    }
    PostSame(t, Pruned(t, d + {c}), c);
  }

  /** The end of __terminateProcess: `p` itself, whose children are gone, leaves its queue and is
      freed. */
  ghost function Buried(m: K, p: nat): K
    requires p < |m.sem|
  {
    var u := Unblocked(m, p);
    u.(soft := if m.lay.Soft(m.sem[p]) then m.soft - 1 else m.soft,
       free := [p] + m.free, ready := Minus(m.ready, {p}), procs := m.procs - 1)
  }

  lemma BuriedIsKilled(m: K, p: nat)
    requires Core(m) && p < |m.sem| && m.tree.parent[p] == -1
    ensures Buried(m, p) == Killed(m, [p])
  {
    hide Core, Forest, Places, SoftSet, Drained, Released, Pruned;
    assert Core(m) && Forest(m.tree) && Queues(m.blocked, m.sem) && |m.sem| == |m.tree.kids| by {
      CoreParts(m);
    }
    DrainOne(m.blocked, m.sem, p);
    PrunedOne(m.tree, p);
    SoftOne(m, p);
    assert Elems([p]) == {p} && Reverse([p]) == [p];
    assert Unblocked(m, p).blocked == Drained(m.blocked, {p});
  }

  lemma CoreParts(m: K)
    requires Core(m)
    ensures Forest(m.tree) && Queues(m.blocked, m.sem) && |m.sem| == |m.tree.kids|
  {
  }

  lemma SoftOne(m: K, p: nat)
    requires p < |m.sem|
    ensures |SoftSet(m) * {p}| == if m.lay.Soft(m.sem[p]) then 1 else 0
  {
    assert SoftSet(m) * {p} == if m.lay.Soft(m.sem[p]) then {p} else {};
  }

  lemma KillLast(k: K, p: nat)
    requires Core(k) && p < |k.sem| && p !in k.free && k.tree.parent[p] == -1
    ensures var m := Killed(k, Dead(k.tree, p, |k.tree.kids[p]|));
            Core(m) && p !in m.free && m.tree.kids[p] == [] && Buried(m, p) == KernelSteps.Terminated(k, p)
  {
    var n := |k.tree.kids[p]|;
    DeadCore(k, p, n);
    KidsLeft(k.tree, p, n);
    DeadAll(k.tree, p);
    DeadNoDup(k.tree, p, n);
    BuriedIsKilled(Killed(k, Dead(k.tree, p, n)), p);
    KilledTwice(k, Dead(k.tree, p, n), [p]);
  }

  lemma KillNone(k: K, p: nat)
    requires Core(k) && p < |k.sem|
    ensures Killed(k, Dead(k.tree, p, 0)) == k
  {
    assert Dead(k.tree, p, 0) == [] && Elems([]) == {};
    KilledNone(k);
  }

  lemma KilledNone(k: K)
    requires Core(k)
    ensures Killed(k, []) == k
  {
    hide Minus, SoftSet, Loose;
    MinusNone(k.ready, {});
    DrainedNone(k.blocked);
    PrunedNone(k.tree);
    hide Drained, Pruned, Forest;
    assert Released(k.sem, {}) == k.sem;
    assert Elems([]) == {} && SoftSet(k) * {} == {};
  }

  lemma DrainedNone(m: map<int, seq<nat>>)
    requires forall a :: a in m ==> m[a] != []
    ensures Drained(m, {}) == m
  {
    forall a | a in m
      ensures Minus(m[a], {}) == m[a]
    {
      MinusNone(m[a], {});
    }
    forall b
      ensures b in Drained(m, {}) <==> b in m
    {
    }
  }

  lemma PrunedNone(t: Tree)
    requires Forest(t)
    ensures Pruned(t, {}) == t
  {
    forall q | 0 <= q < |t.kids|
      ensures Minus(t.kids[q], {}) == t.kids[q]
    {
      MinusNone(t.kids[q], {});
    }
  }

  /** What the loop finds after `i` children: `p` is live, and the rest of its children is left. */
  lemma KillNext(k: K, p: nat, i: nat)
    requires Core(k) && p < |k.sem| && p !in k.free && i <= |k.tree.kids[p]|
    ensures var m := Killed(k, Dead(k.tree, p, i));
            Core(m) && |m.sem| == |k.sem| && p !in m.free && m.tree.kids[p] == k.tree.kids[p][i..]
            && m.tree.born == k.tree.born && m.tree.birth == k.tree.birth
    ensures i < |k.tree.kids[p]| ==>
              var c := k.tree.kids[p][i];
              c < |k.sem| && k.tree.birth[p] < k.tree.birth[c] < k.tree.born
  {
    DeadCore(k, p, i);
    KidsLeft(k.tree, p, i);
    if i < |k.tree.kids[p]| {
      assert k.tree.kids[p][i] in k.tree.kids[p];
    }
  }

  /** Cutting a process off its parent does not change its subtree. */
  lemma PostApart(t: Tree, p: nat)
    requires Forest(t) && p < |t.kids|
    ensures Post(Pruned(t, {p}), p) == Post(t, p)
  {
    forall x | x in Post(t, p)
      ensures Pruned(t, {p}).kids[x] == t.kids[x]
    {
      PostIsSubtree(t, p, x);
      WithinBirth(t, x, p);
      MinusNone(t.kids[x], {p});
    }
    PostSame(t, Pruned(t, {p}), p);
  }

  lemma CoreApart(k: K, p: nat)
    requires Core(k) && p < |k.sem|
    ensures Core(k.(tree := Pruned(k.tree, {p})))
  {
    var u := k.(tree := Pruned(k.tree, {p}));
    forall x | x in k.free
      ensures u.tree.kids[x] == []
    {
      assert k.tree.kids[x] == [];
    }
    assert SoftSet(u) == SoftSet(k);
  }

  /** outChild before the recursion does not change what is freed in the end. */
  lemma TopApart(k: K, p: nat)
    requires Core(k) && p < |k.sem| && p !in k.free
    ensures var u := k.(tree := Pruned(k.tree, {p}));
            Core(u) && u.tree.parent[p] == -1 && KernelSteps.Terminated(u, p) == KernelSteps.Terminated(k, p)
  {
    var u := k.(tree := Pruned(k.tree, {p}));
    CoreApart(k, p);
    PostApart(k.tree, p);
    var dead := Post(k.tree, p);
    PrunedTwice(k.tree, {p}, Elems(dead));
    assert p in dead && {p} + Elems(dead) == Elems(dead);
    assert SoftSet(u) == SoftSet(k);
  }
}
