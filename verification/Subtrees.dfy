/** What the operations on a subtree amount to: terminating a process, giving it a namespace, and the
    order in which children are listed. */
module Subtrees {
  import opened Seqs
  import opened Trees
  import opened KernelState
  import opened KernelSteps
  import KernelInvariant
  import opened Namespaces
  import KernelFacts
  import opened Runs

  /** The processes whose chain of parents leads to `p`. */
  ghost function Subtree(t: Tree, p: nat): set<nat>
    requires Forest(t) && p < |t.kids|
  {
    set x: nat | x < |t.kids| && Within(t, x, p)
  }

  lemma PostElems(t: Tree, p: nat)
    requires Forest(t) && p < |t.kids|
    ensures Elems(Post(t, p)) == Subtree(t, p) && |Post(t, p)| == |Subtree(t, p)|
  {
    forall x: nat
      ensures x in Elems(Post(t, p)) <==> x in Subtree(t, p)
    {
      if x < |t.kids| {
        PostIsSubtree(t, p, x);
      }
    }
    PostNoDup(t, p);
    ElemsSize(Post(t, p));
  }

  /** Terminating a process frees its subtree and nothing else: the free list grows by the reverse of
      the postorder, so that the process itself comes first; every queue keeps the others in order, and
      a semaphore whose queue is empty is no longer active; both counters drop by what has gone. */
  lemma TerminationFreesSubtree(k: K, p: nat)
    requires Core(k) && p < |k.sem| && p !in k.free
    ensures var r := Terminated(k, p);
            var gone := Subtree(k.tree, p);
            && r.free == Reverse(Post(k.tree, p)) + k.free && r.free[0] == p
            && (forall x :: x in r.free <==> x in k.free || x in gone) && gone !! Elems(k.free)
            && r.ready == Minus(k.ready, gone)
            && (forall a :: a in r.blocked <==> a in k.blocked && Minus(k.blocked[a], gone) != [])
            && (forall a :: a in r.blocked ==> r.blocked[a] == Minus(k.blocked[a], gone))
            && r.procs == k.procs - |gone| && r.soft == k.soft - |SoftSet(k) * gone|
  {
    var dead := Post(k.tree, p);
    PostElems(k.tree, p);
    KernelInvariant.DeadIsSubtree(k, p);
    var rest := PostAll(k.tree, k.tree.kids[p], k.tree.birth[p]);
    ReverseAppend(rest, [p]);
    assert Reverse([p]) == [p];
    assert forall x :: x in dead <==> x in Elems(dead);
  }

  /** The processes outside keep their fields and their children, but for the process itself, which
      leaves its parent's child list. */
  lemma TerminationSparesOthers(k: K, p: nat, x: nat)
    requires Core(k) && p < |k.sem| && p !in k.free && x < |k.sem| && !Within(k.tree, x, p)
    ensures var r := Terminated(k, p);
            && r.sem[x] == k.sem[x] && r.tree.parent[x] == k.tree.parent[x]
            && r.tree.kids[x] == Minus(k.tree.kids[x], {p})
            && (k.tree.parent[p] != x ==> r.tree.kids[x] == k.tree.kids[x])
            && r.pid == k.pid && r.mem == k.mem && r.spaces == k.spaces && r.current == k.current
  {
    PostElems(k.tree, p);
    var l, d := k.tree.kids[x], Elems(Post(k.tree, p));
    forall c | c in l
      ensures c in d <==> c == p
    {
      assert k.tree.parent[c] == x;
    }
    MinusSame(l, d, {p});
    if k.tree.parent[p] != x {
      assert p !in l;
      MinusNone(l, {p});
    }
  }

  lemma {:induction false} MinusSame(s: seq<nat>, d: set<nat>, e: set<nat>)
    requires forall x :: x in s ==> (x in d <==> x in e)
    ensures Minus(s, d) == Minus(s, e)
  {
    if s != [] {
      assert s[0] in s;
      MinusSame(s[1..], d, e);
    }
  }

  /** addNamespace sets one slot, that of the descriptor's type, in the process and its descendants and
      in no other process; and the descriptor ends up in the used list, once, and nowhere else. */
  lemma NamespaceOfSubtree(s: Spaces, t: Tree, p: nat, d: nat)
    requires SpacesOk(s) && Forest(t) && p < |t.kids| == |s.slots| && d < |s.kind| && 0 <= s.kind[d] < NS_TYPE_MAX
    ensures var r := SpaceAdded(s, t, p, d);
            && SpacesOk(r) && r.kind == s.kind && |r.slots| == |s.slots|
            && (forall q, i :: 0 <= q < |s.slots| && 0 <= i < NS_TYPE_MAX ==>
                  r.slots[q][i] == if i == s.kind[d] && Within(t, q, p) then d else s.slots[q][i])
            && d !in r.free && multiset(r.used)[d] == 1
            && (forall x :: x != d ==> (x in r.free <==> x in s.free) && (x in r.used <==> x in s.used))
  {
    SpacesOkAdded(s, t, p, d);
    assert d !in Minus(s.used, {d});
  }

  /** Adding a namespace a second time changes nothing. */
  lemma NamespaceIdempotent(s: Spaces, t: Tree, p: nat, d: nat)
    requires SpacesOk(s) && Forest(t) && p < |t.kids| == |s.slots| && d < |s.kind| && 0 <= s.kind[d] < NS_TYPE_MAX
    ensures var r := SpaceAdded(s, t, p, d); SpaceAdded(r, t, p, d) == r
  {
    SlotsTwice(s, t, p, d);
    hide Forest, Within;
    MinusMinus(s.free, {d}, {d});
    MinusMinus(s.used, {d}, {d});
    assert {d} + {d} == {d};
    MinusAppend(Minus(s.used, {d}), [d], {d});
    assert Minus([d], {d}) == [];
  }

  lemma SlotsTwice(s: Spaces, t: Tree, p: nat, d: nat)
    requires SpacesOk(s) && Forest(t) && p < |t.kids| == |s.slots| && d < |s.kind| && 0 <= s.kind[d] < NS_TYPE_MAX
    ensures var r := SpaceAdded(s, t, p, d); SpaceAdded(r, t, p, d).slots == r.slots
  {
    var i := s.kind[d];
    assert forall q :: 0 <= q < |s.slots| ==> s.slots[q][i := d][i := d] == s.slots[q][i := d];
  }

  /** getNamespace finds the namespace in the subtree that was given it, and elsewhere what it found
      before. */
  lemma NamespaceFound(s: Spaces, t: Tree, p: nat, d: nat, q: nat, ty: int, nullWord: int)
    requires SpacesOk(s) && Forest(t) && p < |t.kids| == |s.slots| && d < |s.kind| && 0 <= s.kind[d] < NS_TYPE_MAX
    requires q < |s.slots|
    ensures var r := SpaceAdded(s, t, p, d);
            && |r.slots| == |s.slots| && SpacesOk(r)
            && (Within(t, q, p) ==> Space(r, q, s.kind[d], 0, nullWord) == d)
            && (!Within(t, q, p) ==> Space(r, q, ty, 0, nullWord) == Space(s, q, ty, 0, nullWord))
  {
    SpacesOkAdded(s, t, p, d);
    var r := SpaceAdded(s, t, p, d);
    assert |r.slots[q]| == NS_TYPE_MAX == 1;
    assert r.kind == s.kind;
    if !Within(t, q, p) {
      assert r.slots[q] == s.slots[q];
      assert Space(r, q, ty, 1, nullWord) == -1 == Space(s, q, ty, 1, nullWord);
    }
  }

  /** Each process of the list was created before the next. */
  ghost predicate Aged(birth: seq<nat>, s: seq<nat>) {
    && (forall i :: 0 <= i < |s| ==> s[i] < |birth|)
    && forall i, j :: 0 <= i < j < |s| ==> birth[s[i]] < birth[s[j]]
  }

  ghost predicate AllAged(t: Tree) {
    forall q :: 0 <= q < |t.kids| ==> Aged(t.birth, t.kids[q])
  }

  lemma {:induction false} AgedMinus(birth: seq<nat>, s: seq<nat>, d: set<nat>)
    requires Aged(birth, s)
    ensures Aged(birth, Minus(s, d))
  {
    if s != [] {
      AgedMinus(birth, s[1..], d);
      var m := Minus(s[1..], d);
      assert Minus(s, d) == if s[0] in d then m else [s[0]] + m;
      hide Minus;
      forall j | 0 <= j < |m|
        ensures birth[s[0]] < birth[m[j]]
      {
        assert m[j] in m && m[j] in s[1..];
      }
    }
  }

  lemma {:induction false} AgedInSpace(birth: seq<nat>, s: Spaces, cs: seq<nat>, d: int, nullWord: int)
    requires Aged(birth, cs) && SpacesOk(s) && forall i :: 0 <= i < |cs| ==> cs[i] < |s.slots|
    ensures Aged(birth, KidsInSpace(s, cs, d, nullWord))
  {
    if cs != [] {
      AgedInSpace(birth, s, cs[1..], d, nullWord);
      var m := KidsInSpace(s, cs[1..], d, nullWord);
      forall j | 0 <= j < |m|
        ensures birth[cs[0]] < birth[m[j]]
      {
        assert m[j] in m && m[j] in cs[1..];
      }
    }
  }

  lemma PrunedAged(t: Tree, d: set<nat>)
    requires Forest(t) && AllAged(t)
    ensures AllAged(Pruned(t, d))
  {
    forall q | 0 <= q < |t.kids|
      ensures Aged(t.birth, Minus(t.kids[q], d))
    {
      AgedMinus(t.birth, t.kids[q], d);
    }
  }

  lemma BornAged(t: Tree, c: nat)
    requires Forest(t) && AllAged(t) && c < |t.kids| && t.parent[c] == -1 && t.kids[c] == []
    ensures AllAged(Born(t, c))
  {
    var r := Born(t, c);
    forall q | 0 <= q < |t.kids|
      ensures Aged(r.birth, r.kids[q])
    {
      assert c !in t.kids[q];
      assert forall i :: 0 <= i < |t.kids[q]| ==>
               t.kids[q][i] in t.kids[q] && r.birth[t.kids[q][i]] == t.birth[t.kids[q][i]];
    }
  }

  /** The youngest process takes the last place. */
  lemma AdoptedAged(t: Tree, p: nat, c: nat)
    requires Forest(t) && AllAged(t) && p < |t.kids| && c < |t.kids| && t.parent[c] == -1
    requires forall x :: 0 <= x < |t.birth| && x != c ==> t.birth[x] < t.birth[c]
    requires p != c
    ensures AllAged(Adopted(t, p, c))
  {
    var r := Adopted(t, p, c);
    assert c !in t.kids[p];
    forall i | 0 <= i < |t.kids[p]|
      ensures t.birth[t.kids[p][i]] < t.birth[c]
    {
      assert t.kids[p][i] in t.kids[p];
    }
    assert Aged(r.birth, t.kids[p] + [c]);
  }

  lemma SpawnedAged(k: K)
    requires Inv(k) && k.current != -1 && k.free != [] && AllAged(k.tree)
    ensures AllAged(Spawned(k).tree)
  {
    var p := k.free[0];
    assert p in k.free;
    BornAged(k.tree, p);
    AdoptedAged(Born(k.tree, p), k.current, p);
  }

  lemma StepAged(k: K, e: Event)
    requires Inv(k) && Legal(k, e) && AllAged(k.tree)
    ensures AllAged(Step(k, e).0.tree)
  {
    match e
    case Create(d) =>
      if k.free != [] {
        SpawnedAged(k);
      }
    case Terminate(pid, t) =>
      if t != -1 {
        if pid != 0 {
          KernelInvariant.ListedIsLive(k, t, pid);
        }
        PrunedAged(k.tree, Elems(Post(k.tree, t)));
      }
    case Interrupt(timer, tick, devs) => InterruptFrame(k, timer, tick, devs);
    case _ => SameTree(k, e);
  }

  lemma SameTree(k: K, e: Event)
    requires Inv(k) && Legal(k, e) && !e.Create? && !e.Terminate? && !e.Interrupt?
    ensures Step(k, e).0.tree == k.tree
  {
    HeadsOk(k);
  }

  lemma {:induction false} RunAged(k: K, es: seq<Event>)
    requires Inv(k) && LegalRun(k, es) && AllAged(k.tree)
    ensures AllAged(Run(k, es).tree)
    decreases |es|
  {
    if es != [] {
      KernelInvariant.StepKeepsInv(k, es[0]);
      StepAged(k, es[0]);
      RunAged(Step(k, es[0]).0, es[1..]);
    }
  }

  /** What getChildren lists, at any point of any run: exactly the children of the caller that share
      its PID namespace, oldest first. */
  lemma ChildrenListed(lay: Layout, n: nat, kind: seq<int>, mem: map<int, nat>, es: seq<Event>)
    requires n > 0 && lay.WellPlaced() && KernelInvariant.KernelMemory(lay, mem)
    requires LegalRun(Started(lay, n, kind, mem), es) && Run(Started(lay, n, kind, mem), es).current != -1
    ensures var k := Run(Started(lay, n, kind, mem), es);
            && |k.spaces.slots| == |k.sem| == |k.tree.parent| && 0 <= k.current < |k.sem|
            && Aged(k.tree.birth, KernelFacts.ChildrenOf(k))
            && forall x: nat :: x in KernelFacts.ChildrenOf(k) <==>
                 x < |k.sem| && k.tree.parent[x] == k.current
                 && Space(k.spaces, x, NS_PID, 0, k.lay.nullWord) ==
                    Space(k.spaces, k.current, NS_PID, 0, k.lay.nullWord)
  {
    var s := Started(lay, n, kind, mem);
    RunAged(s, es);
    var k := Run(s, es);
    KidsAreEntries(k.tree, k.current);
    AgedInSpace(k.tree.birth, k.spaces, k.tree.kids[k.current], Space(k.spaces, k.current, NS_PID, 0, k.lay.nullWord),
                k.lay.nullWord);
  }
}
