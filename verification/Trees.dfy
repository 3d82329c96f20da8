/** The process tree as values: child lists, parent pointers and the order in which the
    processes were created. */
module Trees {
  import opened Seqs

  /** `kids[q]` is the child list of `q`, `parent[c]` the parent of `c` or -1.  The C code has no
      `birth`: it stamps each process with its place in the order of creation. */
  datatype Tree = Tree(kids: seq<seq<nat>>, parent: seq<int>, birth: seq<nat>, born: nat)

  /** Parent pointers and child lists describe the same forest. */
  ghost predicate Forest(t: Tree) {
    && |t.parent| == |t.kids| == |t.birth|
    && (forall q :: 0 <= q < |t.kids| ==> NoDup(t.kids[q]) && t.birth[q] < t.born)
    && (forall q, c {:trigger c in t.kids[q]} :: 0 <= q < |t.kids| && c in t.kids[q] ==>
          c < |t.kids| && t.parent[c] == q && t.birth[q] < t.birth[c])
    && (forall c {:trigger t.parent[c]} :: 0 <= c < |t.kids| && t.parent[c] != -1 ==>
          0 <= t.parent[c] < |t.kids| && c in t.kids[t.parent[c]])
  }

  ghost predicate KidsAfter(t: Tree, cs: seq<nat>, b: nat)
    requires Forest(t)
  {
    forall c :: c in cs ==> c < |t.kids| && b < t.birth[c]
  }

  /** The processes of the subtree of `p`, each after its children. */
  ghost function Post(t: Tree, p: nat): (r: seq<nat>)
    requires Forest(t) && p < |t.kids|
    ensures forall x :: x in r ==> x < |t.kids| && t.birth[p] <= t.birth[x]
    decreases t.born - t.birth[p]
  {
    PostAll(t, t.kids[p], t.birth[p]) + [p]
  }

  ghost function PostAll(t: Tree, cs: seq<nat>, b: nat): (r: seq<nat>)
    requires Forest(t) && KidsAfter(t, cs, b)
    ensures forall x :: x in r ==> x < |t.kids| && b < t.birth[x]
    decreases t.born - b, |cs|
  {
    if cs == [] then []
    else
      assert cs[0] in cs;
      Post(t, cs[0]) + PostAll(t, cs[1..], b)
  }

  /** `p` is `x` or one of its ancestors. */
  ghost predicate Within(t: Tree, x: nat, p: nat)
    requires Forest(t) && x < |t.kids| && p < |t.kids|
    decreases t.birth[x]
  {
    x == p || (t.parent[x] != -1 && Within(t, t.parent[x], p))
  }

  /** The tree once the processes of `d` have left every child list and have lost their parent. */
  ghost function Pruned(t: Tree, d: set<nat>): (r: Tree)
    requires Forest(t)
    ensures Forest(r)
  {
    var r := t.(kids := seq(|t.kids|, q requires 0 <= q < |t.kids| => Minus(t.kids[q], d)),
                parent := seq(|t.parent|, c requires 0 <= c < |t.parent| => if c in d then -1 else t.parent[c]));
    assert forall q :: 0 <= q < |t.kids| ==> NoDup(r.kids[q]) by {
      forall q | 0 <= q < |t.kids| ensures NoDup(r.kids[q]) { MinusNoDup(t.kids[q], d); }
    }
    r
  }

  /** A process with neither parent nor children takes its place in the order of creation. */
  ghost function Born(t: Tree, c: nat): (r: Tree)
    requires Forest(t) && c < |t.kids| && t.parent[c] == -1 && t.kids[c] == []
    ensures Forest(r)
  {
    assert forall q :: 0 <= q < |t.kids| ==> c !in t.kids[q];
    t.(birth := t.birth[c := t.born], born := t.born + 1)
  }

  /** resetPcb of a process in no child list: it has no parent, and is the youngest. */
  function Reset(t: Tree, c: nat): Tree
    requires c < |t.parent| && c < |t.birth|
  {
    t.(parent := t.parent[c := -1], birth := t.birth[c := t.born], born := t.born + 1)
  }

  lemma ResetIsBorn(t: Tree, c: nat)
    requires Forest(t) && c < |t.kids| && t.parent[c] == -1 && t.kids[c] == []
    ensures Reset(t, c) == Born(t, c)
  {
    assert t.parent[c := -1] == t.parent;
  }

  /** insertChild: `c` becomes the last child of `p`. */
  ghost function Adopted(t: Tree, p: nat, c: nat): (r: Tree)
    requires Forest(t) && p < |t.kids| && c < |t.kids|
    requires t.parent[c] == -1 && t.birth[p] < t.birth[c]
    ensures Forest(r)
  {
    var r := t.(kids := t.kids[p := t.kids[p] + [c]], parent := t.parent[c := p]);
    assert c !in t.kids[p];
    NoDupAppend(t.kids[p], [c]);
    assert forall q, x {:trigger x in r.kids[q]} :: 0 <= q < |r.kids| && x in r.kids[q] ==>
      x in t.kids[q] || (q == p && x == c);
    assert forall q :: 0 <= q < |t.kids| ==> c !in t.kids[q];
    assert forall x {:trigger r.parent[x]} :: 0 <= x < |r.kids| && r.parent[x] != -1 ==>
      x in r.kids[r.parent[x]] by {
      assert c in r.kids[p];
    }
    r
  }

  /** The subtree of a process without parent, stamped as if it had been created after all others. */
  ghost function Renewed(t: Tree, c: nat): (r: Tree)
    requires Forest(t) && c < |t.kids| && t.parent[c] == -1
    ensures Forest(r) && r.kids == t.kids && r.parent == t.parent
    ensures forall x :: 0 <= x < |t.kids| ==> r.birth[x] == if Within(t, x, c) then t.birth[x] + t.born else t.birth[x]
  {
    t.(birth := seq(|t.birth|,
                    x requires 0 <= x < |t.birth| => if Within(t, x, c) then t.birth[x] + t.born else t.birth[x]),
       born := 2 * t.born)
  }

  /** insertChild under any process that is not in the child's own subtree. */
  ghost function Attached(t: Tree, p: nat, c: nat): (r: Tree)
    requires Forest(t) && p < |t.kids| && c < |t.kids| && t.parent[c] == -1 && !Within(t, p, c)
    ensures Forest(r) && r.kids == t.kids[p := t.kids[p] + [c]] && r.parent == t.parent[c := p]
  {
    if t.birth[p] < t.birth[c] then Adopted(t, p, c)
    else
      assert Within(t, c, c);
      Adopted(Renewed(t, c), p, c)
  }

  lemma {:induction false} WithinTrans(t: Tree, x: nat, y: nat, p: nat)
    requires Forest(t) && x < |t.kids| && y < |t.kids| && p < |t.kids|
    requires Within(t, x, y) && Within(t, y, p)
    ensures Within(t, x, p)
    decreases t.birth[x]
  {
    if x != y {
      WithinTrans(t, t.parent[x], y, p);
    }
  }

  /** A process is at least as young as everything it is within, so no chain of parents returns. */
  lemma {:induction false} WithinBirth(t: Tree, x: nat, p: nat)
    requires Forest(t) && x < |t.kids| && p < |t.kids| && Within(t, x, p)
    ensures t.birth[p] <= t.birth[x]
    ensures t.birth[p] == t.birth[x] ==> x == p
    decreases t.birth[x]
  {
    if x != p {
      WithinBirth(t, t.parent[x], p);
    }
  }

  lemma OlderOutside(t: Tree, x: nat, p: nat)
    requires Forest(t) && x < |t.kids| && p < |t.kids| && t.birth[x] < t.birth[p]
    ensures !Within(t, x, p)
  {
    if Within(t, x, p) {
      WithinBirth(t, x, p);
    }
  }

  /** Of two processes that a third is within, one is within the other. */
  lemma {:induction false} WithinChain(t: Tree, x: nat, a: nat, b: nat)
    requires Forest(t) && x < |t.kids| && a < |t.kids| && b < |t.kids|
    requires Within(t, x, a) && Within(t, x, b)
    ensures Within(t, a, b) || Within(t, b, a)
    decreases t.birth[x]
  {
    if x != a && x != b {
      WithinChain(t, t.parent[x], a, b);
    }
  }

  lemma {:induction false} SiblingsApart(t: Tree, x: nat, a: nat, b: nat)
    requires Forest(t) && x < |t.kids| && a < |t.kids| && b < |t.kids|
    requires a != b && t.parent[a] == t.parent[b] != -1
    requires Within(t, x, a)
    ensures !Within(t, x, b)
  {
    if Within(t, x, b) {
      WithinChain(t, x, a, b);
      var u, v := if Within(t, a, b) then a else b, if Within(t, a, b) then b else a;
      WithinBirth(t, t.parent[u], v);
    }
  }

  /** The subtree in postorder holds exactly the processes whose chain of parents leads to `p`. */
  lemma {:induction false} PostIsSubtree(t: Tree, p: nat, x: nat)
    requires Forest(t) && p < |t.kids| && x < |t.kids|
    ensures x in Post(t, p) <==> Within(t, x, p)
    decreases t.born - t.birth[p]
  {
    PostAllIsSubtrees(t, t.kids[p], t.birth[p], x);
    if x != p {
      if Within(t, x, p) {
        WithinChild(t, x, p);
      } else {
        forall c | c in t.kids[p]
          ensures !Within(t, x, c)
        {
          if Within(t, x, c) {
            WithinTrans(t, x, c, p);
          }
        }
      }
    }
  }

  lemma {:induction false} PostAllIsSubtrees(t: Tree, cs: seq<nat>, b: nat, x: nat)
    requires Forest(t) && KidsAfter(t, cs, b) && x < |t.kids|
    ensures x in PostAll(t, cs, b) <==> exists c :: c in cs && Within(t, x, c)
    decreases t.born - b, |cs|
  {
    if cs != [] {
      assert cs[0] in cs;
      PostIsSubtree(t, cs[0], x);
      PostAllIsSubtrees(t, cs[1..], b, x);
      assert forall c :: c in cs <==> c == cs[0] || c in cs[1..];
    }
  }

  lemma {:induction false} WithinChild(t: Tree, x: nat, p: nat)
    requires Forest(t) && x < |t.kids| && p < |t.kids| && Within(t, x, p) && x != p
    ensures exists c :: c in t.kids[p] && Within(t, x, c)
    decreases t.birth[x]
  {
    if t.parent[x] == p {
      assert x in t.kids[p] && Within(t, x, x);
    } else {
      WithinChild(t, t.parent[x], p);
      var c :| c in t.kids[p] && Within(t, t.parent[x], c);
      assert Within(t, x, c);
    }
  }

  lemma {:induction false} PostNoDup(t: Tree, p: nat)
    requires Forest(t) && p < |t.kids|
    ensures NoDup(Post(t, p))
    decreases t.born - t.birth[p]
  {
    PostAllNoDup(t, p, t.kids[p]);
    NoDupAppend(PostAll(t, t.kids[p], t.birth[p]), [p]);
  }

  lemma {:induction false} PostAllNoDup(t: Tree, p: nat, cs: seq<nat>)
    requires Forest(t) && p < |t.kids| && NoDup(cs) && forall c :: c in cs ==> c in t.kids[p]
    ensures NoDup(PostAll(t, cs, t.birth[p]))
    decreases t.born - t.birth[p], |cs|
  {
    if cs != [] {
      assert cs[0] in cs;
      PostNoDup(t, cs[0]);
      PostAllNoDup(t, p, cs[1..]);
      forall x | x in Post(t, cs[0])
        ensures x !in PostAll(t, cs[1..], t.birth[p])
      {
        PostIsSubtree(t, cs[0], x);
        PostAllIsSubtrees(t, cs[1..], t.birth[p], x);
        forall c | c in cs[1..]
          ensures !Within(t, x, c)
        {
          SiblingsApart(t, x, cs[0], c);
        }
      }
      NoDupAppend(Post(t, cs[0]), PostAll(t, cs[1..], t.birth[p]));
    }
  }

  /** Two trees with the same child lists throughout a subtree have that subtree in common. */
  lemma {:induction false} PostSame(t: Tree, u: Tree, p: nat)
    requires Forest(t) && Forest(u) && |t.kids| == |u.kids| && t.birth == u.birth && t.born == u.born
    requires p < |t.kids| && forall x :: x in Post(t, p) ==> u.kids[x] == t.kids[x]
    ensures Post(u, p) == Post(t, p)
    decreases t.born - t.birth[p]
  {
    assert p in Post(t, p);
    PostAllSame(t, u, t.kids[p], t.birth[p]);
  }

  lemma {:induction false} PostAllSame(t: Tree, u: Tree, cs: seq<nat>, b: nat)
    requires Forest(t) && Forest(u) && |t.kids| == |u.kids| && t.birth == u.birth && t.born == u.born
    requires KidsAfter(t, cs, b) && forall x :: x in PostAll(t, cs, b) ==> u.kids[x] == t.kids[x]
    ensures KidsAfter(u, cs, b) && PostAll(u, cs, b) == PostAll(t, cs, b)
    decreases t.born - b, |cs|
  {
    if cs != [] {
      assert cs[0] in cs;
      assert PostAll(t, cs, b) == Post(t, cs[0]) + PostAll(t, cs[1..], b);
      PostSame(t, u, cs[0]);
      PostAllSame(t, u, cs[1..], b);
    }
  }

  lemma {:induction false} PostAllAppend(t: Tree, cs: seq<nat>, ds: seq<nat>, b: nat)
    requires Forest(t) && KidsAfter(t, cs + ds, b)
    ensures KidsAfter(t, cs, b) && KidsAfter(t, ds, b)
    ensures PostAll(t, cs + ds, b) == PostAll(t, cs, b) + PostAll(t, ds, b)
    decreases |cs|
  {
    assert forall c :: c in cs + ds <==> c in cs || c in ds;
    if cs == [] {
      assert cs + ds == ds;
    } else {
      assert (cs + ds)[1..] == cs[1..] + ds;
      assert forall c :: c in cs[1..] + ds ==> c in cs + ds;
      PostAllAppend(t, cs[1..], ds, b);
    }
  }

  lemma FirstKids(t: Tree, p: nat, k: nat)
    requires Forest(t) && p < |t.kids| && k <= |t.kids[p]|
    ensures KidsAfter(t, t.kids[p][..k], t.birth[p])
  {
    assert forall c :: c in t.kids[p][..k] ==> c in t.kids[p];
  }

  lemma PrunedTwice(t: Tree, a: set<nat>, b: set<nat>)
    requires Forest(t)
    ensures Pruned(Pruned(t, a), b) == Pruned(t, a + b)
  {
    forall q | 0 <= q < |t.kids|
      ensures Minus(Minus(t.kids[q], a), b) == Minus(t.kids[q], a + b)
    {
      MinusMinus(t.kids[q], a, b);
    }
  }

  lemma NoParentNoSibling(t: Tree, p: nat)
    requires Forest(t) && p < |t.kids| && t.parent[p] == -1
    ensures forall q :: 0 <= q < |t.kids| ==> p !in t.kids[q]
  {
  }

  lemma PrunedOne(t: Tree, p: nat)
    requires Forest(t) && p < |t.kids|
    ensures Pruned(t, {p}) == t.(kids := Unlinked(t.kids, p), parent := t.parent[p := -1])
    ensures t.parent[p] == -1 ==> Pruned(t, {p}) == t
  {
    if t.parent[p] == -1 {
      NoParentNoSibling(t, p);
      forall q | 0 <= q < |t.kids|
        ensures Minus(t.kids[q], {p}) == t.kids[q]
      {
        MinusNone(t.kids[q], {p});
      }
    }
  }
}
