/** The single-headed chains of list.h (hlist) as the buckets of the table in hashtable.h, and
    the multiplicative hash of hash.h. */
module HashLists {
  import opened Seqs
  import opened Lists
  import opened Machine

  /** What a `struct hlist_node **` can point at: nothing, the `first` field of a bucket or the
      `next` field of a node. */
  datatype Slot = NullSlot | FirstOf(bucket: HHead) | NextOf(node: HNode)

  class HHead {
    var first: HNode?
    const tag: nat

    constructor (tag: nat)
      ensures first == null && this.tag == tag
    {
      this.tag := tag;
      first := null;
    }
  }

  class HNode {
    var next: HNode?
    var pprev: Slot
    const tag: nat

    constructor (tag: nat)
      ensures next == null && pprev == NullSlot && this.tag == tag
    {
      this.tag := tag;
      next, pprev := null, NullSlot;
    }
  }

  /** A hash table whose entries are those of one table, entry `i` chained through `nodes[i]`. */
  class HashTable {
    const buckets: seq<HHead>
    const nodes: seq<HNode>
    ghost const Repr: set<object>
    ghost var chains: seq<seq<nat>>
    ghost var home: seq<int>

    ghost predicate InTable(l: seq<nat>) {
      forall k :: 0 <= k < |l| ==> l[k] < |nodes|
    }

    /** The node at position `k` of a chain. */
    ghost function Nth(l: seq<nat>, k: nat): HNode
      requires InTable(l) && k < |l|
    {
      nodes[l[k]]
    }

    /** What follows position `k`, and what the bucket points at for `k == -1`. */
    ghost function After(l: seq<nat>, k: int): HNode?
      requires InTable(l) && -1 <= k
    {
      if k + 1 < |l| then nodes[l[k + 1]] else null
    }

    /** The pointer cell through which position `k` of chain `b` is reached. */
    ghost function Before(b: nat, l: seq<nat>, k: int): Slot
      requires b < |buckets| && InTable(l)
    {
      if 0 < k <= |l| then NextOf(nodes[l[k - 1]]) else FirstOf(buckets[b])
    }

    ghost predicate Chain(b: nat, l: seq<nat>)
      requires b < |buckets| && InTable(l)
      reads buckets, nodes
    {
      && buckets[b].first == After(l, -1)
      && forall j {:trigger Nth(l, j)} :: 0 <= j < |l| ==>
           Nth(l, j).next == After(l, j) && Nth(l, j).pprev == Before(b, l, j)
    }

    ghost predicate Tagged() {
      && (forall b :: 0 <= b < |buckets| ==> buckets[b].tag == b)
      && (forall i :: 0 <= i < |nodes| ==> nodes[i].tag == i)
    }

    ghost predicate Represents(chains: seq<seq<nat>>, home: seq<int>)
      reads buckets, nodes
    {
      && |chains| == |buckets| && |home| == |nodes|
      && Tagged() && Family(chains, home)
      && (forall b :: 0 <= b < |buckets| ==> Chain(b, chains[b]))
      && (forall i :: 0 <= i < |nodes| && home[i] == -1 ==> nodes[i].pprev == NullSlot)
    }

    ghost predicate Valid()
      reads this, Repr
    {
      && Repr == {this} + (set o: object | o in buckets) + (set o: object | o in nodes)
      && Represents(chains, home)
    }

    ghost predicate Unhashed(i: nat)
      reads this
    {
      forall b :: 0 <= b < |chains| ==> i !in chains[b]
    }

    constructor (bucketCount: nat, nodeCount: nat)
      ensures Valid() && fresh(Repr)
      ensures |buckets| == bucketCount && |nodes| == nodeCount
      ensures chains == Fill(bucketCount, []) && home == Fill(nodeCount, -1)
    {
      var bs: seq<HHead> := [];
      var ns: seq<HNode> := [];
      while |bs| < bucketCount
        invariant |bs| <= bucketCount
        invariant forall b :: 0 <= b < |bs| ==> fresh(bs[b]) && bs[b].tag == b && bs[b].first == null
      {
        var o := new HHead(|bs|);
        bs := bs + [o];
      }
      while |ns| < nodeCount
        invariant |ns| <= nodeCount
        invariant forall b :: 0 <= b < |bs| ==> fresh(bs[b]) && bs[b].tag == b && bs[b].first == null
        invariant forall i :: 0 <= i < |ns| ==> fresh(ns[i]) && ns[i].tag == i && ns[i].pprev == NullSlot
      {
        var o := new HNode(|ns|);
        ns := ns + [o];
      }
      buckets, nodes := bs, ns;
      Repr := {this} + (set o: object | o in bs) + (set o: object | o in ns);
      chains := Fill(bucketCount, []);
      home := Fill(nodeCount, -1);
    }

    lemma SameBuckets()
      requires Valid()
      ensures |chains| == |buckets| && |home| == |nodes|
    {
    }

    lemma HomeIsChain(i: nat)
      requires Valid() && i < |nodes|
      ensures Unhashed(i) <==> home[i] == -1
      ensures home[i] != -1 ==> 0 <= home[i] < |chains| && i in chains[home[i]]
    {
    }

    lemma ChainIsHome(b: nat, k: nat)
      requires Valid() && b < |chains| && k < |chains[b]|
      ensures chains[b][k] < |nodes| && home[chains[b][k]] == b
    {
    }

    /** hash_init on a table that holds nothing. */
    method Init()
      requires Valid() && forall b :: 0 <= b < |chains| ==> chains[b] == []
      modifies Repr
      ensures Valid() && chains == old(chains) && home == old(home)
    {
      var b := 0;
      while b < |buckets|
        invariant 0 <= b <= |buckets| && Valid() && chains == old(chains) && home == old(home)
      {
        assert Chain(b, chains[b]);
        buckets[b].first := null;
        b := b + 1;
      }
    }

    /** All of a chain but its beginning: the bucket and the first node's back pointer. */
    ghost predicate Tail(b: nat, l: seq<nat>)
      requires b < |buckets| && InTable(l)
      reads nodes
    {
      forall j {:trigger Nth(l, j)} :: 0 <= j < |l| ==>
        Nth(l, j).next == After(l, j) && (j > 0 ==> Nth(l, j).pprev == Before(b, l, j))
    }

    /** Every chain but number `b`. */
    ghost predicate Others(chains: seq<seq<nat>>, b: nat)
      requires |chains| == |buckets| && forall g :: 0 <= g < |chains| ==> InTable(chains[g])
      reads buckets, nodes
    {
      forall g :: 0 <= g < |buckets| && g != b ==> Chain(g, chains[g])
    }

    lemma RepresentsAdded(chains: seq<seq<nat>>, home: seq<int>, b: nat, i: nat)
      requires |chains| == |buckets| && |home| == |nodes| && Tagged() && Family(chains, home)
      requires i < |nodes| && b < |buckets|
      requires forall g :: 0 <= g < |chains| ==> i !in chains[g]
      requires Others(chains, b) && Tail(b, chains[b])
      requires chains[b] != [] ==> Nth(chains[b], 0).pprev == NextOf(nodes[i])
      requires buckets[b].first == nodes[i] && nodes[i].next == After(chains[b], -1)
               && nodes[i].pprev == FirstOf(buckets[b])
      requires forall j :: 0 <= j < |nodes| && home[j] == -1 && j != i ==> nodes[j].pprev == NullSlot
      ensures Represents(chains[b := [i] + chains[b]], home[i := b])
    {
      var l, m := chains[b], [i] + chains[b];
      ChainAdded(l, b, i);
      assert Inserted(l, 0, i) == m;
      FamilyInsert(chains, home, b, 0, i);
      hide Family;
      var all := chains[b := m];
      forall g | 0 <= g < |buckets|
        ensures InTable(all[g]) && Chain(g, all[g])
      {
      }
    }

    lemma ChainAdded(l: seq<nat>, b: nat, i: nat)
      requires i < |nodes| && b < |buckets| && InTable(l) && Tail(b, l)
      requires l != [] ==> Nth(l, 0).pprev == NextOf(nodes[i])
      requires buckets[b].first == nodes[i] && nodes[i].next == After(l, -1) && nodes[i].pprev == FirstOf(buckets[b])
      ensures InTable([i] + l) && Chain(b, [i] + l)
    {
      var m := [i] + l;
      forall j {:trigger Nth(m, j)} | 0 <= j < |m|
        ensures Nth(m, j).next == After(m, j) && Nth(m, j).pprev == Before(b, m, j)
      {
        if j > 0 {
          assert Nth(m, j) == Nth(l, j - 1) && After(m, j) == After(l, j - 1);
        }
      }
    }

    /** The stores of hlist_add_head for an unchained node. */
    method Push(i: nat, b: nat)
      requires Valid() && i < |nodes| && b < |buckets| && Unhashed(i)
      modifies buckets, nodes
      ensures forall g :: 0 <= g < |buckets| && g != b ==> buckets[g].first == old(buckets[g].first)
      ensures forall j :: 0 <= j < |nodes| && j != i ==> nodes[j].next == old(nodes[j].next)
      ensures forall j :: 0 <= j < |nodes| && j != i ==>
                nodes[j].pprev == if chains[b] != [] && j == chains[b][0] then NextOf(nodes[i]) else old(nodes[j].pprev)
      ensures buckets[b].first == nodes[i] && nodes[i].next == After(chains[b], -1)
              && nodes[i].pprev == FirstOf(buckets[b])
    {
      var first := buckets[b].first;
      assert first == After(chains[b], -1);
      nodes[i].next := first;
      if first != null {
        first.pprev := NextOf(nodes[i]);
      }
      buckets[b].first := nodes[i];
      nodes[i].pprev := FirstOf(buckets[b]);
    }

    /** hash_add into bucket `b`. */
    method AddHead(i: nat, b: nat)
      requires Valid() && i < |nodes| && b < |buckets| && Unhashed(i)
      modifies Repr
      ensures Valid() && chains == old(chains[b := [i] + chains[b]]) && home == old(home[i := b])
    {
      Push(i, b);
      assert Tail(b, chains[b]) by {
        assert old(Chain(b, chains[b]));
      }
      assert Others(chains, b) by {
        forall g | 0 <= g < |buckets| && g != b
          ensures Chain(g, chains[g])
        {
          assert old(Chain(g, chains[g]));
          assert forall j :: 0 <= j < |chains[g]| ==> home[chains[g][j]] == g;
        }
      }
      RepresentsAdded(chains, home, b, i);
      chains := chains[b := [i] + chains[b]];
      home := home[i := b];
    }

    /** The chain, but for the pointers to and from its node at position `k`. */
    ghost predicate Gap(b: nat, l: seq<nat>, k: nat)
      requires b < |buckets| && InTable(l)
      reads buckets, nodes
    {
      && (k > 0 ==> buckets[b].first == After(l, -1))
      && (forall j {:trigger Nth(l, j)} :: 0 <= j < |l| && j != k ==>
            && (j + 1 != k ==> Nth(l, j).next == After(l, j))
            && (j != k + 1 ==> Nth(l, j).pprev == Before(b, l, j)))
    }

    /** The pointers to and from position `k` skip it. */
    ghost predicate Skipped(b: nat, l: seq<nat>, k: nat)
      requires b < |buckets| && InTable(l) && k < |l|
      reads buckets, nodes
    {
      && (if k == 0 then buckets[b].first == After(l, 0) else Nth(l, k - 1).next == After(l, k))
      && (k + 1 < |l| ==> Nth(l, k + 1).pprev == Before(b, l, k))
    }

    lemma ChainAfterRemove(b: nat, l: seq<nat>, k: nat)
      requires b < |buckets| && InTable(l) && k < |l| && Gap(b, l, k) && Skipped(b, l, k)
      ensures InTable(l[..k] + l[k + 1..]) && Chain(b, l[..k] + l[k + 1..])
    {
      var m := l[..k] + l[k + 1..];
      forall j {:trigger Nth(m, j)} | 0 <= j < |m|
        ensures Nth(m, j).next == After(m, j) && Nth(m, j).pprev == Before(b, m, j)
      {
        if j < k {
          assert Nth(m, j) == Nth(l, j) && Before(b, m, j) == Before(b, l, j);
          assert After(m, j) == if j + 1 == k then After(l, k) else After(l, j);
        } else {
          assert Nth(m, j) == Nth(l, j + 1) && After(m, j) == After(l, j + 1);
          assert Before(b, m, j) == if j == k then Before(b, l, k) else Before(b, l, j + 1);
        }
      }
      assert After(m, -1) == if k == 0 then After(l, 0) else After(l, -1);
    }

    lemma RepresentsRemoved(chains: seq<seq<nat>>, home: seq<int>, b: nat, k: nat)
      requires |chains| == |buckets| && |home| == |nodes| && Tagged() && Family(chains, home)
      requires b < |buckets| && k < |chains[b]| && Gap(b, chains[b], k) && Skipped(b, chains[b], k)
      requires Others(chains, b)
      requires forall j :: 0 <= j < |nodes| && (home[j] == -1 || j == chains[b][k]) ==> nodes[j].pprev == NullSlot
      ensures Represents(Unlinked(chains, chains[b][k]), home[chains[b][k] := -1])
    {
      ChainAfterRemove(b, chains[b], k);
      FamilyRemove(chains, home, b, chains[b][k]);
      UnlinkedAt(chains, home, b, k);
      MinusAt(chains[b], k);
    }

    /** __hlist_del and INIT_HLIST_NODE on the node at position `k` of chain `b`. */
    method Unchain(i: nat, ghost b: nat, ghost k: nat)
      requires Valid() && b < |buckets| && k < |chains[b]| && i == chains[b][k]
      modifies buckets, nodes
      ensures nodes[i].pprev == NullSlot
      ensures forall g :: 0 <= g < |buckets| ==>
                buckets[g].first == if g == b && k == 0 then After(chains[b], 0) else old(buckets[g].first)
      ensures forall j :: 0 <= j < |nodes| && j != i ==>
                nodes[j].next == if k > 0 && j == chains[b][k - 1] then After(chains[b], k) else old(nodes[j].next)
      ensures forall j :: 0 <= j < |nodes| && j != i ==>
                nodes[j].pprev == if k + 1 < |chains[b]| && j == chains[b][k + 1] then Before(b, chains[b], k)
                                  else old(nodes[j].pprev)
    {
      assert Nth(chains[b], k) == nodes[i];
      var next, pprev := nodes[i].next, nodes[i].pprev;
      assert next == After(chains[b], k) && pprev == Before(b, chains[b], k);
      match pprev {
        case FirstOf(bucket) => bucket.first := next;
        case NextOf(node) => node.next := next;
        case NullSlot =>
      }
      if next != null {
        next.pprev := pprev;
      }
      nodes[i].next, nodes[i].pprev := null, NullSlot;
    }

    /** hlist_del_init: the chain skips the node, and the other chains are as they were. */
    method Cut(i: nat, ghost b: nat, ghost k: nat)
      requires Valid() && b < |buckets| && k < |chains[b]| && i == chains[b][k]
      modifies buckets, nodes
      ensures Gap(b, chains[b], k) && Skipped(b, chains[b], k) && Others(chains, b)
      ensures forall j :: 0 <= j < |nodes| && (home[j] == -1 || j == i) ==> nodes[j].pprev == NullSlot
    {
      Unchain(i, b, k);
      assert Gap(b, chains[b], k) by {
        assert old(Chain(b, chains[b]));
        assert NoDup(chains[b]);
      }
      forall g | 0 <= g < |buckets| && g != b
        ensures Chain(g, chains[g])
      {
        assert old(Chain(g, chains[g]));
        assert forall j :: 0 <= j < |chains[g]| ==> home[chains[g][j]] == g;
      }
    }

    /** hash_del of a chained node. */
    method Del(i: nat)
      requires Valid() && i < |nodes| && !Unhashed(i)
      modifies Repr
      ensures Valid() && chains == Unlinked(old(chains), i) && home == old(home[i := -1])
    {
      ghost var b := home[i];
      ghost var k :| 0 <= k < |chains[b]| && chains[b][k] == i;
      Cut(i, b, k);
      RepresentsRemoved(chains, home, b, k);
      hide Family, Chain, Tagged;
      chains := Unlinked(chains, i);
      home := home[i := -1];
    }
  }

  const GOLDEN_RATIO_32 := 0x61C88647
  const GOLDEN_INVERSE := 0xebb34377   // modulo WORD
  const HASH_SIZE := 4096

  /** __hash_32: the product, wrapped to 32 bits. */
  function Product32(val: int): (w: nat)
    ensures w < WORD
  {
    (val % WORD) * GOLDEN_RATIO_32 % WORD
  }

  /** hash_32 with 12 bits: the high bits of the product. */
  function Hash32(val: int): (bucket: nat)
    ensures bucket < HASH_SIZE
  {
    Product32(val) / 0x10_0000
  }

  lemma Modulo(x: int, y: int, q: int)
    requires x == y + q * WORD
    ensures x % WORD == y % WORD
  {
  }

  /** The multiplication loses nothing: each word is the product of exactly one address. */
  lemma ProductIsBijective(val: int, w: int)
    requires 0 <= val < WORD && 0 <= w < WORD
    ensures Product32(val) == w <==> val == w * GOLDEN_INVERSE % WORD
    ensures Hash32(val) == Product32(val) / (WORD / HASH_SIZE)
  {
    ProductUndone(val, GOLDEN_RATIO_32, GOLDEN_INVERSE);
    ProductUndone(w, GOLDEN_INVERSE, GOLDEN_RATIO_32);
  }

  /** The words whose products lie from `lo` on and below `hi`. */
  ghost function Between(lo: nat, hi: nat): set<int> {
    set val: int | 0 <= val < WORD && lo <= Product32(val) < hi
  }

  /** There are as many words as products. */
  lemma {:induction false} BetweenSize(lo: nat, n: nat)
    requires lo + n <= WORD
    ensures |Between(lo, lo + n)| == n
  {
    if n == 0 {
      assert Between(lo, lo) == {};
    } else {
      var w := lo + n - 1;
      BetweenSize(lo, n - 1);
      forall val: int | 0 <= val < WORD
        ensures Product32(val) == w <==> val == w * GOLDEN_INVERSE % WORD
      {
        ProductIsBijective(val, w);
      }
      assert Between(lo, lo + n) == Between(lo, w) + {w * GOLDEN_INVERSE % WORD};
    }
  }

  /** The buckets share the words evenly. */
  lemma BucketsAreEven(bucket: nat)
    requires bucket < HASH_SIZE
    ensures |set val: int | 0 <= val < WORD && Hash32(val) == bucket| == WORD / HASH_SIZE
  {
    var size := WORD / HASH_SIZE;
    BetweenSize(bucket * size, size);
    assert (set val: int | 0 <= val < WORD && Hash32(val) == bucket) == Between(bucket * size, bucket * size + size);
  }

  /** Multiplying by `g` and then by its inverse, each time modulo the word. */
  lemma ProductUndone(val: int, g: int, h: int)
    requires 0 <= val < WORD && g * h == 1 + 1510444094 * WORD
    ensures (val * g % WORD) * h % WORD == val
  {
    var q := val * g / WORD;
    var r := val * g % WORD;
    assert r == val * g - q * WORD;
    calc {
      r * h;
      (val * g - q * WORD) * h;
      val * g * h - q * WORD * h;
      { assert val * g * h == val * (g * h); }
      val * (1 + 1510444094 * WORD) - q * WORD * h;
      val + (1510444094 * val - q * h) * WORD;
    }
    Modulo(r * h, val, 1510444094 * val - q * h);
  }
}
