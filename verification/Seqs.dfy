/** Sequences of table indices without repetition, and the filtering that deletion amounts to. */
module Seqs {

  ghost predicate NoDup(s: seq<nat>) {
    forall i, j :: 0 <= i < j < |s| ==> s[i] != s[j]
  }

  function Fill<T>(n: nat, x: T): (r: seq<T>)
    ensures |r| == n && forall i :: 0 <= i < n ==> r[i] == x
  {
    if n == 0 then [] else Fill(n - 1, x) + [x]
  }

  function Descending(n: nat): (r: seq<nat>)
    ensures |r| == n && forall i :: 0 <= i < n ==> r[i] == n - 1 - i
  {
    if n == 0 then [] else [n - 1] + Descending(n - 1)
  }

  function Ascending(n: nat): (r: seq<nat>)
    ensures |r| == n && forall i :: 0 <= i < n ==> r[i] == i
  {
    if n == 0 then [] else Ascending(n - 1) + [n - 1]
  }

  lemma DescendingElems(n: nat)
    ensures forall j: nat :: j in Descending(n) <==> j < n
  {
    forall j: nat | j < n
      ensures j in Descending(n)
    {
      assert Descending(n)[n - 1 - j] == j;
    }
  }

  function Elems(s: seq<nat>): set<nat> {
    set x | x in s
  }

  /** The elements of `s` that are not in `d`, in order. */
  function Minus(s: seq<nat>, d: set<nat>): (r: seq<nat>)
    ensures forall x :: x in r <==> x in s && x !in d
    ensures |r| <= |s|
  {
    if s == [] then []
    else if s[0] in d then Minus(s[1..], d)
    else [s[0]] + Minus(s[1..], d)
  }

  function Reverse(s: seq<nat>): (r: seq<nat>)
    ensures |r| == |s|
    ensures forall x :: x in r <==> x in s
  {
    if s == [] then [] else Reverse(s[1..]) + [s[0]]
  }

  lemma PrefixNext(s: seq<nat>, k: nat)
    requires k < |s|
    ensures s[..k + 1] == s[..k] + [s[k]] && s[k] in s
  {
  }

  lemma {:induction false} ReverseAppend(s: seq<nat>, t: seq<nat>)
    ensures Reverse(s + t) == Reverse(t) + Reverse(s)
  {
    if s == [] {
      assert s + t == t;
    } else {
      assert (s + t)[1..] == s[1..] + t;
      ReverseAppend(s[1..], t);
    }
  }

  lemma {:induction false} MinusAppend(s: seq<nat>, t: seq<nat>, d: set<nat>)
    ensures Minus(s + t, d) == Minus(s, d) + Minus(t, d)
  {
    if s == [] {
      assert s + t == t;
    } else {
      assert (s + t)[1..] == s[1..] + t;
      MinusAppend(s[1..], t, d);
    }
  }

  lemma {:induction false} MinusNone(s: seq<nat>, d: set<nat>)
    requires forall x :: x in s ==> x !in d
    ensures Minus(s, d) == s
  {
    if s != [] {
      assert s[0] in s;
      MinusNone(s[1..], d);
    }
  }

  lemma {:induction false} MinusAll(s: seq<nat>, d: set<nat>)
    requires forall x :: x in s ==> x in d
    ensures Minus(s, d) == []
  {
    if s != [] {
      assert s[0] in s;
      MinusAll(s[1..], d);
    }
  }

  lemma MinusSplit(s: seq<nat>, t: seq<nat>, d: set<nat>)
    requires (forall x :: x in s ==> x in d) && (forall x :: x in t ==> x !in d)
    ensures Minus(s + t, d) == t
  {
    MinusAppend(s, t, d);
    MinusAll(s, d);
    MinusNone(t, d);
  }

  lemma {:induction false} MinusMinus(s: seq<nat>, a: set<nat>, b: set<nat>)
    ensures Minus(Minus(s, a), b) == Minus(s, a + b)
  {
    if s != [] {
      MinusMinus(s[1..], a, b);
    }
  }

  lemma {:induction false} MinusNoDup(s: seq<nat>, d: set<nat>)
    requires NoDup(s)
    ensures NoDup(Minus(s, d))
  {
    if s != [] {
      MinusNoDup(s[1..], d);
      assert s[0] !in s[1..];
    }
  }

  /** Deleting the element at position `k`. */
  lemma {:induction false} MinusAt(s: seq<nat>, k: nat)
    requires NoDup(s) && k < |s|
    ensures Minus(s, {s[k]}) == s[..k] + s[k + 1..]
  {
    assert s == s[..k] + ([s[k]] + s[k + 1..]);
    MinusAppend(s[..k], [s[k]] + s[k + 1..], {s[k]});
    MinusAppend([s[k]], s[k + 1..], {s[k]});
    MinusNone(s[..k], {s[k]});
    MinusNone(s[k + 1..], {s[k]});
  }

  /** Filtering never moves a surviving element backwards. */
  lemma {:induction false} MinusPosition(s: seq<nat>, d: set<nat>, k: nat) returns (j: nat)
    requires k < |s| && s[k] !in d
    ensures j <= k && j < |Minus(s, d)| && Minus(s, d)[j] == s[k]
  {
    if k == 0 {
      j := 0;
    } else {
      j := MinusPosition(s[1..], d, k - 1);
      if s[0] !in d {
        j := j + 1;
      }
    }
  }

  lemma {:induction false} NoDupAppend(s: seq<nat>, t: seq<nat>)
    requires NoDup(s) && NoDup(t)
    requires forall x :: x in s ==> x !in t
    ensures NoDup(s + t)
  {
    forall i, j | 0 <= i < j < |s + t|
      ensures (s + t)[i] != (s + t)[j]
    {
      if i < |s| <= j {
        assert s[i] in s && t[j - |s|] in t;
      }
    }
  }

  lemma {:induction false} NoDupReverse(s: seq<nat>)
    requires NoDup(s)
    ensures NoDup(Reverse(s))
  {
    if s != [] {
      NoDupReverse(s[1..]);
      assert s[0] !in s[1..];
    }
  }

  lemma {:induction false} ElemsSize(s: seq<nat>)
    requires NoDup(s)
    ensures |Elems(s)| == |s|
  {
    if s != [] {
      ElemsSize(s[1..]);
      assert Elems(s) == {s[0]} + Elems(s[1..]);
      assert s[0] !in s[1..];
    }
  }

  lemma ElemsAppend(s: seq<nat>, t: seq<nat>)
    ensures Elems(s + t) == Elems(s) + Elems(t)
  {
  }

  /** The indices of a table of `n` entries. */
  function Below(n: nat): (r: set<nat>)
    ensures forall x: nat :: x in r <==> x < n
    ensures |r| == n
  {
    if n == 0 then {} else Below(n - 1) + {n - 1}
  }

  lemma RestOf(s: seq<nat>)
    requires NoDup(s) && s != []
    ensures NoDup(s[1..]) && s[0] !in s[1..] && forall x :: x in s[1..] ==> x in s
  {
  }

  lemma SubsetSize(a: set<nat>, b: set<nat>)
    requires a <= b
    ensures |a| <= |b|
  {
    assert b == a + (b - a);
  }

  lemma {:induction false} ImageSize(m: map<int, nat>, s: set<int>)
    requires s <= m.Keys && forall a, b :: a in m && b in m && m[a] == m[b] ==> a == b
    ensures |set a | a in s :: m[a]| == |s|
  {
    if exists a :: a in s {
      var a :| a in s;
      ImageSize(m, s - {a});
      assert (set b | b in s :: m[b]) == (set b | b in s - {a} :: m[b]) + {m[a]};
      assert m[a] !in (set b | b in s - {a} :: m[b]);
    } else {
      assert s == {};
    }
  }

  lemma InjectiveSize(m: map<int, nat>)
    requires forall a, b :: a in m && b in m && m[a] == m[b] ==> a == b
    ensures |m.Values| == |m|
  {
    ImageSize(m, m.Keys);
    assert m.Values == set a | a in m.Keys :: m[a];
  }

  /** The lists after entry `i` is unlinked from wherever it is. */
  function Unlinked(lists: seq<seq<nat>>, i: nat): (r: seq<seq<nat>>)
    ensures |r| == |lists|
    ensures forall h :: 0 <= h < |r| ==> r[h] == Minus(lists[h], {i})
    ensures forall h, x {:trigger x in r[h]} :: 0 <= h < |r| ==> (x in r[h] <==> x in lists[h] && x != i)
  {
    seq(|lists|, h requires 0 <= h < |lists| => Minus(lists[h], {i}))
  }
}
