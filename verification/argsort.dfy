/** Orderings of row indices by a key, as `np.argsort` produces them. The
    default `np.argsort` is not stable, so the model accepts any permutation of
    the indices that puts the keys in non-decreasing order. */
module Argsort {

  /** The indices `0, 1, ..., n-1`. */
  function Indices(n: nat): (r: seq<nat>)
    ensures |r| == n
  {
    if n == 0 then [] else Indices(n - 1) + [n - 1]
  }

  /** Every entry of `s` is an index below `n`. */
  predicate InRange(s: seq<nat>, n: nat) {
    forall i :: 0 <= i < |s| ==> s[i] < n
  }

  /** The keys of the listed indices never decrease. */
  predicate SortedBy(s: seq<nat>, key: seq<int>)
    requires InRange(s, |key|)
  {
    forall i, j :: 0 <= i < j < |s| ==> key[s[i]] <= key[s[j]]
  }

  /** `order` is a permutation of the indices of `key` that sorts the keys. */
  predicate IsArgsort(order: seq<nat>, key: seq<int>) {
    && InRange(order, |key|)
    && multiset(order) == multiset(Indices(|key|))
    && SortedBy(order, key)
  }

  /** No index occurs twice. */
  predicate Distinct(s: seq<nat>) {
    forall i, j :: 0 <= i < j < |s| ==> s[i] != s[j]
  }

  // ---------------------------------------------------------------------
  // Properties of every argsort

  lemma AppendCount(s: seq<nat>, y: nat, x: nat)
    ensures multiset(s + [y])[x] == multiset(s)[x] + if x == y then 1 else 0
  {
    assert multiset(s + [y]) == multiset(s) + multiset{y};
  }

  lemma {:induction false} IndicesCount(n: nat, x: nat)
    ensures multiset(Indices(n))[x] == if x < n then 1 else 0
  {
    if n > 0 {
      IndicesCount(n - 1, x);
      AppendCount(Indices(n - 1), n - 1, x);
    } else {
      assert Indices(n) == [];
    }
  }

  lemma RepeatedCountsTwice(s: seq<nat>, i: nat, j: nat)
    requires i < j < |s| && s[i] == s[j]
    ensures multiset(s)[s[i]] >= 2
  {
    assert s == s[..i] + [s[i]] + s[i + 1..j] + [s[j]] + s[j + 1..];
    assert multiset(s) == multiset(s[..i]) + multiset{s[i]} + multiset(s[i + 1..j]) + multiset{s[j]} + multiset(s[j + 1..]);
  }

  /** An argsort has exactly one entry per index: |order| == n, no repetition,
      and every index below n occurs. */
  lemma ArgsortIsPermutation(order: seq<nat>, key: seq<int>)
    requires IsArgsort(order, key)
    ensures |order| == |key|
    ensures Distinct(order)
    ensures forall x :: 0 <= x < |key| ==> x in order
  {
    calc {
      |order|;
      |multiset(order)|;
      |multiset(Indices(|key|))|;
      |key|;
    }
    forall i, j | 0 <= i < j < |order|
      ensures order[i] != order[j]
    {
      if order[i] == order[j] {
        RepeatedCountsTwice(order, i, j);
        IndicesCount(|key|, order[i]);
        assert false;
      }
    }
    forall x | 0 <= x < |key|
      ensures x in order
    {
      IndicesCount(|key|, x);
      assert x in multiset(order);
    }
  }

  predicate Ascending(a: seq<int>) {
    forall i, j :: 0 <= i < j < |a| ==> a[i] <= a[j]
  }

  lemma FirstIsLeast(a: seq<int>, v: int)
    requires Ascending(a) && v in multiset(a)
    ensures |a| > 0 && a[0] <= v
  {
    assert v in a;
    assert forall j :: 0 <= j < |a| ==> a[0] <= a[j];
    var i :| 0 <= i < |a| && a[i] == v;
  }

  lemma MultisetCancel<T>(a: multiset<T>, b: multiset<T>, x: T)
    requires a + multiset{x} == b + multiset{x}
    ensures a == b
  {
    forall y ensures a[y] == b[y] {
      assert (a + multiset{x})[y] == a[y] + multiset{x}[y];
      assert (b + multiset{x})[y] == b[y] + multiset{x}[y];
    }
  }

  lemma HeadTail(a: seq<int>)
    requires |a| > 0
    ensures multiset(a) == multiset(a[1..]) + multiset{a[0]}
  {
    assert a == [a[0]] + a[1..];
  }

  lemma AscendingTail(a: seq<int>)
    requires Ascending(a) && |a| > 0
    ensures Ascending(a[1..])
  {
    forall i, j | 0 <= i < j < |a| - 1 ensures a[1..][i] <= a[1..][j] {
      assert a[1..][i] == a[i + 1] && a[1..][j] == a[j + 1];
    }
  }

  /** Two ascending sequences with the same multiset of values are equal. */
  lemma {:induction false} SortedSameMultisetEqual(a: seq<int>, b: seq<int>)
    requires Ascending(a) && Ascending(b)
    requires multiset(a) == multiset(b)
    ensures a == b
    decreases |a|
  {
    assert |a| == |multiset(a)| == |multiset(b)| == |b|;
    if |a| > 0 {
      assert a[0] in multiset(a) && b[0] in multiset(b);
      FirstIsLeast(b, a[0]);
      FirstIsLeast(a, b[0]);
      HeadTail(a);
      HeadTail(b);
      MultisetCancel(multiset(a[1..]), multiset(b[1..]), a[0]);
      AscendingTail(a);
      AscendingTail(b);
      SortedSameMultisetEqual(a[1..], b[1..]);
      SameHeadSameTail(a, b);
    }
  }

  lemma SameHeadSameTail(a: seq<int>, b: seq<int>)
    requires |a| > 0 && |b| > 0 && a[0] == b[0] && a[1..] == b[1..]
    ensures a == b
  {
    assert a == [a[0]] + a[1..];
    assert b == [b[0]] + b[1..];
  }

  /** The keys read along an argsort. */
  function KeysAlong(order: seq<nat>, key: seq<int>): (r: seq<int>)
    requires InRange(order, |key|)
    ensures |r| == |order|
  {
    if |order| == 0 then [] else [key[order[0]]] + KeysAlong(order[1..], key)
  }

  lemma {:induction false} KeysAlongAt(order: seq<nat>, key: seq<int>)
    requires InRange(order, |key|)
    ensures forall i :: 0 <= i < |order| ==> KeysAlong(order, key)[i] == key[order[i]]
    decreases |order|
  {
    if |order| > 0 {
      KeysAlongAt(order[1..], key);
    }
  }

  lemma MultisetOfSplice<T>(x: seq<T>, y: T, z: seq<T>)
    ensures multiset(x + [y] + z) == multiset(x + z) + multiset{y}
  {
    assert multiset(x + [y] + z) == multiset(x) + multiset{y} + multiset(z);
    assert multiset(x + z) == multiset(x) + multiset(z);
  }

  /** Removing one entry from a sequence of indices, on their keys. */
  lemma SpliceKeys(x: seq<nat>, y: nat, z: seq<nat>, key: seq<int>)
    requires InRange(x, |key|) && y < |key| && InRange(z, |key|)
    ensures InRange(x + [y] + z, |key|) && InRange(x + z, |key|)
    ensures multiset(KeysAlong(x + [y] + z, key)) == multiset(KeysAlong(x + z, key)) + multiset{key[y]}
  {
    KeysAlongSplit(x, [y], z, key);
    KeysAlongSplit(x, [], z, key);
    assert x + [] + z == x + z;
    assert KeysAlong([y], key) == [key[y]];
    MultisetOfSplice(KeysAlong(x, key), key[y], KeysAlong(z, key));
  }

  /** Finds the head of `s` inside `t` and splits `t` around it. */
  lemma Decompose(s: seq<nat>, t: seq<nat>, n: nat) returns (x: seq<nat>, z: seq<nat>)
    requires |s| > 0 && InRange(s, n) && InRange(t, n)
    requires multiset(s) == multiset(t)
    ensures t == x + [s[0]] + z
    ensures InRange(x, n) && InRange(z, n) && InRange(x + z, n)
    ensures multiset(s[1..]) == multiset(x + z)
  {
    var y: nat := s[0];
    assert y in t by {
      assert y in multiset(s);
    }
    var k :| 0 <= k < |t| && t[k] == y;
    x, z := t[..k], t[k + 1..];
    SlicesInRange(t, k, n);
    assert t == x + [y] + z;
    RemoveHeadAndMatch(s, x, z);
  }

  lemma SlicesInRange(t: seq<nat>, k: nat, n: nat)
    requires k < |t| && InRange(t, n)
    ensures InRange(t[..k], n) && InRange(t[k + 1..], n) && InRange(t[..k] + t[k + 1..], n)
  {
    var x, z := t[..k], t[k + 1..];
    assert forall i :: 0 <= i < |x| ==> x[i] == t[i];
    assert forall i :: 0 <= i < |z| ==> z[i] == t[k + 1 + i];
  }

  lemma RemoveHeadAndMatch(s: seq<nat>, x: seq<nat>, z: seq<nat>)
    requires |s| > 0 && multiset(s) == multiset(x + [s[0]] + z)
    ensures multiset(s[1..]) == multiset(x + z)
  {
    var y: nat := s[0];
    assert s == [y] + s[1..];
    assert multiset(s) == multiset(s[1..]) + multiset{y};
    MultisetOfSplice(x, y, z);
    MultisetCancel(multiset(s[1..]), multiset(x + z), y);
  }


  lemma {:induction false} MultisetMapped(s: seq<nat>, t: seq<nat>, key: seq<int>)
    requires InRange(s, |key|) && InRange(t, |key|)
    requires multiset(s) == multiset(t)
    ensures multiset(KeysAlong(s, key)) == multiset(KeysAlong(t, key))
    decreases |s|
  {
    if |s| == 0 {
      assert |t| == |multiset(t)| == 0;
    } else {
      var x, z := Decompose(s, t, |key|);
      MultisetMapped(s[1..], x + z, key);
      ConsKeys(s, x, z, key);
    }
  }

  lemma ConsKeys(s: seq<nat>, x: seq<nat>, z: seq<nat>, key: seq<int>)
    requires |s| > 0 && InRange(s, |key|) && InRange(x, |key|) && InRange(z, |key|)
    requires multiset(KeysAlong(s[1..], key)) == multiset(KeysAlong(x + z, key))
    ensures InRange(x + [s[0]] + z, |key|)
    ensures multiset(KeysAlong(s, key)) == multiset(KeysAlong(x + [s[0]] + z, key))
  {
    SpliceKeys(x, s[0], z, key);
    assert KeysAlong(s, key) == [key[s[0]]] + KeysAlong(s[1..], key);
    assert multiset(KeysAlong(s, key)) == multiset(KeysAlong(s[1..], key)) + multiset{key[s[0]]};
  }

  lemma KeysAlongSplit(x: seq<nat>, y: seq<nat>, z: seq<nat>, key: seq<int>)
    requires InRange(x, |key|) && InRange(y, |key|) && InRange(z, |key|)
    ensures InRange(x + y + z, |key|)
    ensures KeysAlong(x + y + z, key) == KeysAlong(x, key) + KeysAlong(y, key) + KeysAlong(z, key)
  {
    var l := KeysAlong(x + y + z, key);
    var r := KeysAlong(x, key) + KeysAlong(y, key) + KeysAlong(z, key);
    KeysAlongAt(x + y + z, key);
    KeysAlongAt(x, key);
    KeysAlongAt(y, key);
    KeysAlongAt(z, key);
    assert |l| == |r|;
    forall i | 0 <= i < |l| ensures l[i] == r[i] {
      if i < |x| {
      } else if i < |x| + |y| {
      } else {
      }
    }
  }

  /** Whatever order ties are broken in, every argsort reads the same keys at
      every position: a block of positions has the same profile of keys under
      every admissible ordering. */
  lemma ArgsortKeysDetermined(o1: seq<nat>, o2: seq<nat>, key: seq<int>)
    requires IsArgsort(o1, key) && IsArgsort(o2, key)
    ensures |o1| == |o2|
    ensures forall i :: 0 <= i < |o1| ==> key[o1[i]] == key[o2[i]]
  {
    ArgsortIsPermutation(o1, key);
    ArgsortIsPermutation(o2, key);
    MultisetMapped(o1, o2, key);
    var k1 := KeysAlong(o1, key);
    var k2 := KeysAlong(o2, key);
    KeysAlongAt(o1, key);
    KeysAlongAt(o2, key);
    assert Ascending(k1) && Ascending(k2);
    SortedSameMultisetEqual(k1, k2);
  }

  // ---------------------------------------------------------------------
  // One argsort: insertion sort of the indices

  function Insert(x: nat, s: seq<nat>, key: seq<int>): (r: seq<nat>)
    requires x < |key| && InRange(s, |key|) && SortedBy(s, key)
    ensures InRange(r, |key|) && SortedBy(r, key)
    ensures multiset(r) == multiset(s) + multiset{x}
    decreases |s|
  {
    if |s| == 0 then [x]
    else if key[x] < key[s[0]] then [x] + s
    else
      var t := Insert(x, s[1..], key);
      InsertAfterHead(x, s, t, key);
      [s[0]] + t
  }

  lemma InsertAfterHead(x: nat, s: seq<nat>, t: seq<nat>, key: seq<int>)
    requires |s| > 0 && x < |key| && InRange(s, |key|) && SortedBy(s, key) && key[s[0]] <= key[x]
    requires InRange(t, |key|) && SortedBy(t, key) && multiset(t) == multiset(s[1..]) + multiset{x}
    ensures InRange([s[0]] + t, |key|) && SortedBy([s[0]] + t, key)
    ensures multiset([s[0]] + t) == multiset(s) + multiset{x}
  {
    forall i | 0 <= i < |t| ensures key[s[0]] <= key[t[i]] {
      assert t[i] in multiset(t);
      if t[i] != x {
        assert t[i] in multiset(s[1..]);
        var k :| 0 <= k < |s| - 1 && s[1..][k] == t[i];
        assert s[k + 1] == t[i];
      }
    }
    assert s == [s[0]] + s[1..];
  }

  function SortPrefix(n: nat, key: seq<int>): (r: seq<nat>)
    requires n <= |key|
    ensures InRange(r, |key|) && SortedBy(r, key)
    ensures multiset(r) == multiset(Indices(n))
  {
    if n == 0 then []
    else
      assert Indices(n) == Indices(n - 1) + [n - 1];
      Insert(n - 1, SortPrefix(n - 1, key), key)
  }

  /** An argsort of `key`, so one exists for every key sequence. */
  function ArgSort(key: seq<int>): (r: seq<nat>)
    ensures IsArgsort(r, key)
  {
    SortPrefix(|key|, key)
  }
}
