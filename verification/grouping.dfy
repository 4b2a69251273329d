/**
 * The keyed fold shared by the rewards core: walk a sequence, file each
 * element under its key in a JavaScript `Map`, create the entry from the
 * first element carrying a key and add each element's value into it.
 * A `Map` iterates in insertion order, so the entries come out in the
 * order in which their keys were first seen.
 *
 * Everything here is defined by recursion on the LAST element, which is the
 * shape of a loop that has processed a prefix and now takes one more element.
 */
module Grouping {

  /** Some element of s carries the key k. */
  predicate Occurs<T, K(==)>(s: seq<T>, key: T -> K, k: K) {
    exists i :: 0 <= i < |s| && key(s[i]) == k
  }

  /** p is the position of the first element of s carrying the key k. */
  predicate IsFirstIndex<T, K(==)>(s: seq<T>, key: T -> K, k: K, p: int) {
    && 0 <= p < |s|
    && key(s[p]) == k
    && forall q :: 0 <= q < p ==> key(s[q]) != k
  }

  predicate NoDuplicates<K(==)>(ks: seq<K>) {
    forall i, j :: 0 <= i < j < |ks| ==> ks[i] != ks[j]
  }

  lemma OccursSnoc<T, K>(s: seq<T>, key: T -> K)
    requires |s| > 0
    ensures forall k :: Occurs(s, key, k) <==> Occurs(s[..|s| - 1], key, k) || key(s[|s| - 1]) == k
  {
    var n := |s| - 1;
    forall k ensures Occurs(s, key, k) <==> Occurs(s[..n], key, k) || key(s[n]) == k {
      if Occurs(s, key, k) && key(s[n]) != k {
        var i :| 0 <= i < |s| && key(s[i]) == k;
        assert s[..n][i] == s[i];
      }
      if Occurs(s[..n], key, k) {
        var i :| 0 <= i < n && key(s[..n][i]) == k;
        assert s[i] == s[..n][i];
      }
    }
  }

  /** The keys of s, each once, in the order of their first appearance. */
  function DistinctKeys<T, K(==)>(s: seq<T>, key: T -> K): seq<K>
    decreases |s|
  {
    if s == [] then []
    else
      var n := |s| - 1;
      var ks := DistinctKeys(s[..n], key);
      if key(s[n]) in ks then ks else ks + [key(s[n])]
  }

  /**
   * DistinctKeys lists every key of s, lists only keys of s, and lists each
   * key once.
   */
  lemma {:induction false} DistinctKeysSpec<T, K>(s: seq<T>, key: T -> K)
    ensures var ks := DistinctKeys(s, key);
      && NoDuplicates(ks)
      && (forall j :: 0 <= j < |ks| ==> Occurs(s, key, ks[j]))
      && (forall i :: 0 <= i < |s| ==> key(s[i]) in ks)
    decreases |s|
  {
    if s != [] {
      var n := |s| - 1;
      DistinctKeysSpec(s[..n], key);
      OccursSnoc(s, key);
      var ks0 := DistinctKeys(s[..n], key);
      forall i | 0 <= i < n ensures key(s[i]) in ks0 {
        assert s[..n][i] == s[i];
      }
    }
  }

  /** One more element adds its key at the end, unless the key is already listed. */
  lemma DistinctKeysSnoc<T, K>(s: seq<T>, x: T, key: T -> K)
    ensures DistinctKeys(s + [x], key)
         == if key(x) in DistinctKeys(s, key) then DistinctKeys(s, key) else DistinctKeys(s, key) + [key(x)]
  {
    var s' := s + [x];
    assert s'[..|s'| - 1] == s;
  }

  lemma DistinctKeysSound<T, K>(s: seq<T>, key: T -> K, j: int)
    requires 0 <= j < |DistinctKeys(s, key)|
    ensures Occurs(s, key, DistinctKeys(s, key)[j])
  {
    DistinctKeysSpec(s, key);
  }

  lemma DistinctKeysComplete<T, K>(s: seq<T>, key: T -> K, i: int)
    requires 0 <= i < |s|
    ensures key(s[i]) in DistinctKeys(s, key)
  {
    DistinctKeysSpec(s, key);
  }

  /** The position of the first element of s carrying the key k. */
  function FirstIndex<T, K(==)>(s: seq<T>, key: T -> K, k: K): (p: nat)
    requires Occurs(s, key, k)
    ensures IsFirstIndex(s, key, k, p)
    decreases |s|
  {
    var n := |s| - 1;
    OccursSnoc(s, key);
    assert forall q :: 0 <= q < n ==> s[..n][q] == s[q];
    if Occurs(s[..n], key, k) then FirstIndex(s[..n], key, k) else n
  }

  /** The sum of val over the elements of s that carry the key k. */
  function SumOf<T, K(==)>(s: seq<T>, key: T -> K, val: T -> nat, k: K): nat
    decreases |s|
  {
    if s == [] then 0
    else
      var n := |s| - 1;
      SumOf(s[..n], key, val, k) + (if key(s[n]) == k then val(s[n]) else 0)
  }

  /** The sum of val over all elements of s. */
  function Total<T>(s: seq<T>, val: T -> nat): nat
    decreases |s|
  {
    if s == [] then 0 else Total(s[..|s| - 1], val) + val(s[|s| - 1])
  }

  /** The sum, over the keys ks, of the group sums of s. */
  function GroupTotal<T, K(==)>(ks: seq<K>, s: seq<T>, key: T -> K, val: T -> nat): nat
    decreases |ks|
  {
    if ks == [] then 0
    else GroupTotal(ks[..|ks| - 1], s, key, val) + SumOf(s, key, val, ks[|ks| - 1])
  }

  lemma FirstIndexUnique<T, K>(s: seq<T>, key: T -> K, k: K, p: int, q: int)
    requires IsFirstIndex(s, key, k, p) && IsFirstIndex(s, key, k, q)
    ensures p == q
  {
  }

  /** FirstIndex finds the first position, whichever it is. */
  lemma FirstIndexIs<T, K>(s: seq<T>, key: T -> K, k: K, p: int)
    requires IsFirstIndex(s, key, k, p)
    ensures Occurs(s, key, k) && FirstIndex(s, key, k) == p
  {
    FirstIndexUnique(s, key, k, p, FirstIndex(s, key, k));
  }

  /** One more element: a key already present keeps its first position, a new one starts at the end. */
  lemma FirstIndexSnoc<T, K>(s: seq<T>, x: T, key: T -> K, k: K)
    requires Occurs(s + [x], key, k)
    ensures Occurs(s, key, k) ==> FirstIndex(s + [x], key, k) == FirstIndex(s, key, k)
    ensures !Occurs(s, key, k) ==> key(x) == k && FirstIndex(s + [x], key, k) == |s|
  {
    var s' := s + [x];
    assert s'[..|s'| - 1] == s;
    OccursSnoc(s', key);
  }

  /** One more element adds its value to the sum of its own key only. */
  lemma SumOfSnoc<T, K>(s: seq<T>, x: T, key: T -> K, val: T -> nat, k: K)
    ensures SumOf(s + [x], key, val, k) == SumOf(s, key, val, k) + if key(x) == k then val(x) else 0
  {
    var s' := s + [x];
    assert s'[..|s'| - 1] == s;
  }

  /** A key that no element carries sums to nothing. */
  lemma {:induction false} SumOfAbsent<T, K>(s: seq<T>, key: T -> K, val: T -> nat, k: K)
    requires !Occurs(s, key, k)
    ensures SumOf(s, key, val, k) == 0
    decreases |s|
  {
    if s != [] {
      OccursSnoc(s, key);
      SumOfAbsent(s[..|s| - 1], key, val, k);
    }
  }

  /**
   * The keys come out in the order of their first appearance: of two listed
   * keys, the earlier one was seen first.
   */
  lemma {:induction false} DistinctKeysFirstSeenOrder<T, K>(s: seq<T>, key: T -> K, i: int, j: int, p: int, q: int)
    requires 0 <= i < j < |DistinctKeys(s, key)|
    requires IsFirstIndex(s, key, DistinctKeys(s, key)[i], p)
    requires IsFirstIndex(s, key, DistinctKeys(s, key)[j], q)
    ensures p < q
    decreases |s|
  {
    var n := |s| - 1;
    var ks, ks0 := DistinctKeys(s, key), DistinctKeys(s[..n], key);
    DistinctKeysSpec(s[..n], key);
    OccursSnoc(s, key);
    assert forall r :: 0 <= r < n ==> s[..n][r] == s[r];
    assert ks[i] == ks0[i];
    var p0 := FirstIndex(s[..n], key, ks0[i]);
    assert IsFirstIndex(s, key, ks[i], p0);
    FirstIndexUnique(s, key, ks[i], p, p0);
    if j < |ks0| {
      assert ks[j] == ks0[j];
      var q0 := FirstIndex(s[..n], key, ks0[j]);
      assert IsFirstIndex(s, key, ks[j], q0);
      FirstIndexUnique(s, key, ks[j], q, q0);
      DistinctKeysFirstSeenOrder(s[..n], key, i, j, p0, q0);
    } else {
      // ks[j] is the key of the last element, new to the prefix
      assert !Occurs(s[..n], key, ks[j]);
      assert q == n;
    }
  }

  /** Appending one element adds its value to the group sum of its key, if that key is listed. */
  lemma {:induction false} GroupTotalSnoc<T, K>(ks: seq<K>, s: seq<T>, key: T -> K, val: T -> nat)
    requires |s| > 0 && NoDuplicates(ks)
    ensures GroupTotal(ks, s, key, val)
         == GroupTotal(ks, s[..|s| - 1], key, val) + (if key(s[|s| - 1]) in ks then val(s[|s| - 1]) else 0)
    decreases |ks|
  {
    if ks != [] {
      var m := |ks| - 1;
      assert NoDuplicates(ks[..m]);
      assert key(s[|s| - 1]) in ks <==> key(s[|s| - 1]) in ks[..m] || key(s[|s| - 1]) == ks[m];
      GroupTotalSnoc(ks[..m], s, key, val);
    }
  }

  /**
   * Grouping loses and invents nothing: the group sums over all distinct keys
   * add up to the sum over the whole sequence.
   */
  lemma {:induction false} GroupTotalConserves<T, K>(s: seq<T>, key: T -> K, val: T -> nat)
    ensures GroupTotal(DistinctKeys(s, key), s, key, val) == Total(s, val)
    decreases |s|
  {
    if s != [] {
      var n := |s| - 1;
      var ks0 := DistinctKeys(s[..n], key);
      DistinctKeysSpec(s[..n], key);
      GroupTotalConserves(s[..n], key, val);
      GroupTotalSnoc(ks0, s, key, val);
      if key(s[n]) !in ks0 {
        var ks := ks0 + [key(s[n])];
        assert ks[..|ks| - 1] == ks0;
        OccursSnoc(s, key);
        SumOfAbsent(s[..n], key, val, key(s[n]));
      }
    }
  }

  /**
   * A sequence of records, one per listed key and each carrying that key's
   * group sum, adds up to the sum over the listed keys.
   */
  lemma {:induction false} TotalOfGroups<R, T, K>(recs: seq<R>, rv: R -> nat, ks: seq<K>, s: seq<T>, key: T -> K, val: T -> nat)
    requires |recs| == |ks|
    requires forall j :: 0 <= j < |ks| ==> rv(recs[j]) == SumOf(s, key, val, ks[j])
    ensures Total(recs, rv) == GroupTotal(ks, s, key, val)
    decreases |ks|
  {
    if ks != [] {
      var m := |ks| - 1;
      TotalOfGroups(recs[..m], rv, ks[..m], s, key, val);
    }
  }

  /**
   * `Array.from(m.values())` for a `Map` whose insertion order is ks: the
   * value of each key, in key order.
   */
  function ValuesInOrder<K, V>(m: map<K, V>, ks: seq<K>): seq<V>
    requires forall j :: 0 <= j < |ks| ==> ks[j] in m
  {
    seq(|ks|, j requires 0 <= j < |ks| => m[ks[j]])
  }

  /** The j-th value read out is the value of the j-th key. */
  lemma ValuesInOrderAt<K, V>(m: map<K, V>, ks: seq<K>)
    requires forall j :: 0 <= j < |ks| ==> ks[j] in m
    ensures |ValuesInOrder(m, ks)| == |ks|
    ensures forall j :: 0 <= j < |ks| ==> ValuesInOrder(m, ks)[j] == m[ks[j]]
  {
  }

  /** A sequence without duplicates has as many elements as its set of elements. */
  lemma {:induction false} NoDuplicatesCard<K>(ks: seq<K>)
    requires NoDuplicates(ks)
    ensures |set k | k in ks| == |ks|
    decreases |ks|
  {
    if ks != [] {
      var n := |ks| - 1;
      NoDuplicatesCard(ks[..n]);
      assert (set k | k in ks) == (set k | k in ks[..n]) + {ks[n]};
      assert ks[n] !in ks[..n];
    }
  }

  /**
   * When ks lists each key of m once, the read-out holds every entry of m
   * exactly once: as many values as entries, the value of each key at that
   * key's position in the insertion order.
   */
  lemma ValuesInOrderEachEntryOnce<K, V>(m: map<K, V>, ks: seq<K>)
    requires NoDuplicates(ks)
    requires forall k :: k in m <==> k in ks
    ensures forall j :: 0 <= j < |ks| ==> ks[j] in m
    ensures |ValuesInOrder(m, ks)| == |m|
    ensures forall k :: k in m ==>
      exists j :: 0 <= j < |ks| && ks[j] == k && ValuesInOrder(m, ks)[j] == m[k]
  {
    NoDuplicatesCard(ks);
    assert m.Keys == set k | k in ks;
    ValuesInOrderAt(m, ks);
  }
}
