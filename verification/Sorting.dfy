/** Sorting a list by a numeric key, as the places of the sorted elements. */
module Sorting {
  import opened Sums

  /** order lists every place of keys once, in ascending order of the keys. */
  ghost predicate SortedOrder(order: seq<nat>, keys: seq<nat>) {
    && |order| == |keys| && (forall i :: 0 <= i < |order| ==> order[i] < |keys|)
    && (forall s: nat :: s < |keys| ==> s in order)
    && (forall i, j :: 0 <= i < j < |order| ==> order[i] != order[j] && keys[order[i]] <= keys[order[j]])
  }

  /** The elements in a given order. */
  function Permuted<T>(order: seq<nat>, s: seq<T>): (r: seq<T>)
    requires forall i :: 0 <= i < |order| ==> order[i] < |s|
    ensures |r| == |order| && forall i :: 0 <= i < |r| ==> r[i] == s[order[i]]
  {
    seq(|order|, i requires 0 <= i < |order| => s[order[i]])
  }

  /** The first n places are sorted in order. */
  ghost predicate SortedTo(order: seq<nat>, keys: seq<nat>, n: nat) {
    && n <= |keys| && |order| == n && (forall i :: 0 <= i < n ==> order[i] < n)
    && (forall s: nat :: s < n ==> s in order)
    && (forall i, j :: 0 <= i < j < n ==> order[i] != order[j] && keys[order[i]] <= keys[order[j]])
  }

  method Sort(keys: seq<nat>) returns (order: seq<nat>)
    ensures SortedOrder(order, keys) && Total(Permuted(order, keys)) == Total(keys)
  {
    order := [];
    for n := 0 to |keys|
      invariant SortedTo(order, keys, n) && Total(Permuted(order, keys)) == Sum(keys, n)
    {
      var k := 0;
      while k < n && keys[order[k]] <= keys[n]
        invariant k <= n && forall i :: 0 <= i < k ==> keys[order[i]] <= keys[n]
      {
        k := k + 1;
      }
      Inserted(order, keys, n, k);
      SameTotal(order, keys, n, k);
      order := order[..k] + [n] + order[k..];
    }
  }

  lemma SameTotal(order: seq<nat>, keys: seq<nat>, n: nat, k: nat)
    requires n < |keys| && SortedTo(order, keys, n) && k <= n
    ensures var r := order[..k] + [n] + order[k..];
      (forall i :: 0 <= i < |r| ==> r[i] < |keys|) && Total(Permuted(r, keys)) == Total(Permuted(order, keys)) + keys[n]
  {
    var r := order[..k] + [n] + order[k..];
    assert forall i :: 0 <= i < |r| ==> r[i] == if i < k then order[i] else if i == k then n else order[i - 1];
    assert RemoveAt(Permuted(r, keys), k) == Permuted(order, keys);
    SumRemoved(Permuted(r, keys), k, n);
  }

  lemma Inserted(order: seq<nat>, keys: seq<nat>, n: nat, k: nat)
    requires n < |keys| && SortedTo(order, keys, n) && k <= n
    requires (forall i :: 0 <= i < k ==> keys[order[i]] <= keys[n]) && (k < n ==> keys[n] < keys[order[k]])
    ensures SortedTo(order[..k] + [n] + order[k..], keys, n + 1)
  {
    var r := order[..k] + [n] + order[k..];
    assert forall i :: 0 <= i < |r| ==> r[i] == if i < k then order[i] else if i == k then n else order[i - 1];
    forall s: nat | s < n + 1 ensures s in r {
      if s == n {
        assert r[k] == n;
      } else {
        assert s in order;
        var i :| 0 <= i < n && order[i] == s;
        assert r[if i < k then i else i + 1] == s;
      }
    }
    forall i, j | 0 <= i < j < n + 1 ensures r[i] != r[j] && keys[r[i]] <= keys[r[j]] {
      if i == k {
        assert k < n && keys[order[k]] <= keys[order[j - 1]];
      }
    }
  }
}
