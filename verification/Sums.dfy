/** Sequences: their sums, and sequences with one element taken out. */
module Sums {

  function RemoveAt<T>(s: seq<T>, k: nat): (r: seq<T>)
    requires k < |s|
    ensures |r| == |s| - 1 && forall i :: 0 <= i < |r| ==> r[i] == s[if i < k then i else i + 1]
  {
    seq(|s| - 1, i requires 0 <= i < |s| - 1 => s[if i < k then i else i + 1])
  }

  ghost predicate AllDifferent<T>(s: seq<T>) { forall i, j {:trigger s[i], s[j]} :: 0 <= i < j < |s| ==> s[i] != s[j] }

  lemma Regroup<T>(a: seq<T>, b: seq<T>, c: seq<T>)
    ensures a + b + c == a + (b + c)
  {
  }

  function Sum(s: seq<nat>, n: nat): nat
    requires n <= |s|
  {
    if n == 0 then 0 else Sum(s, n - 1) + s[n - 1]
  }

  function Total(s: seq<nat>): nat { Sum(s, |s|) }

  lemma {:induction false} SumSame(s: seq<nat>, r: seq<nat>, n: nat)
    requires n <= |s| && n <= |r| && forall i :: 0 <= i < n ==> s[i] == r[i]
    ensures Sum(s, n) == Sum(r, n)
  {
    if n > 0 {
      SumSame(s, r, n - 1);
    }
  }

  lemma {:induction false} SumRemoved(s: seq<nat>, k: nat, n: nat)
    requires k < |s| && n < |s|
    ensures Sum(RemoveAt(s, k), n) == if n < k then Sum(s, n) else Sum(s, n + 1) - s[k]
  {
    if n == k {
      SumSame(RemoveAt(s, k), s, n);
    } else if n > 0 {
      SumRemoved(s, k, n - 1);
    }
  }

  lemma {:induction false} TotalSnoc(s: seq<nat>, v: nat)
    ensures Total(s + [v]) == Total(s) + v
  {
    SumSame(s + [v], s, |s|);
  }

  lemma {:induction false} SumUpdated(s: seq<nat>, k: nat, v: nat, n: nat)
    requires k < |s| && n <= |s|
    ensures Sum(s[k := v], n) == if n <= k then Sum(s, n) else Sum(s, n) - s[k] + v
  {
    if n > 0 {
      SumUpdated(s, k, v, n - 1);
    }
  }

  /** The sequences differ at k only. */
  lemma TotalSet(s: seq<nat>, r: seq<nat>, k: nat)
    requires k < |s| == |r| && forall i :: 0 <= i < |s| && i != k ==> r[i] == s[i]
    ensures Total(r) + s[k] == Total(s) + r[k]
  {
    assert r == s[k := r[k]];
    SumUpdated(s, k, r[k], |s|);
  }

  lemma TotalFirst(s: seq<nat>)
    requires s != []
    ensures Total(s) == s[0] + Total(s[1..])
  {
    assert RemoveAt(s, 0) == s[1..];
    SumRemoved(s, 0, |s| - 1);
  }

  lemma {:induction false} TotalZero(s: seq<nat>)
    requires forall i :: 0 <= i < |s| ==> s[i] == 0
    ensures Total(s) == 0
  {
    if s != [] {
      var init := s[..|s| - 1];
      TotalZero(init);
      TotalSnoc(init, s[|s| - 1]);
      assert s == init + [s[|s| - 1]];
    }
  }

  lemma {:induction false} TotalOnes(s: seq<nat>)
    requires forall i :: 0 <= i < |s| ==> s[i] <= 1
    ensures Total(s) <= |s| && ((forall i :: 0 <= i < |s| ==> s[i] == 1) ==> Total(s) == |s|)
  {
    if s != [] {
      var init := s[..|s| - 1];
      TotalOnes(init);
      TotalSnoc(init, s[|s| - 1]);
      assert s == init + [s[|s| - 1]];
    }
  }

  lemma {:induction false} PartOfTotal(s: seq<nat>, k: nat)
    requires k < |s|
    ensures s[k] <= Total(s)
  {
    TotalSet(s, s[k := 0], k);
  }

  lemma {:induction false} FindPart(s: seq<nat>, n: nat) returns (k: nat)
    requires n <= |s| && Sum(s, n) > 0
    ensures k < n && s[k] > 0
  {
    if s[n - 1] > 0 {
      k := n - 1;
    } else {
      k := FindPart(s, n - 1);
    }
  }
}
