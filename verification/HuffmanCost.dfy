/** Why merging the two lightest trees is best: a lower bound on the cost of any code
    lengths that satisfy Kraft's inequality, kept by every greedy merge; and Kraft's
    inequality for prefix-free codes. */
module HuffmanCost {
  import opened Arith
  import opened Sums
  import opened Words

  /** The sum of weight times length over the first n. */
  function Cost(w: seq<nat>, l: seq<nat>, n: nat): nat
    requires n <= |w| && n <= |l|
  {
    if n == 0 then 0 else Cost(w, l, n - 1) + Mul(w[n - 1], l[n - 1])
  }

  /** The sum of 2^(m - length) over the first n. */
  function Share(l: seq<nat>, m: nat, n: nat): nat
    requires n <= |l| && Within(l, m)
  {
    if n == 0 then 0 else Share(l, m, n - 1) + Pow2(m - l[n - 1])
  }

  ghost predicate Within(l: seq<nat>, m: nat) { forall i :: 0 <= i < |l| ==> l[i] <= m }

  /** Kraft's inequality, scaled by 2^m. */
  ghost predicate KraftAt(l: seq<nat>, m: nat) { Within(l, m) && Share(l, m, |l|) <= Pow2(m) }

  ghost predicate Kraft(l: seq<nat>) { exists m: nat :: KraftAt(l, m) }

  /** No code lengths cost less than c. */
  ghost predicate LowerBound(w: seq<nat>, c: nat) {
    forall l: seq<nat> :: |l| == |w| && Kraft(l) ==> c <= Cost(w, l, |w|)
  }

  // ---- changing one element of the sums

  lemma {:induction false} CostRemoved(w: seq<nat>, l: seq<nat>, k: nat, n: nat)
    requires k < |w| == |l| && n < |w|
    ensures Cost(RemoveAt(w, k), RemoveAt(l, k), n) ==
      if n < k then Cost(w, l, n) else Cost(w, l, n + 1) - Mul(w[k], l[k])
  {
    if n == k {
      CostSame(RemoveAt(w, k), RemoveAt(l, k), w, l, n);
    } else if n > 0 {
      CostRemoved(w, l, k, n - 1);
    }
  }

  lemma {:induction false} ShareRemoved(l: seq<nat>, m: nat, k: nat, n: nat)
    requires k < |l| && n < |l| && Within(l, m)
    ensures Share(RemoveAt(l, k), m, n) == if n < k then Share(l, m, n) else Share(l, m, n + 1) - Pow2(m - l[k])
  {
    if n == k {
      ShareSame(RemoveAt(l, k), l, m, n);
    } else if n > 0 {
      ShareRemoved(l, m, k, n - 1);
    }
  }

  lemma {:induction false} CostUpdated(w: seq<nat>, l: seq<nat>, k: nat, v: nat, n: nat)
    requires k < |w| == |l| && n <= |w|
    ensures Cost(w, l[k := v], n) == if n <= k then Cost(w, l, n) else Cost(w, l, n) - Mul(w[k], l[k]) + Mul(w[k], v)
  {
    if n > 0 {
      CostUpdated(w, l, k, v, n - 1);
    }
  }

  lemma {:induction false} ShareUpdated(l: seq<nat>, m: nat, k: nat, v: nat, n: nat)
    requires k < |l| && n <= |l| && Within(l, m) && v <= m
    ensures Share(l[k := v], m, n) == if n <= k then Share(l, m, n) else Share(l, m, n) - Pow2(m - l[k]) + Pow2(m - v)
  {
    if n > 0 {
      ShareUpdated(l, m, k, v, n - 1);
    }
  }

  lemma {:induction false} CostSame(w: seq<nat>, l: seq<nat>, w': seq<nat>, l': seq<nat>, n: nat)
    requires n <= |w| && n <= |l| && n <= |w'| && n <= |l'| && forall i :: 0 <= i < n ==> w[i] == w'[i] && l[i] == l'[i]
    ensures Cost(w, l, n) == Cost(w', l', n)
  {
    if n > 0 {
      CostSame(w, l, w', l', n - 1);
    }
  }

  lemma {:induction false} CostSnoc(w: seq<nat>, l: seq<nat>, x: nat, y: nat)
    requires |w| == |l|
    ensures Cost(w + [x], l + [y], |w| + 1) == Cost(w, l, |w|) + Mul(x, y)
  {
    CostSame(w + [x], l + [y], w, l, |w|);
  }

  lemma {:induction false} ShareSame(l: seq<nat>, l': seq<nat>, m: nat, n: nat)
    requires n <= |l| && n <= |l'| && Within(l, m) && Within(l', m) && forall i :: 0 <= i < n ==> l[i] == l'[i]
    ensures Share(l, m, n) == Share(l', m, n)
  {
    if n > 0 {
      ShareSame(l, l', m, n - 1);
    }
  }

  /** Giving the longer length to the lighter weight does not cost more. */
  lemma {:induction false} Exchanged(w: seq<nat>, l: seq<nat>, a: nat, b: nat, m: nat) returns (r: seq<nat>)
    requires |w| == |l| && a < |w| && b < |w| && w[a] <= w[b] && l[a] <= l[b] && Within(l, m)
    ensures r == l[a := l[b]][b := l[a]] && Within(r, m)
    ensures Cost(w, r, |w|) <= Cost(w, l, |w|) && Share(r, m, |r|) == Share(l, m, |l|)
  {
    var p := l[a := l[b]];
    r := p[b := l[a]];
    if a == b {
      assert r == l;
    } else {
      CostUpdated(w, l, a, l[b], |w|);
      CostUpdated(w, p, b, l[a], |w|);
      ShareUpdated(l, m, a, l[b], |w|);
      ShareUpdated(p, m, b, l[a], |w|);
      CrossProducts(w[a], w[b], l[a], l[b]);
    }
  }

  lemma CrossProducts(x: nat, y: nat, p: nat, q: nat)
    requires x <= y && p <= q
    ensures Mul(x, q) + Mul(y, p) <= Mul(x, p) + Mul(y, q)
  {
    MulIsProduct(x, q);
    MulIsProduct(y, p);
    MulIsProduct(x, p);
    MulIsProduct(y, q);
    assert (y - x) * (q - p) >= 0;
    assert (y - x) * (q - p) == y * q - y * p - x * q + x * p;
  }

  lemma {:induction false} Longest(l: seq<nat>, n: nat) returns (k: nat)
    requires 0 < n <= |l|
    ensures k < n && forall i :: 0 <= i < n ==> l[i] <= l[k]
  {
    if n == 1 {
      k := 0;
    } else {
      k := Longest(l, n - 1);
      if l[k] < l[n - 1] {
        k := n - 1;
      }
    }
  }

  /** The lightest weight can be given the longest length. */
  lemma {:induction false} LightestLongest(w: seq<nat>, l: seq<nat>, a: nat, m: nat) returns (r: seq<nat>, k: nat)
    requires |w| == |l| && a < |w| && Within(l, m) && forall i :: 0 <= i < |w| ==> w[a] <= w[i]
    ensures |r| == |l| && k < |l| && Within(r, r[a]) && r[a] == l[k] <= m && Within(r, m)
    ensures Cost(w, r, |w|) <= Cost(w, l, |w|) && Share(r, m, |r|) == Share(l, m, |l|)
  {
    k := Longest(l, |l|);
    r := Exchanged(w, l, a, k, m);
  }

  /** A share is left over at scale m, and at any smaller scale that fits the lengths. */
  lemma {:induction false} ScaleDown(l: seq<nat>, m: nat, n: nat)
    requires n <= m && Within(l, n) && Within(l, m) && Share(l, m, |l|) < Pow2(m)
    ensures Share(l, n, |l|) < Pow2(n)
    decreases m
  {
    if n < m {
      HalfShare(l, m - 1, |l|);
      ScaleDown(l, m - 1, n);
    }
  }

  lemma {:induction false} HalfShare(l: seq<nat>, m: nat, n: nat)
    requires Within(l, m) && n <= |l|
    ensures Share(l, m + 1, n) == 2 * Share(l, m, n)
  {
    if n > 0 {
      HalfShare(l, m, n - 1);
    }
  }

  /** The two lightest weights of w, the second among the rest w1, are merged in w2. */
  ghost predicate Merged(w: seq<nat>, a: nat, b: nat, w1: seq<nat>, w2: seq<nat>) {
    && a < |w| && w1 == RemoveAt(w, a) && b < |w1| && w2 == RemoveAt(w1, b) + [w[a] + w1[b]]
    && (forall i :: 0 <= i < |w| ==> w[a] <= w[i]) && (forall i :: 0 <= i < |w1| ==> w1[b] <= w1[i])
  }

  /** The greedy step: merging the two lightest weights keeps the bound. */
  lemma {:induction false} GreedyStep(w: seq<nat>, a: nat, b: nat, w1: seq<nat>, w2: seq<nat>, c: nat)
    requires Merged(w, a, b, w1, w2) && LowerBound(w2, c)
    ensures LowerBound(w, c + w[a] + w1[b])
  {
    forall l: seq<nat> | |l| == |w| && Kraft(l) ensures c + w[a] + w1[b] <= Cost(w, l, |w|) {
      var l2 := GreedyMerge(w, a, b, w1, w2, l);
    }
  }

  /** Lengths for the merged weights that cost less by the weight of the merge. */
  lemma {:induction false} GreedyMerge(w: seq<nat>, a: nat, b: nat, w1: seq<nat>, w2: seq<nat>, l: seq<nat>)
      returns (l2: seq<nat>)
    requires Merged(w, a, b, w1, w2) && |l| == |w| && Kraft(l)
    ensures |l2| == |w2| && Kraft(l2) && Cost(w2, l2, |w2|) + w[a] + w1[b] <= Cost(w, l, |w|)
  {
    var m: nat :| KraftAt(l, m);
    var r, k := LightestLongest(w, l, a, m);
    CostRemoved(w, r, a, |w| - 1);
    ShareRemoved(r, m, a, |w| - 1);
    var s, j := LightestLongest(w1, RemoveAt(r, a), b, m);
    ScaleDown(s, m, s[b]);
    l2 := ParentShare(s, b, s[b]);
    MergedCosts(w1, b, w2, s, l2, w[a]);
    Grows(w[a], s[b], r[a]);
  }

  lemma Grows(x: nat, p: nat, q: nat)
    requires p <= q
    ensures Mul(x, p) <= Mul(x, q)
  {
    MulIsProduct(x, p);
    MulIsProduct(x, q);
  }

  /** The two longest codes get a common parent, one bit shorter. */
  lemma {:induction false} MergedCosts(w: seq<nat>, b: nat, w': seq<nat>, l: seq<nat>, l': seq<nat>, x: nat)
    requires |l| == |w| && b < |w| && w' == RemoveAt(w, b) + [x + w[b]] && l[b] > 0 && l' == RemoveAt(l, b) + [l[b] - 1]
    ensures Cost(w', l', |w'|) + x + w[b] == Cost(w, l, |w|) + Mul(x, l[b])
  {
    var n := |w| - 1;
    CostRemoved(w, l, b, n);
    var v, r := RemoveAt(w, b), RemoveAt(l, b);
    CostSnoc(v, r, x + w[b], l[b] - 1);
    assert w' == v + [x + w[b]] && l' == r + [l[b] - 1];
    ParentCost(x, w[b], l[b]);
  }

  lemma {:induction false} ParentShare(l: seq<nat>, b: nat, m: nat) returns (l': seq<nat>)
    requires b < |l| && l[b] == m && Within(l, m) && Share(l, m, |l|) < Pow2(m)
    ensures m > 0 && l' == RemoveAt(l, b) + [m - 1] && Kraft(l')
  {
    var n := |l| - 1;
    ShareRemoved(l, m, b, n);
    assert Pow2(0) == 1;
    l' := RemoveAt(l, b) + [m - 1];
    ShareSame(RemoveAt(l, b), l', m, n);
    assert Pow2(1) == 2;
    assert Share(l', m, n + 1) == Share(l', m, n) + Pow2(m - (m - 1));
    assert KraftAt(l', m);
  }

  lemma ParentCost(x: nat, y: nat, m: nat)
    requires m > 0
    ensures Mul(x + y, m - 1) == Mul(x, m) + Mul(y, m) - x - y
  {
    MulIsProduct(x + y, m - 1);
    MulIsProduct(x, m);
    MulIsProduct(y, m);
    assert (x + y) * (m - 1) == (x + y) * m - (x + y);
    assert (x + y) * m == x * m + y * m;
  }

  // ---- Kraft's inequality

  ghost predicate IsPrefix(a: seq<bool>, b: seq<bool>) { Here(b, 0, a) }

  ghost predicate PrefixFreeCodes(codes: seq<seq<bool>>) {
    forall i, j :: 0 <= i < |codes| && 0 <= j < |codes| && i != j ==> !IsPrefix(codes[i], codes[j])
  }

  ghost predicate Short(codes: seq<seq<bool>>, m: nat) { forall i :: 0 <= i < |codes| ==> |codes[i]| <= m }

  /** The sum of 2^(m - length) over the first n codes. */
  function CodeShare(codes: seq<seq<bool>>, m: nat, n: nat): nat
    requires n <= |codes| && Short(codes, m)
  {
    if n == 0 then 0 else CodeShare(codes, m, n - 1) + Pow2(m - |codes[n - 1]|)
  }

  /** The tails of the codes that start with a bit, among the first n. */
  function Tails(codes: seq<seq<bool>>, bit: bool, n: nat): (r: seq<seq<bool>>)
    requires n <= |codes|
  {
    if n == 0 then []
    else Tails(codes, bit, n - 1) + if codes[n - 1] != [] && codes[n - 1][0] == bit then [codes[n - 1][1..]] else []
  }

  /** Where the tails come from. */
  function Places(codes: seq<seq<bool>>, bit: bool, n: nat): (r: seq<nat>)
    requires n <= |codes|
    ensures forall k :: 0 <= k < |r| ==> r[k] < n && codes[r[k]] != [] && codes[r[k]][0] == bit
    ensures forall i, k :: 0 <= i < k < |r| ==> r[i] < r[k]
  {
    if n == 0 then []
    else Places(codes, bit, n - 1) + if codes[n - 1] != [] && codes[n - 1][0] == bit then [n - 1] else []
  }

  lemma {:induction false} TailPlaces(codes: seq<seq<bool>>, bit: bool, n: nat)
    requires n <= |codes|
    ensures var r := Tails(codes, bit, n);
      |r| == |Places(codes, bit, n)| && forall k :: 0 <= k < |r| ==> r[k] == codes[Places(codes, bit, n)[k]][1..]
  {
    if n > 0 {
      TailPlaces(codes, bit, n - 1);
    }
  }

  lemma TailsPrefixFree(codes: seq<seq<bool>>, bit: bool)
    requires PrefixFreeCodes(codes)
    ensures PrefixFreeCodes(Tails(codes, bit, |codes|))
  {
    var places, tails := Places(codes, bit, |codes|), Tails(codes, bit, |codes|);
    TailPlaces(codes, bit, |codes|);
    forall i, j | 0 <= i < |tails| && 0 <= j < |tails| && i != j ensures !IsPrefix(tails[i], tails[j]) {
      if IsPrefix(tails[i], tails[j]) {
        LongerPrefix(codes[places[i]], codes[places[j]]);
        assert false;
      }
    }
  }

  lemma LongerPrefix(a: seq<bool>, b: seq<bool>)
    requires a != [] && b != [] && a[0] == b[0] && IsPrefix(a[1..], b[1..])
    ensures IsPrefix(a, b)
  {
    forall i | 0 <= i < |a| ensures a[i] == b[0 + i] {
      if i > 0 {
        assert a[1..][i - 1] == b[1..][0 + (i - 1)];
      }
    }
  }

  /** The part of the share that belongs to the codes that start with a bit. */
  function BitShare(codes: seq<seq<bool>>, bit: bool, m: nat, n: nat): nat
    requires n <= |codes| && Short(codes, m)
  {
    if n == 0 then 0
    else BitShare(codes, bit, m, n - 1)
         + if codes[n - 1] != [] && codes[n - 1][0] == bit then Pow2(m - |codes[n - 1]|) else 0
  }

  lemma {:induction false} ShareByBit(codes: seq<seq<bool>>, m: nat, n: nat)
    requires n <= |codes| && Short(codes, m) && forall i :: 0 <= i < |codes| ==> codes[i] != []
    ensures CodeShare(codes, m, n) == BitShare(codes, false, m, n) + BitShare(codes, true, m, n)
  {
    if n > 0 {
      ShareByBit(codes, m, n - 1);
    }
  }

  lemma {:induction false} ShareOfTails(codes: seq<seq<bool>>, bit: bool, m: nat, n: nat)
    requires n <= |codes| && m > 0 && Short(codes, m)
    ensures Short(Tails(codes, bit, n), m - 1)
    ensures CodeShare(Tails(codes, bit, n), m - 1, |Tails(codes, bit, n)|) == BitShare(codes, bit, m, n)
  {
    if n > 0 {
      ShareOfTails(codes, bit, m, n - 1);
      if codes[n - 1] != [] && codes[n - 1][0] == bit {
        ShareSnoc(Tails(codes, bit, n - 1), codes[n - 1][1..], m - 1);
      } else {
        assert Tails(codes, bit, n) == Tails(codes, bit, n - 1);
      }
    }
  }

  lemma {:induction false} ShareSnoc(codes: seq<seq<bool>>, code: seq<bool>, m: nat)
    requires Short(codes, m) && |code| <= m
    ensures Short(codes + [code], m)
    ensures CodeShare(codes + [code], m, |codes| + 1) == CodeShare(codes, m, |codes|) + Pow2(m - |code|)
  {
    CodeShareSame(codes, codes + [code], m, |codes|);
  }

  lemma {:induction false} CodeShareSame(a: seq<seq<bool>>, b: seq<seq<bool>>, m: nat, n: nat)
    requires Short(a, m) && Short(b, m) && n <= |a| && n <= |b| && forall i :: 0 <= i < n ==> a[i] == b[i]
    ensures CodeShare(a, m, n) == CodeShare(b, m, n)
  {
    if n > 0 {
      CodeShareSame(a, b, m, n - 1);
    }
  }

  /** Kraft's inequality: prefix-free codes of at most m bits. */
  lemma {:induction false} KraftHolds(codes: seq<seq<bool>>, m: nat)
    requires PrefixFreeCodes(codes) && Short(codes, m)
    ensures CodeShare(codes, m, |codes|) <= Pow2(m)
    decreases m
  {
    if i: nat :| i < |codes| && codes[i] == [] {
      if |codes| > 1 {
        assert IsPrefix(codes[i], codes[if i == 0 then 1 else 0]);
        assert false;
      }
    } else if m > 0 {
      ShareByBit(codes, m, |codes|);
      ShareOfTails(codes, false, m, |codes|);
      ShareOfTails(codes, true, m, |codes|);
      TailsPrefixFree(codes, false);
      TailsPrefixFree(codes, true);
      KraftHolds(Tails(codes, false, |codes|), m - 1);
      KraftHolds(Tails(codes, true, |codes|), m - 1);
    }
  }

  function Lengths(codes: seq<seq<bool>>): (r: seq<nat>)
    ensures |r| == |codes| && forall i :: 0 <= i < |r| ==> r[i] == |codes[i]|
  {
    seq(|codes|, i requires 0 <= i < |codes| => |codes[i]|)
  }

  lemma {:induction false} SameShares(codes: seq<seq<bool>>, m: nat, n: nat)
    requires Short(codes, m) && n <= |codes|
    ensures Within(Lengths(codes), m) && Share(Lengths(codes), m, n) == CodeShare(codes, m, n)
  {
    if n > 0 {
      SameShares(codes, m, n - 1);
    }
  }

  lemma {:induction false} CommonBound(codes: seq<seq<bool>>, n: nat) returns (m: nat)
    requires n <= |codes|
    ensures forall i :: 0 <= i < n ==> |codes[i]| <= m
  {
    if n == 0 {
      m := 0;
    } else {
      m := CommonBound(codes, n - 1);
      if m < |codes[n - 1]| {
        m := |codes[n - 1]|;
      }
    }
  }

  /** A lower bound on lengths is a lower bound for every prefix-free code. */
  lemma BoundForCodes(w: seq<nat>, c: nat, codes: seq<seq<bool>>)
    requires LowerBound(w, c) && PrefixFreeCodes(codes) && |codes| == |w|
    ensures c <= Cost(w, Lengths(codes), |w|)
  {
    var m := CommonBound(codes, |codes|);
    KraftHolds(codes, m);
    SameShares(codes, m, |codes|);
    assert KraftAt(Lengths(codes), m);
  }
}
