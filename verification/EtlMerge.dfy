/** Sorting the pairs of a buffer, writing them to a file and reading them back, and merging
    the sorted files. */
module EtlMerge {
  import opened ByteKeys
  import opened Uvarint
  import opened Sums

  type Value = seq<nat>

  datatype Pair = Pair(key: Key, val: Value)

  // ---- the stable order of a buffer

  /** By key, and pairs with the same key by their place. */
  ghost predicate Before(ps: seq<Pair>, i: nat, j: nat)
    requires i < |ps| && j < |ps|
  {
    Less(ps[i].key, ps[j].key) || (ps[i].key == ps[j].key && i < j)
  }

  /** order lists places of ps, strictly in the stable order. */
  ghost predicate InOrder(ps: seq<Pair>, order: seq<nat>) {
    && (forall a :: 0 <= a < |order| ==> order[a] < |ps|)
    && forall a, b {:trigger Before(ps, order[a], order[b])} :: 0 <= a < b < |order| ==> Before(ps, order[a], order[b])
  }

  /** order lists the first n places, each once, in the stable order. */
  ghost predicate Ordered(ps: seq<Pair>, order: seq<nat>, n: nat) {
    && n <= |ps| && InOrder(ps, order) && (forall a :: 0 <= a < |order| ==> order[a] < n)
    && forall i: nat :: i < n ==> i in order
  }

  lemma BeforeTransitive(ps: seq<Pair>, i: nat, j: nat, k: nat)
    requires i < |ps| && j < |ps| && k < |ps| && Before(ps, i, j) && Before(ps, j, k)
    ensures Before(ps, i, k)
  {
    if Less(ps[i].key, ps[j].key) && Less(ps[j].key, ps[k].key) {
      LessTransitive(ps[i].key, ps[j].key, ps[k].key);
    }
  }

  /** A place for the next pair: behind all that are not after it. */
  method PlaceFor(ps: seq<Pair>, order: seq<nat>, n: nat) returns (k: nat)
    requires n < |ps| && Ordered(ps, order, n)
    ensures k <= |order| && (forall a :: 0 <= a < k ==> Before(ps, order[a], n))
    ensures forall a :: k <= a < |order| ==> Before(ps, n, order[a])
  {
    k := 0;
    while k < |order| && !Less(ps[n].key, ps[order[k]].key)
      invariant k <= |order| && forall a :: 0 <= a < k ==> Before(ps, order[a], n)
    {
      LessTotal(ps[n].key, ps[order[k]].key);
      k := k + 1;
    }
    forall a | k <= a < |order| ensures Before(ps, n, order[a]) {
      if k < a {
        assert Before(ps, order[k], order[a]);
        BeforeTransitive(ps, n, order[k], order[a]);
      }
    }
  }

  function Inserted(order: seq<nat>, k: nat, n: nat): (r: seq<nat>)
    requires k <= |order|
    ensures |r| == |order| + 1
    ensures forall a :: 0 <= a < |r| ==> r[a] == if a < k then order[a] else if a == k then n else order[a - 1]
  {
    seq(|order| + 1, a requires 0 <= a < |order| + 1 => if a < k then order[a] else if a == k then n else order[a - 1])
  }

  lemma {:induction false} InsertedOk(ps: seq<Pair>, order: seq<nat>, k: nat, n: nat)
    requires n < |ps| && Ordered(ps, order, n) && k <= |order|
    requires (forall a :: 0 <= a < k ==> Before(ps, order[a], n))
    requires forall a :: k <= a < |order| ==> Before(ps, n, order[a])
    ensures Ordered(ps, Inserted(order, k, n), n + 1)
  {
    var r := Inserted(order, k, n);
    forall a, b {:trigger r[a], r[b]} | 0 <= a < b < |r| ensures Before(ps, r[a], r[b]) {
      if a != k && b != k {
        var a', b' := if a < k then a else a - 1, if b < k then b else b - 1;
        assert Before(ps, order[a'], order[b']);
      }
    }
    forall i: nat | i < n + 1 ensures i in r {
      if i == n {
        assert r[k] == n;
      } else {
        assert i in order;
        var a :| 0 <= a < |order| && order[a] == i;
        assert r[if a < k then a else a + 1] == i;
      }
    }
  }

  /** sort.Stable. */
  method StableSort(ps: seq<Pair>) returns (order: seq<nat>)
    ensures Ordered(ps, order, |ps|)
  {
    order := [];
    for n := 0 to |ps|
      invariant Ordered(ps, order, n)
    {
      var k := PlaceFor(ps, order, n);
      InsertedOk(ps, order, k, n);
      order := Inserted(order, k, n);
    }
  }

  function Arranged(ps: seq<Pair>, order: seq<nat>): (r: seq<Pair>)
    requires forall a :: 0 <= a < |order| ==> order[a] < |ps|
    ensures |r| == |order| && forall a :: 0 <= a < |r| ==> r[a] == ps[order[a]]
  {
    seq(|order|, a requires 0 <= a < |order| => ps[order[a]])
  }

  /** Keys that do not descend. */
  ghost predicate Sorted(ps: seq<Pair>) {
    forall i, j {:trigger Less(ps[j].key, ps[i].key)} :: 0 <= i < j < |ps| ==> !Less(ps[j].key, ps[i].key)
  }

  lemma {:induction false} ArrangedSorted(ps: seq<Pair>, order: seq<nat>)
    requires InOrder(ps, order)
    ensures Sorted(Arranged(ps, order))
  {
    var r := Arranged(ps, order);
    forall i, j {:trigger r[i], r[j]} | 0 <= i < j < |r| ensures !Less(r[j].key, r[i].key) {
      assert Before(ps, order[i], order[j]);
      LessIrreflexive(r[i].key);
      if Less(r[i].key, r[j].key) {
        LessAsymmetric(r[i].key, r[j].key);
      }
    }
  }

  // ---- files

  function WriteWord(w: seq<nat>): seq<nat> { PutUvarint(|w|) + w }

  /** The bytes of the first n pairs. */
  function Written(ps: seq<Pair>, n: nat): seq<nat>
    requires n <= |ps|
  {
    if n == 0 then [] else Written(ps, n - 1) + (WriteWord(ps[n - 1].key) + WriteWord(ps[n - 1].val))
  }

  lemma {:induction false} WrittenHere(ps: seq<Pair>, i: nat, n: nat)
    requires i < n <= |ps|
    ensures BytesAt(Written(ps, n), |Written(ps, i)|, WriteWord(ps[i].key) + WriteWord(ps[i].val))
    ensures |Written(ps, i + 1)| <= |Written(ps, n)|
  {
    if i < n - 1 {
      WrittenHere(ps, i, n - 1);
      var w, m, x := WriteWord(ps[i].key) + WriteWord(ps[i].val), Written(ps, n - 1), WriteWord(ps[n - 1].key) +
          WriteWord(ps[n - 1].val);
      var at := |Written(ps, i)|;
      forall k | 0 <= k < |w| ensures (m + x)[at + k] == w[k] {
        assert m[at + k] == w[k];
      }
    } else {
      var m, x := Written(ps, i), WriteWord(ps[i].key) + WriteWord(ps[i].val);
      forall k | 0 <= k < |x| ensures (m + x)[|m| + k] == x[k] {
      }
    }
  }

  lemma WordParts(s: seq<nat>, at: nat, a: seq<nat>, b: seq<nat>)
    requires BytesAt(s, at, a + b)
    ensures BytesAt(s, at, a) && BytesAt(s, at + |a|, b)
  {
    forall k | 0 <= k < |a| ensures s[at + k] == a[k] {
      assert (a + b)[k] == s[at + k];
    }
    forall k | 0 <= k < |b| ensures s[at + |a| + k] == b[k] {
      assert (a + b)[|a| + k] == s[at + (|a| + k)];
    }
  }

  method ReadWord(s: seq<nat>, at: nat, ghost w: seq<nat>) returns (r: seq<nat>, next: nat)
    requires BytesAt(s, at, WriteWord(w))
    ensures r == w && next == at + |WriteWord(w)|
  {
    WordParts(s, at, PutUvarint(|w|), w);
    var n;
    n, next := ReadUvarint(s, at, |w|);
    r := s[next..next + n];
    forall k | 0 <= k < |w| ensures r[k] == w[k] {
      assert s[next + k] == w[k];
    }
    assert r == w;
    next := next + n;
  }

  /** A sorted run, kept in memory or written to a file. */
  datatype Provider = Ram(ps: seq<Pair>) | Disk(bytes: seq<nat>)

  ghost predicate Provides(p: Provider, ps: seq<Pair>) { if p.Ram? then p.ps == ps else p.bytes == Written(ps, |ps|) }

  /** Where the provider stands before pair i. */
  ghost function Offset(p: Provider, ps: seq<Pair>, i: nat): nat
    requires i <= |ps|
  {
    if p.Ram? then i else |Written(ps, i)|
  }

  datatype Next = Eof | Got(pair: Pair, at: nat)

  /** dataProvider.Next: memory and file give the same. */
  method NextPair(p: Provider, at: nat, ghost ps: seq<Pair>, ghost i: nat) returns (r: Next)
    requires Provides(p, ps) && i <= |ps| && at == Offset(p, ps, i)
    ensures r == if i < |ps| then Got(ps[i], Offset(p, ps, i + 1)) else Eof
  {
    if p.Ram? {
      if at >= |p.ps| {
        return Eof;
      }
      return Got(p.ps[at], at + 1);
    }
    if i < |ps| {
      WrittenHere(ps, i, |ps|);
    }
    if at >= |p.bytes| {
      return Eof;
    }
    WordParts(p.bytes, at, WriteWord(ps[i].key), WriteWord(ps[i].val));
    var key, mid := ReadWord(p.bytes, at, ps[i].key);
    var val, next := ReadWord(p.bytes, mid, ps[i].val);
    r := Got(Pair(key, val), next);
  }

  // ---- the merge

  /** Pair idx of a run. */
  datatype Src = Src(run: nat, idx: nat)

  ghost predicate Within(runs: seq<seq<Pair>>, x: Src) { x.run < |runs| && x.idx < |runs[x.run]| }

  function At(runs: seq<seq<Pair>>, x: Src): Pair
    requires x.run < |runs| && x.idx < |runs[x.run]|
  {
    runs[x.run][x.idx]
  }

  /** The order of the heap: by key, then by run; within a run by place. */
  ghost predicate Earlier(runs: seq<seq<Pair>>, x: Src, y: Src)
    requires Within(runs, x) && Within(runs, y)
  {
    || Less(At(runs, x).key, At(runs, y).key)
    || (At(runs, x).key == At(runs, y).key && (x.run < y.run || (x.run == y.run && x.idx < y.idx)))
  }

  lemma EarlierTransitive(runs: seq<seq<Pair>>, x: Src, y: Src, z: Src)
    requires Within(runs, x) && Within(runs, y) && Within(runs, z) && Earlier(runs, x, y) && Earlier(runs, y, z)
    ensures Earlier(runs, x, z)
  {
    if Less(At(runs, x).key, At(runs, y).key) && Less(At(runs, y).key, At(runs, z).key) {
      LessTransitive(At(runs, x).key, At(runs, y).key, At(runs, z).key);
    }
  }

  lemma EarlierTotal(runs: seq<seq<Pair>>, x: Src, y: Src)
    requires Within(runs, x) && Within(runs, y) && x.run != y.run
    ensures Earlier(runs, x, y) || Earlier(runs, y, x)
  {
    LessTotal(At(runs, x).key, At(runs, y).key);
  }

  /** The delivered pairs are strictly in the order of the heap. */
  ghost predicate Delivered(runs: seq<seq<Pair>>, from: seq<Src>) {
    && (forall a {:trigger from[a]} :: 0 <= a < |from| ==> Within(runs, from[a]))
    && forall a, b {:trigger Earlier(runs, from[a], from[b])} :: 0 <= a < b < |from| ==> Earlier(runs, from[a], from[b])
  }

  /** The pairs before the positions are delivered, and none after them. */
  ghost predicate Upto(runs: seq<seq<Pair>>, pos: seq<nat>, from: seq<Src>) {
    && |pos| == |runs| && (forall p {:trigger pos[p]} :: 0 <= p < |runs| ==> pos[p] <= |runs[p]|)
    && (forall a {:trigger from[a]} :: 0 <= a < |from| ==> from[a].run < |runs| && from[a].idx < pos[from[a].run])
    && forall x: Src {:trigger x in from} :: x.run < |runs| && x.idx < pos[x.run] ==> x in from
  }

  ghost predicate Ahead(runs: seq<seq<Pair>>, pos: seq<nat>, from: seq<Src>, a: nat, p: nat)
    requires |pos| == |runs| && a < |from| && p < |runs| && Within(runs, from[a]) && pos[p] < |runs[p]|
  {
    Earlier(runs, from[a], Src(p, pos[p]))
  }

  /** What is delivered comes before all that is left. */
  ghost predicate LeftAfter(runs: seq<seq<Pair>>, pos: seq<nat>, from: seq<Src>) {
    && |pos| == |runs| && (forall a {:trigger from[a]} :: 0 <= a < |from| ==> Within(runs, from[a]))
    && forall a, p {:trigger Ahead(runs, pos, from, a, p)} ::
      0 <= a < |from| && 0 <= p < |runs| && pos[p] < |runs[p]| ==>
         Ahead(runs, pos, from, a, p)
  }

  /** p has the first pair of all that are left. */
  ghost predicate IsTop(runs: seq<seq<Pair>>, pos: seq<nat>, t: nat) {
    && |pos| == |runs| && t < |runs| && pos[t] < |runs[t]|
    && forall p {:trigger pos[p]} :: 0 <= p < |runs| && p != t && pos[p] < |runs[p]| ==>
        Earlier(runs, Src(t, pos[t]), Src(p, pos[p]))
  }

  /** The merge after some steps. */
  ghost predicate Merging(runs: seq<seq<Pair>>, pos: seq<nat>, from: seq<Src>) {
    && (forall p {:trigger Sorted(runs[p])} :: 0 <= p < |runs| ==> Sorted(runs[p]))
    && Delivered(runs, from) && Upto(runs, pos, from) && LeftAfter(runs, pos, from)
  }

  lemma {:induction false} NextUpto(runs: seq<seq<Pair>>, pos: seq<nat>, from: seq<Src>, t: nat)
    requires Upto(runs, pos, from) && t < |runs| && pos[t] < |runs[t]|
    ensures Upto(runs, pos[t := pos[t] + 1], from + [Src(t, pos[t])])
  {
    var pos', from' := pos[t := pos[t] + 1], from + [Src(t, pos[t])];
    forall x: Src {:trigger x in from'} | x.run < |runs| && x.idx < pos'[x.run] ensures x in from' {
      if x != Src(t, pos[t]) {
        assert x in from;
      } else {
        assert from'[|from|] == x;
      }
    }
  }

  lemma {:induction false} NextDelivered(runs: seq<seq<Pair>>, pos: seq<nat>, from: seq<Src>, t: nat)
    requires Merging(runs, pos, from) && t < |runs| && pos[t] < |runs[t]|
    ensures Delivered(runs, from + [Src(t, pos[t])])
  {
    var from' := from + [Src(t, pos[t])];
    forall a, b {:trigger from'[a], from'[b]} | 0 <= a < b < |from'| ensures Earlier(runs, from'[a], from'[b]) {
      if b == |from| {
        assert Ahead(runs, pos, from, a, t);
      }
    }
  }

  lemma {:induction false} NextAhead(runs: seq<seq<Pair>>, pos: seq<nat>, from: seq<Src>, t: nat, a: nat, p: nat)
    requires Merging(runs, pos, from) && IsTop(runs, pos, t) && a <= |from| && p < |runs|
    requires pos[t := pos[t] + 1][p] < |runs[p]|
    ensures Earlier(runs, if a < |from| then from[a] else Src(t, pos[t]), Src(p, pos[t := pos[t] + 1][p]))
  {
    var x, y := if a < |from| then from[a] else Src(t, pos[t]), Src(p, pos[t := pos[t] + 1][p]);
    if p == t {
      var top := Src(t, pos[t]);
      assert Sorted(runs[t]);
      LessTotal(At(runs, top).key, At(runs, y).key);
      assert Earlier(runs, top, y);
      if a < |from| {
        assert Ahead(runs, pos, from, a, t);
        EarlierTransitive(runs, x, top, y);
      }
    } else if a < |from| {
      assert Ahead(runs, pos, from, a, p);
    } else {
      assert pos[p] < |runs[p]|;
    }
  }

  /** One more pair. */
  lemma {:induction false} NextMerging(runs: seq<seq<Pair>>, pos: seq<nat>, from: seq<Src>, t: nat)
    requires Merging(runs, pos, from) && IsTop(runs, pos, t)
    ensures Merging(runs, pos[t := pos[t] + 1], from + [Src(t, pos[t])])
  {
    var pos', from' := pos[t := pos[t] + 1], from + [Src(t, pos[t])];
    NextUpto(runs, pos, from, t);
    NextDelivered(runs, pos, from, t);
    forall a, p {:trigger Ahead(runs, pos', from', a, p)} | 0 <= a < |from'| && 0 <= p < |runs| && pos'[p] < |runs[p]|
      ensures Ahead(runs, pos', from', a, p) {
      NextAhead(runs, pos, from, t, a, p);
    }
  }

  /** The heap: the next pair of each provider. */
  ghost predicate Heads(providers: seq<Provider>, runs: seq<seq<Pair>>, pos: seq<nat>, heads: seq<Next>) {
    && |providers| == |runs| == |pos| == |heads|
    && (forall p {:trigger pos[p]} :: 0 <= p < |runs| ==> pos[p] <= |runs[p]|)
    && forall p {:trigger heads[p]} :: 0 <= p < |heads| ==> HeadOf(providers[p], runs[p], pos[p], heads[p])
  }

  ghost predicate HeadOf(p: Provider, run: seq<Pair>, i: nat, head: Next) {
    Provides(p, run) && i <= |run| && head == if i < |run| then Got(run[i], Offset(p, run, i + 1)) else Eof
  }

  /** Of the first n heads the one at t is the least, or there is none and t is the number of all. */
  ghost predicate TopOf(runs: seq<seq<Pair>>, pos: seq<nat>, n: nat, t: nat) {
    && n <= |runs| == |pos|
    && if t == |runs| then forall p {:trigger pos[p]} :: 0 <= p < n ==> pos[p] == |runs[p]|
       else t < n && pos[t] < |runs[t]| && AllLater(runs, pos, n, t)
  }

  ghost predicate AllLater(runs: seq<seq<Pair>>, pos: seq<nat>, n: nat, t: nat)
    requires n <= |runs| == |pos| && t < n && pos[t] < |runs[t]|
  {
    forall p {:trigger pos[p]} :: 0 <= p < n && p != t && pos[p] < |runs[p]| ==>
        Earlier(runs, Src(t, pos[t]), Src(p, pos[p]))
  }

  lemma NewTop(runs: seq<seq<Pair>>, pos: seq<nat>, n: nat, t: nat)
    requires n < |runs| == |pos| && TopOf(runs, pos, n, t) && t < n && pos[n] < |runs[n]|
    requires Earlier(runs, Src(n, pos[n]), Src(t, pos[t]))
    ensures TopOf(runs, pos, n + 1, n)
  {
    forall p | 0 <= p < n + 1 && p != n && pos[p] < |runs[p]| ensures Earlier(runs, Src(n, pos[n]), Src(p, pos[p])) {
      if p != t {
        EarlierTransitive(runs, Src(n, pos[n]), Src(t, pos[t]), Src(p, pos[p]));
      }
    }
  }

  lemma SameTop(runs: seq<seq<Pair>>, pos: seq<nat>, n: nat, t: nat)
    requires n < |runs| == |pos| && TopOf(runs, pos, n, t) && t < n
    requires (pos[n] < |runs[n]| ==> Earlier(runs, Src(t, pos[t]), Src(n, pos[n])))
    ensures TopOf(runs, pos, n + 1, t)
  {
  }

  method Lesser(providers: seq<Provider>, heads: seq<Next>, n: nat, t: nat, ghost runs: seq<seq<Pair>>,
                ghost pos: seq<nat>)
      returns (r: nat)
    requires Heads(providers, runs, pos, heads) && n < |heads| && TopOf(runs, pos, n, t) && t < n && heads[n].Got?
    ensures TopOf(runs, pos, n + 1, r)
  {
    assert HeadOf(providers[n], runs[n], pos[n], heads[n]) && HeadOf(providers[t], runs[t], pos[t], heads[t]);
    EarlierTotal(runs, Src(t, pos[t]), Src(n, pos[n]));
    r := t;
    if Less(heads[n].pair.key, heads[t].pair.key) {
      NewTop(runs, pos, n, t);
      r := n;
    } else {
      SameTop(runs, pos, n, t);
    }
  }

  /** The least head, or their number if there is none. */
  method Top(providers: seq<Provider>, heads: seq<Next>, ghost runs: seq<seq<Pair>>, ghost pos: seq<nat>)
      returns (t: nat)
    requires Heads(providers, runs, pos, heads)
    ensures t == |heads| ==> forall p {:trigger pos[p]} :: 0 <= p < |runs| ==> pos[p] == |runs[p]|
    ensures t != |heads| ==> IsTop(runs, pos, t)
  {
    t := |heads|;
    for i := 0 to |heads|
      invariant TopOf(runs, pos, i, t)
    {
      assert HeadOf(providers[i], runs[i], pos[i], heads[i]);
      if heads[i].Got? && t != |heads| {
        t := Lesser(providers, heads, i, t, runs, pos);
      } else if heads[i].Got? {
        t := i;
      }
    }
  }

  /** The first pair of every provider. */
  method FirstHeads(providers: seq<Provider>, ghost runs: seq<seq<Pair>>)
      returns (heads: seq<Next>, ghost pos: seq<nat>)
    requires |providers| == |runs|
    requires forall p {:trigger Provides(providers[p], runs[p])} :: 0 <= p < |runs| ==> Provides(providers[p], runs[p])
    ensures Heads(providers, runs, pos, heads) && forall p {:trigger pos[p]} :: 0 <= p < |pos| ==> pos[p] == 0
  {
    heads, pos := [], seq(|runs|, _ => 0);
    for i := 0 to |providers|
      invariant |heads| == i && |pos| == |runs| && (forall p {:trigger pos[p]} :: 0 <= p < |pos| ==> pos[p] == 0)
      invariant forall p {:trigger heads[p]} :: 0 <= p < i ==> HeadOf(providers[p], runs[p], pos[p], heads[p])
    {
      assert Provides(providers[i], runs[i]) && Offset(providers[i], runs[i], 0) == 0;
      var head := NextPair(providers[i], 0, runs[i], 0);
      heads := heads + [head];
    }
  }

  ghost function LeftIn(runs: seq<seq<Pair>>, pos: seq<nat>): (r: seq<nat>)
    requires |pos| == |runs| && forall p {:trigger pos[p]} :: 0 <= p < |runs| ==> pos[p] <= |runs[p]|
    ensures |r| == |runs| && forall p {:trigger r[p]} :: 0 <= p < |r| ==> r[p] == |runs[p]| - pos[p]
  {
    seq(|runs|, p requires 0 <= p < |runs| => |runs[p]| - pos[p])
  }

  lemma {:induction false} LeftShrinks(runs: seq<seq<Pair>>, pos: seq<nat>, t: nat)
    requires |pos| == |runs| && (forall p {:trigger pos[p]} :: 0 <= p < |runs| ==> pos[p] <= |runs[p]|) && t < |runs|
    requires pos[t] < |runs[t]|
    ensures Total(LeftIn(runs, pos[t := pos[t] + 1])) < Total(LeftIn(runs, pos))
  {
    assert LeftIn(runs, pos[t := pos[t] + 1]) == LeftIn(runs, pos)[t := |runs[t]| - pos[t] - 1];
    SumUpdated(LeftIn(runs, pos), t, |runs[t]| - pos[t] - 1, |runs|);
  }

  /** mergeSortFiles: every pair of every run once, in the order of the heap. */
  method MergeSortFiles(providers: seq<Provider>, ghost runs: seq<seq<Pair>>)
      returns (out: seq<Pair>, ghost from: seq<Src>)
    requires |providers| == |runs|
    requires forall p {:trigger Provides(providers[p], runs[p])} :: 0 <= p < |runs| ==> Provides(providers[p], runs[p])
    requires forall p {:trigger Sorted(runs[p])} :: 0 <= p < |runs| ==> Sorted(runs[p])
    ensures Delivered(runs, from) && (forall x: Src {:trigger x in from} :: Within(runs, x) ==> x in from)
    ensures |out| == |from| && forall a {:trigger out[a]} :: 0 <= a < |out| ==> out[a] == At(runs, from[a])
  {
    var heads;
    ghost var pos;
    heads, pos := FirstHeads(providers, runs);
    out, from := [], [];
    var t := Top(providers, heads, runs, pos);
    while t != |heads|
      invariant Heads(providers, runs, pos, heads) && Merging(runs, pos, from)
      invariant t == |heads| ==> forall p {:trigger pos[p]} :: 0 <= p < |runs| ==> pos[p] == |runs[p]|
      invariant t != |heads| ==> IsTop(runs, pos, t)
      invariant |out| == |from| && forall a {:trigger out[a]} :: 0 <= a < |out| ==> out[a] == At(runs, from[a])
      decreases Total(LeftIn(runs, pos))
    {
      NextMerging(runs, pos, from, t);
      LeftShrinks(runs, pos, t);
      assert HeadOf(providers[t], runs[t], pos[t], heads[t]);
      out, from := out + [heads[t].pair], from + [Src(t, pos[t])];
      var head := NextPair(providers[t], heads[t].at, runs[t], pos[t] + 1);
      heads, pos := heads[t := head], pos[t := pos[t] + 1];
      t := Top(providers, heads, runs, pos);
    }
  }
}
