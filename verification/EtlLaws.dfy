/** What the merged runs deliver, in terms of what was collected: the stable sort of all pairs,
    the values of each key one after the other, or the first value of each key. */
module EtlLaws {
  import opened ByteKeys
  import opened EtlMerge

  // ---- what was collected, buffer by buffer

  function Flat(chunks: seq<seq<Pair>>, n: nat): seq<Pair>
    requires n <= |chunks|
  {
    if n == 0 then [] else Flat(chunks, n - 1) + chunks[n - 1]
  }

  lemma {:induction false} FlatAt(chunks: seq<seq<Pair>>, p: nat, j: nat, n: nat)
    requires p < n <= |chunks| && j < |chunks[p]|
    ensures |Flat(chunks, p)| + j < |Flat(chunks, p + 1)| <= |Flat(chunks, n)|
    ensures Flat(chunks, n)[|Flat(chunks, p)| + j] == chunks[p][j]
  {
    assert Flat(chunks, n) == Flat(chunks, n - 1) + chunks[n - 1];
    if p < n - 1 {
      FlatAt(chunks, p, j, n - 1);
    }
  }

  lemma {:induction false} FlatGrows(chunks: seq<seq<Pair>>, m: nat, n: nat)
    requires m <= n <= |chunks|
    ensures |Flat(chunks, m)| <= |Flat(chunks, n)|
  {
    if m < n {
      FlatGrows(chunks, m, n - 1);
    }
  }

  lemma {:induction false} Locate(chunks: seq<seq<Pair>>, i: nat, n: nat) returns (p: nat, j: nat)
    requires n <= |chunks| && i < |Flat(chunks, n)|
    ensures p < n && j < |chunks[p]| && i == |Flat(chunks, p)| + j
  {
    if i < |Flat(chunks, n - 1)| {
      p, j := Locate(chunks, i, n - 1);
    } else {
      p, j := n - 1, i - |Flat(chunks, n - 1)|;
    }
  }

  // ---- the plain buffer

  /** Each run is its chunk in stable order. */
  ghost predicate SortedRuns(chunks: seq<seq<Pair>>, runs: seq<seq<Pair>>, orders: seq<seq<nat>>) {
    && |chunks| == |runs| == |orders|
    && forall p {:trigger SortedRun(chunks[p], runs[p], orders[p])} :: 0 <= p < |runs| ==>
        SortedRun(chunks[p], runs[p], orders[p])
  }

  ghost predicate SortedRun(chunk: seq<Pair>, run: seq<Pair>, order: seq<nat>) {
    Ordered(chunk, order, |chunk|) && run == Arranged(chunk, order)
  }

  /** The place of a delivered pair among all that were collected. */
  ghost function Place(chunks: seq<seq<Pair>>, orders: seq<seq<nat>>, x: Src): nat
    requires x.run < |chunks| == |orders| && x.idx < |orders[x.run]|
  {
    |Flat(chunks, x.run)| + orders[x.run][x.idx]
  }

  ghost function Places(chunks: seq<seq<Pair>>, orders: seq<seq<nat>>, from: seq<Src>): (r: seq<nat>)
    requires |chunks| == |orders|
    requires forall a {:trigger from[a]} :: 0 <= a < |from| ==>
        from[a].run < |chunks| && from[a].idx < |orders[from[a].run]|
    ensures |r| == |from| && forall a {:trigger r[a]} :: 0 <= a < |r| ==> r[a] == Place(chunks, orders, from[a])
  {
    seq(|from|, a requires 0 <= a < |from| => Place(chunks, orders, from[a]))
  }

  lemma {:induction false} PlaceIs(chunks: seq<seq<Pair>>, runs: seq<seq<Pair>>, orders: seq<seq<nat>>, x: Src)
    requires SortedRuns(chunks, runs, orders) && Within(runs, x)
    ensures x.idx < |orders[x.run]| && orders[x.run][x.idx] < |chunks[x.run]|
    ensures Place(chunks, orders, x) < |Flat(chunks, |chunks|)|
    ensures Flat(chunks, |chunks|)[Place(chunks, orders, x)] == At(runs, x)
    ensures Place(chunks, orders, x) < |Flat(chunks, x.run + 1)|
  {
    assert SortedRun(chunks[x.run], runs[x.run], orders[x.run]);
    FlatAt(chunks, x.run, orders[x.run][x.idx], |chunks|);
  }

  /** The order of the heap is the stable order of all pairs. */
  lemma {:induction false} EarlierIsBefore(chunks: seq<seq<Pair>>, runs: seq<seq<Pair>>, orders: seq<seq<nat>>, x: Src,
                                           y: Src)
    requires SortedRuns(chunks, runs, orders) && Within(runs, x) && Within(runs, y) && Earlier(runs, x, y)
    ensures x.idx < |orders[x.run]| && y.idx < |orders[y.run]|
    ensures Place(chunks, orders, x) < |Flat(chunks, |chunks|)| && Place(chunks, orders, y) < |Flat(chunks, |chunks|)|
    ensures Before(Flat(chunks, |chunks|), Place(chunks, orders, x), Place(chunks, orders, y))
  {
    PlaceIs(chunks, runs, orders, x);
    PlaceIs(chunks, runs, orders, y);
    if At(runs, x).key == At(runs, y).key {
      LessIrreflexive(At(runs, x).key);
      if x.run < y.run {
        FlatGrows(chunks, x.run + 1, y.run);
      } else {
        assert SortedRun(chunks[x.run], runs[x.run], orders[x.run]);
        var order := orders[x.run];
        assert Before(chunks[x.run], order[x.idx], order[y.idx]);
      }
    }
  }

  lemma {:induction false} EveryPlace(chunks: seq<seq<Pair>>, runs: seq<seq<Pair>>, orders: seq<seq<nat>>, i: nat)
      returns (x: Src)
    requires SortedRuns(chunks, runs, orders) && i < |Flat(chunks, |chunks|)|
    ensures Within(runs, x) && x.idx < |orders[x.run]| && Place(chunks, orders, x) == i
  {
    var p, j := Locate(chunks, i, |chunks|);
    assert SortedRun(chunks[p], runs[p], orders[p]);
    assert j in orders[p];
    var a :| 0 <= a < |orders[p]| && orders[p][a] == j;
    x := Src(p, a);
  }

  /** With the plain buffer the delivered pairs are the stable sort of all that were collected. */
  lemma {:induction false} DeliversStableSort(chunks: seq<seq<Pair>>, runs: seq<seq<Pair>>, orders: seq<seq<nat>>,
                                              from: seq<Src>, out: seq<Pair>)
      returns (order: seq<nat>)
    requires SortedRuns(chunks, runs, orders) && Delivered(runs, from)
    requires (forall x: Src {:trigger x in from} :: Within(runs, x) ==> x in from)
    requires |out| == |from| && forall a {:trigger out[a]} :: 0 <= a < |out| ==> out[a] == At(runs, from[a])
    ensures var all := Flat(chunks, |chunks|); Ordered(all, order, |all|) && out == Arranged(all, order)
  {
    var all := Flat(chunks, |chunks|);
    forall a {:trigger from[a]} | 0 <= a < |from|
      ensures from[a].run < |chunks| && from[a].idx < |orders[from[a].run]| && Place(chunks, orders, from[a]) < |all|
      ensures all[Place(chunks, orders, from[a])] == At(runs, from[a]) {
      PlaceIs(chunks, runs, orders, from[a]);
    }
    order := Places(chunks, orders, from);
    forall a, b {:trigger order[a], order[b]} | 0 <= a < b < |order| ensures Before(all, order[a], order[b]) {
      EarlierIsBefore(chunks, runs, orders, from[a], from[b]);
    }
    forall i: nat | i < |all| ensures i in order {
      var x := EveryPlace(chunks, runs, orders, i);
      assert x in from;
      var a :| 0 <= a < |from| && from[a] == x;
      assert order[a] == i;
    }
    assert forall a :: 0 <= a < |out| ==> out[a] == all[order[a]];
  }

  // ---- the keys

  ghost predicate HasKey(ps: seq<Pair>, k: Key) { exists i :: 0 <= i < |ps| && ps[i].key == k }

  ghost predicate SameKey(a: seq<Pair>, b: seq<Pair>, k: Key) { HasKey(a, k) <==> HasKey(b, k) }

  /** A key is delivered exactly if it was collected. */
  lemma {:induction false} DeliversKeys(chunks: seq<seq<Pair>>, runs: seq<seq<Pair>>, from: seq<Src>, out: seq<Pair>,
                                        k: Key)
    requires |chunks| == |runs| && forall p :: 0 <= p < |runs| ==> SameKey(chunks[p], runs[p], k)
    requires forall x: Src {:trigger x in from} :: Within(runs, x) ==> x in from
    requires |out| == |from| && forall a :: 0 <= a < |from| ==> Within(runs, from[a]) && out[a] == At(runs, from[a])
    ensures SameKey(Flat(chunks, |chunks|), out, k)
  {
    var all := Flat(chunks, |chunks|);
    if HasKey(all, k) {
      var i :| 0 <= i < |all| && all[i].key == k;
      var p, j := Locate(chunks, i, |chunks|);
      FlatAt(chunks, p, j, |chunks|);
      assert SameKey(chunks[p], runs[p], k) && chunks[p][j].key == k;
      var l :| 0 <= l < |runs[p]| && runs[p][l].key == k;
      assert Src(p, l) in from;
      var a :| 0 <= a < |from| && from[a] == Src(p, l);
      assert out[a].key == k;
    }
    if HasKey(out, k) {
      var a :| 0 <= a < |out| && out[a].key == k;
      var p := from[a].run;
      assert runs[p][from[a].idx].key == k;
      assert SameKey(chunks[p], runs[p], k);
      var j :| 0 <= j < |chunks[p]| && chunks[p][j].key == k;
      FlatAt(chunks, p, j, |chunks|);
    }
  }

  // ---- buffers with one entry for a key

  /** Keys that ascend. */
  ghost predicate Strict(ps: seq<Pair>) {
    forall i, j {:trigger Less(ps[i].key, ps[j].key)} :: 0 <= i < j < |ps| ==> Less(ps[i].key, ps[j].key)
  }

  /** The values of a key, one after the other. */
  function Concat(ps: seq<Pair>, n: nat, k: Key): Value
    requires n <= |ps|
  {
    if n == 0 then [] else Concat(ps, n - 1, k) + if ps[n - 1].key == k then ps[n - 1].val else []
  }

  lemma {:induction false} ConcatPrefix(a: seq<Pair>, b: seq<Pair>, n: nat, k: Key)
    requires n <= |a|
    ensures Concat(a + b, n, k) == Concat(a, n, k)
  {
    if n > 0 {
      ConcatPrefix(a, b, n - 1, k);
    }
  }

  lemma {:induction false} ConcatJoined(a: seq<Pair>, b: seq<Pair>, n: nat, k: Key)
    requires n <= |b|
    ensures Concat(a + b, |a| + n, k) == Concat(a, |a|, k) + Concat(b, n, k)
  {
    if n == 0 {
      ConcatPrefix(a, b, |a|, k);
    } else {
      ConcatJoined(a, b, n - 1, k);
      assert (a + b)[|a| + n - 1] == b[n - 1];
    }
  }

  lemma {:induction false} ConcatNone(ps: seq<Pair>, n: nat, k: Key)
    requires n <= |ps| && forall i :: 0 <= i < n ==> ps[i].key != k
    ensures Concat(ps, n, k) == []
  {
    if n > 0 {
      ConcatNone(ps, n - 1, k);
    }
  }

  /** Each run has the keys of its chunk, with their values together. */
  ghost predicate AppendedRuns(chunks: seq<seq<Pair>>, runs: seq<seq<Pair>>) {
    |chunks| == |runs| && forall p {:trigger AppendedRun(chunks[p], runs[p])} :: 0 <= p < |runs| ==>
        AppendedRun(chunks[p], runs[p])
  }

  ghost predicate AppendedRun(chunk: seq<Pair>, run: seq<Pair>) {
    && Strict(run) && (forall i {:trigger run[i]} :: 0 <= i < |run| ==>
        run[i].val == Concat(chunk, |chunk|, run[i].key))
    && forall k {:trigger HasKey(run, k)} :: HasKey(chunk, k) <==> HasKey(run, k)
  }

  /** The values of a key delivered from the first n runs. */
  ghost function From(runs: seq<seq<Pair>>, from: seq<Src>, a: nat, n: nat, k: Key): Value
    requires a <= |from| && AllWithin(runs, from)
  {
    if a == 0 then []
    else From(runs, from, a - 1, n, k) + if Hit(runs, from, a - 1, n, k) then At(runs, from[a - 1]).val else []
  }

  ghost predicate AllWithin(runs: seq<seq<Pair>>, from: seq<Src>) {
    forall b :: 0 <= b < |from| ==> Within(runs, from[b])
  }

  /** Pair b has the key and is from one of the first n runs. */
  ghost predicate Hit(runs: seq<seq<Pair>>, from: seq<Src>, b: nat, n: nat, k: Key)
    requires b < |from| && AllWithin(runs, from)
  {
    from[b].run < n && At(runs, from[b]).key == k
  }

  lemma {:induction false} FromNone(runs: seq<seq<Pair>>, from: seq<Src>, a: nat, b: nat, n: nat, k: Key)
    requires b <= a <= |from| && AllWithin(runs, from)
    requires forall c {:trigger Hit(runs, from, c, n, k)} :: b <= c < a ==> !Hit(runs, from, c, n, k)
    ensures From(runs, from, a, n, k) == From(runs, from, b, n, k)
  {
    if b < a {
      FromNone(runs, from, a - 1, b, n, k);
      assert !Hit(runs, from, a - 1, n, k);
    }
  }

  lemma {:induction false} FromSame(runs: seq<seq<Pair>>, from: seq<Src>, a: nat, n: nat, k: Key)
    requires a <= |from| && AllWithin(runs, from)
    requires forall c {:trigger Hit(runs, from, c, n + 1, k)} :: 0 <= c < a ==>
        Hit(runs, from, c, n + 1, k) == Hit(runs, from, c, n, k)
    ensures From(runs, from, a, n + 1, k) == From(runs, from, a, n, k)
  {
    if a > 0 {
      FromSame(runs, from, a - 1, n, k);
      assert Hit(runs, from, a - 1, n + 1, k) == Hit(runs, from, a - 1, n, k);
    }
  }

  /** The pair of run n with the key, at b, comes behind those of the runs before it. */
  lemma {:induction false} FromOne(runs: seq<seq<Pair>>, from: seq<Src>, b: nat, n: nat, k: Key)
    requires Delivered(runs, from) && AllWithin(runs, from) && b < |from| && from[b].run == n
    requires At(runs, from[b]).key == k
    requires forall c {:trigger Hit(runs, from, c, n + 1, k)} :: 0 <= c < |from| && c != b ==>
        Hit(runs, from, c, n + 1, k) == Hit(runs, from, c, n, k)
    ensures From(runs, from, |from|, n + 1, k) == From(runs, from, |from|, n, k) + At(runs, from[b]).val
  {
    FromSame(runs, from, b, n, k);
    forall c | b < c < |from| ensures !Hit(runs, from, c, n + 1, k) && !Hit(runs, from, c, n, k) {
      assert Earlier(runs, from[b], from[c]);
      LessIrreflexive(k);
      assert Hit(runs, from, c, n + 1, k) == Hit(runs, from, c, n, k);
    }
    FromNone(runs, from, |from|, b + 1, n + 1, k);
    FromNone(runs, from, |from|, b + 1, n, k);
    assert Hit(runs, from, b, n + 1, k) && !Hit(runs, from, b, n, k);
  }

  lemma {:induction false} OneInRun(run: seq<Pair>, i: nat, j: nat)
    requires Strict(run) && i < |run| && j < |run| && run[i].key == run[j].key
    ensures i == j
  {
    LessIrreflexive(run[i].key);
  }

  /** A run adds the values of its chunk. */
  lemma {:induction false} FromRun(chunk: seq<Pair>, runs: seq<seq<Pair>>, from: seq<Src>, n: nat, k: Key)
    requires n < |runs| && AppendedRun(chunk, runs[n]) && Delivered(runs, from) && AllWithin(runs, from)
    requires forall x: Src {:trigger x in from} :: Within(runs, x) ==> x in from
    ensures From(runs, from, |from|, n + 1, k) == From(runs, from, |from|, n, k) + Concat(chunk, |chunk|, k)
  {
    var run := runs[n];
    if HasKey(run, k) {
      var i :| 0 <= i < |run| && run[i].key == k;
      assert Src(n, i) in from;
      var b :| 0 <= b < |from| && from[b] == Src(n, i);
      forall c {:trigger Hit(runs, from, c, n + 1, k)} | 0 <= c < |from| && c != b
        ensures Hit(runs, from, c, n + 1, k) == Hit(runs, from, c, n, k) {
        if from[c].run == n && At(runs, from[c]).key == k {
          OneInRun(run, from[c].idx, i);
          OnceDelivered(runs, from, b, c);
        }
      }
      FromOne(runs, from, b, n, k);
    } else {
      forall c {:trigger Hit(runs, from, c, n + 1, k)} | 0 <= c < |from|
        ensures Hit(runs, from, c, n + 1, k) == Hit(runs, from, c, n, k) {
        assert from[c].run == n ==> run[from[c].idx].key != k;
      }
      FromSame(runs, from, |from|, n, k);
      assert !HasKey(chunk, k);
      ConcatNone(chunk, |chunk|, k);
    }
  }

  lemma {:induction false} FromRuns(chunks: seq<seq<Pair>>, runs: seq<seq<Pair>>, from: seq<Src>, n: nat, k: Key)
    requires AppendedRuns(chunks, runs) && Delivered(runs, from) && AllWithin(runs, from) && n <= |runs|
    requires forall x: Src {:trigger x in from} :: Within(runs, x) ==> x in from
    ensures From(runs, from, |from|, n, k) == Concat(Flat(chunks, n), |Flat(chunks, n)|, k)
  {
    if n == 0 {
      FromNone(runs, from, |from|, 0, 0, k);
    } else {
      FromRuns(chunks, runs, from, n - 1, k);
      assert AppendedRun(chunks[n - 1], runs[n - 1]);
      FromRun(chunks[n - 1], runs, from, n - 1, k);
      ConcatJoined(Flat(chunks, n - 1), chunks[n - 1], |chunks[n - 1]|, k);
    }
  }

  lemma {:induction false} OnceDelivered(runs: seq<seq<Pair>>, from: seq<Src>, b: nat, c: nat)
    requires Delivered(runs, from) && b < |from| && c < |from| && from[b] == from[c]
    ensures b == c
  {
    LessIrreflexive(At(runs, from[b]).key);
    assert b < c ==> Earlier(runs, from[b], from[c]);
    assert c < b ==> Earlier(runs, from[c], from[b]);
  }

  lemma {:induction false} FromIsConcat(runs: seq<seq<Pair>>, from: seq<Src>, out: seq<Pair>, a: nat, k: Key)
    requires |out| == |from| && a <= |from| && AllWithin(runs, from)
    requires forall b :: 0 <= b < |out| ==> out[b] == At(runs, from[b])
    ensures From(runs, from, a, |runs|, k) == Concat(out, a, k)
  {
    if a > 0 {
      FromIsConcat(runs, from, out, a - 1, k);
    }
  }

  /** With the append buffer the values of a key are delivered in the order they were collected. */
  lemma {:induction false} DeliversConcat(chunks: seq<seq<Pair>>, runs: seq<seq<Pair>>, from: seq<Src>, out: seq<Pair>,
                                          k: Key)
    requires AppendedRuns(chunks, runs) && Delivered(runs, from)
    requires (forall x: Src {:trigger x in from} :: Within(runs, x) ==> x in from)
    requires |out| == |from| && forall a {:trigger out[a]} :: 0 <= a < |out| ==> out[a] == At(runs, from[a])
    ensures Concat(out, |out|, k) == Concat(Flat(chunks, |chunks|), |Flat(chunks, |chunks|)|, k)
  {
    FromRuns(chunks, runs, from, |runs|, k);
    FromIsConcat(runs, from, out, |out|, k);
  }

  // ---- the buffer that keeps the oldest values

  /** Place j has the first pair with the key. */
  ghost predicate IsFirst(ps: seq<Pair>, j: nat, k: Key) {
    j < |ps| && ps[j].key == k && forall i :: 0 <= i < j ==> ps[i].key != k
  }

  ghost predicate OldestRuns(chunks: seq<seq<Pair>>, runs: seq<seq<Pair>>) {
    |chunks| == |runs| && forall p {:trigger OldestRun(chunks[p], runs[p])} :: 0 <= p < |runs| ==>
        OldestRun(chunks[p], runs[p])
  }

  ghost predicate OldestRun(chunk: seq<Pair>, run: seq<Pair>) {
    && Strict(run) && (forall i {:trigger run[i]} :: 0 <= i < |run| ==>
        exists j: nat :: IsFirst(chunk, j, run[i].key) && chunk[j].val == run[i].val)
    && forall k {:trigger HasKey(run, k)} :: HasKey(chunk, k) <==> HasKey(run, k)
  }

  /** The first delivered pair of a key has the first value that was collected for it. */
  lemma {:induction false} FirstDelivered(chunks: seq<seq<Pair>>, runs: seq<seq<Pair>>, from: seq<Src>, out: seq<Pair>,
                                          a: nat, k: Key)
      returns (i: nat)
    requires OldestRuns(chunks, runs) && Delivered(runs, from) && AllWithin(runs, from)
    requires (forall x: Src {:trigger x in from} :: Within(runs, x) ==> x in from)
    requires |out| == |from| && (forall b :: 0 <= b < |out| ==> out[b] == At(runs, from[b])) && IsFirst(out, a, k)
    ensures IsFirst(Flat(chunks, |chunks|), i, k) && Flat(chunks, |chunks|)[i].val == out[a].val
  {
    var p := from[a].run;
    assert OldestRun(chunks[p], runs[p]);
    var run := runs[p];
    assert run[from[a].idx] == out[a];
    var j: nat :| IsFirst(chunks[p], j, k) && chunks[p][j].val == out[a].val;
    i := |Flat(chunks, p)| + j;
    FlatAt(chunks, p, j, |chunks|);
    forall m | 0 <= m < i ensures Flat(chunks, |chunks|)[m].key != k {
      var q, l := Locate(chunks, m, |chunks|);
      FlatAt(chunks, q, l, |chunks|);
      if q < p {
        NotBefore(chunks, runs, from, out, a, k, q, l);
      } else if p < q {
        FlatGrows(chunks, p + 1, q);
      }
    }
  }

  lemma {:induction false} NotBefore(chunks: seq<seq<Pair>>, runs: seq<seq<Pair>>, from: seq<Src>, out: seq<Pair>,
                                     a: nat, k: Key, q: nat, l: nat)
    requires OldestRuns(chunks, runs) && Delivered(runs, from) && AllWithin(runs, from)
    requires (forall x: Src {:trigger x in from} :: Within(runs, x) ==> x in from)
    requires |out| == |from| && (forall b :: 0 <= b < |out| ==> out[b] == At(runs, from[b])) && IsFirst(out, a, k)
    requires q < from[a].run && l < |chunks[q]|
    ensures chunks[q][l].key != k
  {
    assert OldestRun(chunks[q], runs[q]);
    if chunks[q][l].key == k {
      assert HasKey(chunks[q], k);
      assert HasKey(runs[q], k);
      var i :| 0 <= i < |runs[q]| && runs[q][i].key == k;
      DeliveredBefore(runs, from, out, a, k, q, i);
      assert false;
    }
  }

  /** Of the pairs with a key, those of earlier runs are delivered before. */
  lemma {:induction false} DeliveredBefore(runs: seq<seq<Pair>>, from: seq<Src>, out: seq<Pair>, a: nat, k: Key, q: nat,
                                           i: nat)
    requires Delivered(runs, from) && AllWithin(runs, from)
    requires (forall x: Src {:trigger x in from} :: Within(runs, x) ==> x in from)
    requires |out| == |from| && (forall b :: 0 <= b < |out| ==> out[b] == At(runs, from[b])) && a < |out|
    requires out[a].key == k
    requires q < from[a].run && i < |runs[q]| && runs[q][i].key == k
    ensures exists b :: 0 <= b < a && out[b].key == k
  {
    LessIrreflexive(k);
    assert Src(q, i) in from;
    var b :| 0 <= b < |from| && from[b] == Src(q, i);
    assert a < b ==> Earlier(runs, from[a], from[b]);
    assert out[b].key == k;
  }

  // ---- the loader that skips repeated keys

  /** The first pair of every key that is not empty. */
  ghost predicate Firsts(out: seq<Pair>, n: nat, stored: seq<Pair>) {
    && n <= |out| && Strict(stored)
    && (forall s {:trigger stored[s]} :: 0 <= s < |stored| ==>
          stored[s].key != [] && exists a :: 0 <= a < n && IsFirst(out, a, stored[s].key) && out[a] == stored[s])
    && forall a {:trigger out[a]} :: 0 <= a < n && out[a].key != [] ==> HasKey(stored, out[a].key)
  }

  /** loadNextFunc with the oldest-value buffer: the previous key starts out as nil, which is
      also the empty key. */
  method SkipRepeated(out: seq<Pair>) returns (stored: seq<Pair>)
    requires Sorted(out)
    ensures Firsts(out, |out|, stored)
  {
    stored := [];
    var prevK: Key := [];
    for n := 0 to |out|
      invariant Firsts(out, n, stored) && prevK == (if stored == [] then [] else stored[|stored| - 1].key)
      invariant forall a {:trigger out[a]} :: 0 <= a < n ==> !Less(prevK, out[a].key)
    {
      NextFirst(out, n, stored, prevK);
      if prevK != out[n].key {
        prevK := out[n].key;
        stored := stored + [out[n]];
      }
    }
  }

  lemma {:induction false} NextFirst(out: seq<Pair>, n: nat, stored: seq<Pair>, prevK: Key)
    requires Sorted(out) && n < |out| && Firsts(out, n, stored)
    requires prevK == if stored == [] then [] else stored[|stored| - 1].key
    requires forall a {:trigger out[a]} :: 0 <= a < n ==> !Less(prevK, out[a].key)
    ensures var k := out[n].key;
      if prevK == k then Firsts(out, n + 1, stored)
      else
        Firsts(out, n + 1, stored + [out[n]]) && (forall a {:trigger out[a]} :: 0 <= a < n + 1 ==> !Less(k, out[a].key))
    ensures prevK == out[n].key ==> forall a {:trigger out[a]} :: 0 <= a < n + 1 ==> !Less(prevK, out[a].key)
  {
    var k := out[n].key;
    LessIrreflexive(k);
    if prevK != k {
      PrevLess(out, n, stored, prevK);
      forall a | 0 <= a < n ensures out[a].key != k && !Less(k, out[a].key) {
        LessAsymmetric(prevK, k);
        if Less(k, out[a].key) {
          LessTransitive(prevK, k, out[a].key);
        }
      }
      NewFirst(out, n, stored, prevK);
    } else if k != [] {
      assert stored[|stored| - 1].key == k;
      assert HasKey(stored, k);
    }
  }

  lemma {:induction false} NewFirst(out: seq<Pair>, n: nat, stored: seq<Pair>, prevK: Key)
    requires n < |out| && Firsts(out, n, stored) && prevK == (if stored == [] then [] else stored[|stored| - 1].key)
    requires Less(prevK, out[n].key)
    requires out[n].key != [] && IsFirst(out, n, out[n].key)
    ensures Firsts(out, n + 1, stored + [out[n]])
  {
    var k, more := out[n].key, stored + [out[n]];
    forall s, u {:trigger Less(more[s].key, more[u].key)} | 0 <= s < u < |more| ensures Less(more[s].key, more[u].key) {
      if u < |stored| {
        assert Less(stored[s].key, stored[u].key);
      } else if s < |stored| - 1 {
        assert Less(stored[s].key, stored[|stored| - 1].key);
        LessTransitive(stored[s].key, prevK, k);
      }
    }
    forall a {:trigger out[a]} | 0 <= a < n + 1 && out[a].key != [] ensures HasKey(more, out[a].key) {
      StillHas(stored, out[n], out[a].key);
    }
    forall s {:trigger more[s]} | 0 <= s < |more|
      ensures more[s].key != [] && exists a :: 0 <= a < n + 1 && IsFirst(out, a, more[s].key) && out[a] == more[s] {
      if s < |stored| {
        assert more[s] == stored[s];
      }
    }
  }

  lemma StillHas(stored: seq<Pair>, x: Pair, k: Key)
    ensures HasKey(stored + [x], k) <==> HasKey(stored, k) || x.key == k
  {
    if HasKey(stored, k) {
      var i :| 0 <= i < |stored| && stored[i].key == k;
      assert (stored + [x])[i].key == k;
    }
    assert (stored + [x])[|stored|] == x;
  }

  lemma {:induction false} PrevLess(out: seq<Pair>, n: nat, stored: seq<Pair>, prevK: Key)
    requires Sorted(out) && n < |out| && Firsts(out, n, stored)
    requires prevK == (if stored == [] then [] else stored[|stored| - 1].key) && prevK != out[n].key
    ensures Less(prevK, out[n].key) && out[n].key != []
  {
    LessTotal(prevK, out[n].key);
    if stored != [] {
      var s := |stored| - 1;
      var a :| 0 <= a < n && IsFirst(out, a, stored[s].key) && out[a] == stored[s];
      assert out[a].key == prevK && !Less(out[n].key, out[a].key);
    }
  }

  /** With the oldest-value buffer every key that is not empty is stored once, with the first
      value that was collected for it; the empty key never is. */
  lemma {:induction false} StoresFirsts(chunks: seq<seq<Pair>>, runs: seq<seq<Pair>>, from: seq<Src>, out: seq<Pair>,
                                        stored: seq<Pair>, k: Key)
    requires OldestRuns(chunks, runs) && Delivered(runs, from) && AllWithin(runs, from)
    requires (forall x: Src {:trigger x in from} :: Within(runs, x) ==> x in from)
    requires |out| == |from| && (forall b :: 0 <= b < |out| ==> out[b] == At(runs, from[b]))
    requires Firsts(out, |out|, stored)
    ensures var all := Flat(chunks, |chunks|);
      && (HasKey(stored, k) <==> k != [] && HasKey(all, k))
      && forall s, i: nat :: 0 <= s < |stored| && stored[s].key == k && IsFirst(all, i, k) ==>
          stored[s].val == all[i].val
  {
    var all := Flat(chunks, |chunks|);
    forall s, i: nat | 0 <= s < |stored| && stored[s].key == k && IsFirst(all, i, k)
      ensures stored[s].val == all[i].val {
      var i' := StoredFirst(chunks, runs, from, out, stored, s);
      assert i == i';
    }
    if HasKey(stored, k) {
      var s :| 0 <= s < |stored| && stored[s].key == k;
      var i := StoredFirst(chunks, runs, from, out, stored, s);
      assert all[i].key == k;
    }
    if k != [] && HasKey(all, k) {
      forall p | 0 <= p < |runs| ensures SameKey(chunks[p], runs[p], k) {
        assert OldestRun(chunks[p], runs[p]);
      }
      DeliversKeys(chunks, runs, from, out, k);
    }
  }

  lemma {:induction false} StoredFirst(chunks: seq<seq<Pair>>, runs: seq<seq<Pair>>, from: seq<Src>, out: seq<Pair>,
                                       stored: seq<Pair>, s: nat)
      returns (i: nat)
    requires OldestRuns(chunks, runs) && Delivered(runs, from) && AllWithin(runs, from)
    requires (forall x: Src {:trigger x in from} :: Within(runs, x) ==> x in from)
    requires |out| == |from| && (forall b :: 0 <= b < |out| ==> out[b] == At(runs, from[b]))
    requires Firsts(out, |out|, stored) && s < |stored|
    ensures stored[s].key != [] && IsFirst(Flat(chunks, |chunks|), i, stored[s].key)
    ensures Flat(chunks, |chunks|)[i].val == stored[s].val
  {
    var a :| 0 <= a < |out| && IsFirst(out, a, stored[s].key) && out[a] == stored[s];
    i := FirstDelivered(chunks, runs, from, out, a, stored[s].key);
  }
}
