/** The bucket loop of RecSplit.Build: the collected keys arrive sorted by bucket and
    fingerprint, every full bucket is written, and two accumulators remember how many
    keys and how many bits came before each bucket. */
module RecSplitBuckets {
  import opened Options
  import opened Words
  import opened SplitTree
  import opened SplitCode
  import opened GolombTable
  import opened RecSplitBuild
  import opened RecSplitTree
  import GolombRice

  /** A collected key: its bucket, and its fingerprint with the offset. */
  datatype Item = Item(bucket: nat, e: Entry)

  /** The order in which the collector delivers: by bucket, then by fingerprint. */
  ghost predicate Sorted(items: seq<Item>) {
    forall i, j :: 0 <= i < j < |items| ==>
      items[i].bucket < items[j].bucket || (items[i].bucket == items[j].bucket && items[i].e.fp <= items[j].e.fp)
  }

  /** The entries of bucket b among the first n items. */
  ghost function InBucket(items: seq<Item>, b: nat, n: nat): (r: seq<Entry>)
    requires n <= |items|
    ensures |r| <= n
  {
    if n == 0 then []
    else InBucket(items, b, n - 1) + if items[n - 1].bucket == b then [items[n - 1].e] else []
  }

  ghost function Bucket(items: seq<Item>, b: nat): seq<Entry> { InBucket(items, b, |items|) }

  ghost predicate Distinct(es: seq<Entry>) { forall i, j :: 0 <= i < j < |es| ==> es[i].fp != es[j].fp }

  lemma {:induction false} NotYet(items: seq<Item>, b: nat, n: nat)
    requires n <= |items| && forall i :: 0 <= i < n ==> items[i].bucket != b
    ensures InBucket(items, b, n) == []
  {
    if n > 0 {
      NotYet(items, b, n - 1);
    }
  }

  /** A bucket is complete when no later item belongs to it. */
  lemma {:induction false} Complete(items: seq<Item>, b: nat, n: nat, k: nat)
    requires n <= k <= |items| && forall i :: n <= i < k ==> items[i].bucket != b
    ensures InBucket(items, b, k) == InBucket(items, b, n)
  {
    if n < k {
      Complete(items, b, n, k - 1);
    }
  }

  /** A bucket's fingerprints arrive in ascending order. */
  lemma {:induction false} BucketSorted(items: seq<Item>, b: nat, n: nat)
    requires Sorted(items) && n <= |items|
    ensures forall i, j :: 0 <= i < j < |InBucket(items, b, n)| ==>
        InBucket(items, b, n)[i].fp <= InBucket(items, b, n)[j].fp
    ensures forall i, k :: 0 <= i < |InBucket(items, b, n)| && n <= k < |items| && items[k].bucket == b ==>
      InBucket(items, b, n)[i].fp <= items[k].e.fp
  {
    if n > 0 {
      BucketSorted(items, b, n - 1);
    }
  }

  // ---- what has been written

  /** The bit string, the records, and the two accumulators. */
  datatype Built = Built(bits: seq<bool>, recs: seq<nat>, sizes: seq<nat>, pos: seq<nat>)

  ghost predicate CodeAt(data: seq<bool>, c: Code, f: nat, u: nat) {
    Here(data, f, c.fixed) && Here(data, u, GolombRice.UnaryAll(c.unary))
  }

  /** Bucket b is written: its records start at sizes[b], its low parts at pos[b] and
      its high parts behind them. */
  ghost predicate BucketDone(p: Params, o: Built, b: nat, es: seq<Entry>)
    requires ValidParams(p)
  {
    && b + 1 < |o.sizes| && b < |o.pos| && o.sizes[b + 1] == o.sizes[b] + |es|
    && (es != [] ==>
          && SolvablePart(p, 0, es) && PlacedPart(p, 0, es, o.recs, o.sizes[b])
          && CodeAt(o.bits, PartCode(p, 0, es), o.pos[b], o.pos[b] + FixedBits(p, |es|)))
  }

  /** The buckets before bucket n are written, and nothing else. */
  ghost predicate AllDone(p: Params, o: Built, items: seq<Item>, n: nat)
    requires ValidParams(p)
  {
    && |o.sizes| == |o.pos| == n + 1 && o.sizes[n] == |o.recs| && o.pos[n] == |o.bits|
    && forall b :: 0 <= b < n ==> BucketDone(p, o, b, Bucket(items, b))
  }

  /** Writing more leaves a written bucket as it is. */
  lemma DoneGrows(p: Params, o: Built, o': Built, b: nat, es: seq<Entry>)
    requires ValidParams(p) && BucketDone(p, o, b, es)
    requires o.bits <= o'.bits && o.recs <= o'.recs && o.sizes <= o'.sizes && o.pos <= o'.pos
    ensures BucketDone(p, o', b, es)
  {
    if |es| > 1 {
      PlacedGrows(p, 0, es, o.recs, o'.recs, o.sizes[b]);
    }
  }

  /** The accumulators after bucket idx: copies of the last value for the empty buckets
      before it, then the new value. */
  ghost predicate Extended(acc: seq<nat>, acc': seq<nat>, idx: nat, last: nat) {
    && 0 < |acc| <= idx + 1 && |acc'| == idx + 2 && acc <= acc' && acc'[idx + 1] == last
    && forall b :: |acc| <= b <= idx ==> acc'[b] == acc[|acc| - 1]
  }

  /** Bucket idx has been written after the empty buckets before it. */
  lemma BucketAdded(p: Params, o: Built, o': Built, items: seq<Item>, n: nat, idx: nat)
    requires ValidParams(p) && AllDone(p, o, items, n) && n <= idx
    requires forall b :: n <= b < idx ==> Bucket(items, b) == []
    requires o.bits <= o'.bits && o.recs <= o'.recs
    requires Extended(o.sizes, o'.sizes, idx, |o'.recs|) && Extended(o.pos, o'.pos, idx, |o'.bits|)
    requires BucketDone(p, o', idx, Bucket(items, idx))
    ensures AllDone(p, o', items, idx + 1)
  {
    forall b | 0 <= b < idx + 1 ensures BucketDone(p, o', b, Bucket(items, b)) {
      if b < n {
        DoneGrows(p, o, o', b, Bucket(items, b));
      } else if b < idx {
        assert o'.sizes[b + 1] == o'.sizes[b];
      }
    }
  }

  /** The bits of a bucket's tree: low parts, then high parts. */
  lemma CodeWritten(p: Params, es: seq<Entry>, bits: seq<bool>, bits': seq<bool>)
    requires ValidParams(p) && Solvable(p, 0, es) && |es| > 1
    requires var c := Encode(p, 0, es); bits' == bits + c.fixed + GolombRice.UnaryAll(c.unary)
    ensures CodeAt(bits', Encode(p, 0, es), |bits|, |bits| + FixedBits(p, |es|))
  {
    CodeSize(p, 0, es);
  }

  // ---- the accumulators

  method Extend(acc: seq<nat>, idx: nat) returns (r: seq<nat>)
    requires 0 < |acc| <= idx + 1
    ensures |r| == idx + 2 && acc <= r && forall b :: |acc| <= b < |r| ==> r[b] == acc[|acc| - 1]
  {
    r := acc;
    while |r| <= idx + 1
      invariant |acc| <= |r| <= idx + 2 && acc <= r
      invariant forall b :: |acc| - 1 <= b < |r| ==> r[b] == acc[|acc| - 1]
    {
      r := r + [r[|r| - 1]];
    }
  }

  /** The search for equal neighbours. */
  method HasCollision(keys: seq<nat>, ghost es: seq<Entry>, ghost offs: seq<nat>) returns (collision: bool)
    requires Holds(es, keys, offs) && |keys| > 1 && forall i, j :: 0 <= i < j < |es| ==> es[i].fp <= es[j].fp
    ensures collision <==> !Distinct(es)
  {
    for i := 1 to |keys|
      invariant forall j :: 0 < j < i ==> es[j - 1].fp != es[j].fp
    {
      if keys[i] == keys[i - 1] {
        assert es[i - 1].fp == es[i].fp;
        return true;
      }
    }
    forall i, j | 0 <= i < j < |es| ensures es[i].fp != es[j].fp {
      assert es[j - 1].fp != es[j].fp;
    }
    collision := false;
  }

  /** What a bucket adds to the output: its code and its records. */
  ghost predicate BucketWritten(p: Params, es: seq<Entry>, bits: seq<bool>, recs: seq<nat>, bits': seq<bool>,
                                recs': seq<nat>)
    requires ValidParams(p)
  {
    && bits <= bits' && recs <= recs' && |recs'| == |recs| + |es|
    && (es != [] ==>
          && SolvablePart(p, 0, es) && PlacedPart(p, 0, es, recs', |recs|)
          && CodeAt(bits', PartCode(p, 0, es), |bits|, |bits| + FixedBits(p, |es|)))
  }

  lemma {:induction false} TreeIsBucket(p: Params, es: seq<Entry>, a: Out, b: Out, bits': seq<bool>)
    requires ValidParams(p) && Solvable(p, 0, es) && |es| > 1 && a.unary == [] && TreeWritten(p, 0, es, a, b)
    requires bits' == b.fixed + GolombRice.UnaryAll(b.unary)
    ensures BucketWritten(p, es, a.fixed, a.recs, bits', b.recs)
  {
    BitsWritten(a, b, Encode(p, 0, es), |es|);
    CodeIsBucket(p, es, a.fixed, a.recs, bits', b.recs);
  }

  lemma {:induction false} CodeIsBucket(p: Params, es: seq<Entry>, bits: seq<bool>, recs: seq<nat>, bits': seq<bool>,
                                        recs': seq<nat>)
    requires ValidParams(p) && Solvable(p, 0, es) && |es| > 1 && recs <= recs' && |recs'| == |recs| + |es|
    requires Placed(p, 0, es, recs', |recs|)
    requires var c := Encode(p, 0, es); bits' == bits + c.fixed + GolombRice.UnaryAll(c.unary)
    ensures BucketWritten(p, es, bits, recs, bits', recs')
  {
    PartIsTree(p, es, recs', |recs|);
    CodeWritten(p, es, bits, bits');
  }

  lemma BitsWritten(a: Out, b: Out, c: Code, n: nat)
    requires Wrote(a, b, c, n) && a.unary == []
    ensures b.fixed + GolombRice.UnaryAll(b.unary) == a.fixed + c.fixed + GolombRice.UnaryAll(c.unary)
  {
    assert b.unary == c.unary;
  }

  /** A bucket of more than one key is split. */
  lemma {:induction false} PartIsTree(p: Params, es: seq<Entry>, recs: seq<nat>, base: nat)
    requires ValidParams(p) && Solvable(p, 0, es) && |es| > 1
    ensures SolvablePart(p, 0, es) && PartCode(p, 0, es) == Encode(p, 0, es)
    ensures PlacedPart(p, 0, es, recs, base) == Placed(p, 0, es, recs, base)
  {
  }

  lemma {:induction false} SmallBucket(p: Params, es: seq<Entry>, bits: seq<bool>, recs: seq<nat>, recs': seq<nat>)
    requires ValidParams(p) && |es| <= 1 && recs' == recs + if es == [] then [] else [es[0].off]
    ensures BucketWritten(p, es, bits, recs, bits, recs')
  {
    assert BijMemo(1) == 0;
  }

  /** The keys of one bucket, as long as they are distinct, can be split. */
  ghost predicate CanSplit(p: Params, maxSize: nat, es: seq<Entry>)
    requires ValidParams(p)
  {
    |es| <= maxSize && (|es| > 1 && Distinct(es) ==> Solvable(p, 0, es))
  }

  /** Two of the items have the same bucket and the same fingerprint. */
  ghost predicate Collides(items: seq<Item>) { exists b: nat :: !Distinct(Bucket(items, b)) }

  /** Some bucket has two keys or more. */
  ghost predicate Shared(items: seq<Item>) { exists b: nat :: |Bucket(items, b)| > 1 }

  /** The buckets before bucket k are written, distinct and within the table. */
  ghost predicate Finished(p: Params, o: Built, entries: nat, items: seq<Item>, k: nat)
    requires ValidParams(p)
  {
    && AllDone(p, o, items, k)
    && (forall b :: 0 <= b < k ==> Distinct(Bucket(items, b)) && (|Bucket(items, b)| > 1 ==>
        |Bucket(items, b)| < entries))
    && (entries > 0 ==> Shared(items))
  }

  /** After n items: the open bucket holds its items so far, and the buckets between
      the last written one and the open one are empty. */
  ghost predicate Open(cur: Option<nat>, keys: seq<nat>, offs: seq<nat>, items: seq<Item>, n: nat, k: nat) {
    match cur
    case None => n == 0 && k == 0 && keys == offs == []
    case Some(c) =>
      && 0 < n <= |items| && k <= c && items[n - 1].bucket == c && Holds(InBucket(items, c, n), keys, offs)
      && forall b :: k <= b < c ==> Bucket(items, b) == []
  }

  /** The open bucket is complete when the next item belongs to another, and that one
      is still empty. */
  lemma BucketCloses(items: seq<Item>, n: nat, c: nat, next: nat)
    requires Sorted(items) && 0 < n <= |items| && items[n - 1].bucket == c
    requires if n < |items| then next == items[n].bucket != c else c < next
    ensures c < next && Bucket(items, c) == InBucket(items, c, n) && InBucket(items, next, n) == []
    ensures forall b :: c < b < next ==> Bucket(items, b) == []
  {
    Complete(items, c, n, |items|);
    NotYet(items, next, n);
    forall b | c < b < next ensures Bucket(items, b) == [] {
      NotYet(items, b, |items|);
    }
  }

  lemma FirstBucket(items: seq<Item>)
    requires Sorted(items) && items != []
    ensures forall b :: 0 <= b < items[0].bucket ==> Bucket(items, b) == []
  {
    forall b | 0 <= b < items[0].bucket ensures Bucket(items, b) == [] {
      NotYet(items, b, |items|);
    }
  }

  /** After the last item: an empty open bucket means no items, otherwise no bucket comes after it. */
  lemma NoneOpen(cur: Option<nat>, keys: seq<nat>, offs: seq<nat>, items: seq<Item>, k: nat)
    requires Sorted(items) && Open(cur, keys, offs, items, |items|, k)
    ensures keys == [] ==> items == []
    ensures keys != [] ==> cur.Some? && forall i :: 0 <= i < |items| ==> items[i].bucket < cur.value + 1
  {
  }

  lemma OpenNext(keys: seq<nat>, offs: seq<nat>, items: seq<Item>, n: nat)
    requires n < |items| && Holds(InBucket(items, items[n].bucket, n), keys, offs)
    ensures Holds(InBucket(items, items[n].bucket, n + 1), keys + [items[n].e.fp], offs + [items[n].e.off])
  {
  }

  lemma BucketFinished(p: Params, o: Built, o': Built, entries: nat, entries': nat, items: seq<Item>, k: nat, idx: nat)
    requires ValidParams(p) && Finished(p, o, entries, items, k) && AllDone(p, o', items, idx + 1) && k <= idx
    requires entries <= entries'
    requires Distinct(Bucket(items, idx)) && forall b :: k <= b < idx ==> Bucket(items, b) == []
    requires if |Bucket(items, idx)| > 1 then |Bucket(items, idx)| < entries' else entries' == entries
    ensures Finished(p, o', entries', items, idx + 1)
  {
  }

  class Buckets {
    const tree: Builder
    var bucketSizeAcc: seq<nat>
    var bucketPosAcc: seq<nat>
    var currentBucketIdx: Option<nat>
    var currentBucket: seq<nat>
    var currentBucketOffs: seq<nat>

    ghost predicate Valid()
      reads this, tree, tree.gr
    {
      tree.Valid()
    }

    ghost function State(): Built
      reads this, tree, tree.gr
      requires Valid()
    {
      Built(tree.gr.Contents(), tree.index, bucketSizeAcc, bucketPosAcc)
    }

    constructor (p: Params, ghost maxSize: nat)
      requires ValidParams(p) && FitsUpTo(p, maxSize) && maxSize < 0xFFFF
      ensures Valid() && tree.p == p && tree.maxSize == maxSize && tree.table == []
      ensures State() == Built([], [], [0], [0])
      ensures currentBucketIdx == None && currentBucket == [] && currentBucketOffs == []
      ensures fresh(tree) && fresh(tree.gr) && fresh(tree.count) && fresh(tree.buffer) && fresh(tree.offsetBuffer)
    {
      tree := new Builder(p, maxSize);
      bucketSizeAcc, bucketPosAcc := [0], [0];
      currentBucketIdx, currentBucket, currentBucketOffs := None, [], [];
    }

    /** The tree of a bucket with at least two keys. */
    method WriteTree(keys: seq<nat>, offs: seq<nat>, ghost es: seq<Entry>)
      requires Valid() && Holds(es, keys, offs) && 1 < |es| <= tree.maxSize && Solvable(tree.p, 0, es)
      modifies tree, tree.gr, tree.count, tree.buffer, tree.offsetBuffer
      ensures Valid() && old(tree.table) <= tree.table && |es| < |tree.table|
      ensures tree.buffer == old(tree.buffer) || fresh(tree.buffer)
      ensures tree.offsetBuffer == old(tree.offsetBuffer) || fresh(tree.offsetBuffer)
      ensures BucketWritten(tree.p, es, old(tree.gr.Contents()), old(tree.index), tree.gr.Contents(), tree.index)
    {
      ghost var a := tree.Written([]);
      var bucket := new nat[|keys|](i requires 0 <= i < |keys| => keys[i]);
      var offsets := new nat[|offs|](i requires 0 <= i < |offs| => offs[i]);
      if tree.buffer.Length < |keys| {
        tree.buffer := new nat[|keys|](i => 0);
        tree.offsetBuffer := new nat[|keys|](i => 0);
      }
      var unary := tree.Recsplit(0, bucket, offsets, 0, |keys|, [], es);
      ghost var b := tree.Written(unary);
      tree.gr.AppendUnaryAll(unary);
      TreeIsBucket(tree.p, es, a, b, tree.gr.Contents());
    }

    /** Write the collected bucket, unless two of its fingerprints collide. */
    method RecsplitCurrentBucket(ghost items: seq<Item>, ghost k: nat, idx: nat) returns (collision: bool)
      requires Valid() && currentBucketIdx == Some(idx) && k <= idx && AllDone(tree.p, State(), items, k)
      requires Sorted(items) && Holds(Bucket(items, idx), currentBucket, currentBucketOffs)
      requires CanSplit(tree.p, tree.maxSize, Bucket(items, idx)) && forall b :: k <= b < idx ==> Bucket(items, b) == []
      modifies this, tree, tree.gr, tree.count, tree.buffer, tree.offsetBuffer
      ensures tree.buffer == old(tree.buffer) || fresh(tree.buffer)
      ensures tree.offsetBuffer == old(tree.offsetBuffer) || fresh(tree.offsetBuffer)
      ensures Valid() && old(tree.table) <= tree.table && (collision <==> !Distinct(Bucket(items, idx)))
      ensures !collision ==>
        && AllDone(tree.p, State(), items, idx + 1) && currentBucket == currentBucketOffs == []
        && (|Bucket(items, idx)| > 1 ==> |Bucket(items, idx)| < |tree.table|)
        && (|Bucket(items, idx)| <= 1 ==> tree.table == old(tree.table))
    {
      ghost var es, o := Bucket(items, idx), State();
      BucketSorted(items, idx, |items|);
      var sizes := Extend(bucketSizeAcc, idx);
      bucketSizeAcc := sizes[idx + 1 := sizes[idx + 1] + |currentBucket|];
      collision := WriteBucket(currentBucket, currentBucketOffs, es);
      if collision {
        return;
      }
      RecordPos(items, k, idx, o);
      currentBucket, currentBucketOffs := [], [];
    }

    /** The bucket that has been written gets its position. */
    method RecordPos(ghost items: seq<Item>, ghost k: nat, idx: nat, ghost o: Built)
      requires Valid() && k <= idx && AllDone(tree.p, o, items, k) && forall b :: k <= b < idx ==>
          Bucket(items, b) == []
      requires BucketWritten(tree.p, Bucket(items, idx), o.bits, o.recs, tree.gr.Contents(), tree.index)
      requires o.pos == bucketPosAcc && Extended(o.sizes, bucketSizeAcc, idx, |tree.index|)
      modifies this`bucketPosAcc
      ensures Valid() && AllDone(tree.p, State(), items, idx + 1)
    {
      var pos := Extend(bucketPosAcc, idx);
      bucketPosAcc := pos[idx + 1 := tree.gr.bitCount];
      BucketStored(tree.p, o, State(), items, k, idx);
    }

    /** Sets of one key are not split: their offsets are the records. */
    method WriteBucket(keys: seq<nat>, offs: seq<nat>, ghost es: seq<Entry>) returns (collision: bool)
      requires Valid() && Holds(es, keys, offs) && CanSplit(tree.p, tree.maxSize, es)
      requires forall i, j :: 0 <= i < j < |es| ==> es[i].fp <= es[j].fp
      modifies tree, tree.gr, tree.count, tree.buffer, tree.offsetBuffer
      ensures tree.buffer == old(tree.buffer) || fresh(tree.buffer)
      ensures tree.offsetBuffer == old(tree.offsetBuffer) || fresh(tree.offsetBuffer)
      ensures Valid() && old(tree.table) <= tree.table && (collision <==> !Distinct(es))
      ensures !collision && |es| > 1 ==> |es| < |tree.table|
      ensures |es| <= 1 ==> tree.table == old(tree.table)
      ensures !collision ==> BucketWritten(tree.p, es, old(tree.gr.Contents()), old(tree.index), tree.gr.Contents(),
          tree.index)
    {
      collision := false;
      if |keys| > 1 {
        collision := HasCollision(keys, es, offs);
        if !collision {
          WriteTree(keys, offs, es);
        }
      } else {
        SmallBucket(tree.p, es, tree.gr.Contents(), tree.index, tree.index + offs);
        tree.index := tree.index + offs;
      }
    }

    /** The next item: a change of bucket closes the open one. */
    method LoadFuncBucket(ghost items: seq<Item>, ghost n: nat, ghost k: nat, item: Item)
        returns (collision: bool, ghost k': nat)
      requires Valid() && Sorted(items) && n < |items| && item == items[n]
      requires Finished(tree.p, State(), |tree.table|, items, k)
      requires Open(currentBucketIdx, currentBucket, currentBucketOffs, items, n, k)
      requires forall b :: CanSplit(tree.p, tree.maxSize, Bucket(items, b))
      modifies this, tree, tree.gr, tree.count, tree.buffer, tree.offsetBuffer
      ensures tree.buffer == old(tree.buffer) || fresh(tree.buffer)
      ensures tree.offsetBuffer == old(tree.offsetBuffer) || fresh(tree.offsetBuffer)
      ensures Valid() && (collision ==> Collides(items))
      ensures !collision ==>
        && Finished(tree.p, State(), |tree.table|, items, k')
        && Open(currentBucketIdx, currentBucket, currentBucketOffs, items, n + 1, k')
    {
      collision, k' := false, k;
      if currentBucketIdx != Some(item.bucket) {
        if currentBucketIdx.Some? {
          BucketCloses(items, n, currentBucketIdx.value, item.bucket);
          collision, k' := CloseBucket(items, k, currentBucketIdx.value);
          if collision {
            return;
          }
        } else {
          FirstBucket(items);
        }
        currentBucketIdx := Some(item.bucket);
      }
      OpenNext(currentBucket, currentBucketOffs, items, n);
      currentBucket := currentBucket + [item.e.fp];
      currentBucketOffs := currentBucketOffs + [item.e.off];
    }

    method CloseBucket(ghost items: seq<Item>, ghost k: nat, idx: nat) returns (collision: bool, ghost k': nat)
      requires Valid() && Sorted(items) && currentBucketIdx == Some(idx) && k <= idx
      requires Finished(tree.p, State(), |tree.table|, items, k) && forall b :: k <= b < idx ==> Bucket(items, b) == []
      requires Holds(Bucket(items, idx), currentBucket, currentBucketOffs)
      requires CanSplit(tree.p, tree.maxSize, Bucket(items, idx))
      modifies this, tree, tree.gr, tree.count, tree.buffer, tree.offsetBuffer
      ensures tree.buffer == old(tree.buffer) || fresh(tree.buffer)
      ensures tree.offsetBuffer == old(tree.offsetBuffer) || fresh(tree.offsetBuffer)
      ensures Valid() && (collision ==> Collides(items)) && k' == idx + 1
      ensures !collision ==>
          Finished(tree.p, State(), |tree.table|, items, k') && currentBucket == currentBucketOffs == []
    {
      k' := idx + 1;
      ghost var o, entries := State(), |tree.table|;
      collision := RecsplitCurrentBucket(items, k, idx);
      if collision {
        assert !Distinct(Bucket(items, idx));
      } else {
        BucketFinished(tree.p, o, State(), entries, |tree.table|, items, k, idx);
      }
    }

    /** All items: every bucket is written, or a collision is reported. */
    method Load(items: seq<Item>) returns (collision: bool, ghost k: nat)
      requires Valid() && Sorted(items) && State() == Built([], [], [0], [0]) && tree.table == []
      requires currentBucketIdx == None && currentBucket == currentBucketOffs == []
      requires forall b :: CanSplit(tree.p, tree.maxSize, Bucket(items, b))
      modifies this, tree, tree.gr, tree.count, tree.buffer, tree.offsetBuffer
      ensures Valid() && (collision <==> Collides(items))
      ensures !collision ==> Finished(tree.p, State(), |tree.table|, items, k) && forall i :: 0 <= i < |items| ==>
          items[i].bucket < k
    {
      collision, k := LoadItems(items, 0, 0);
      if !collision {
        collision, k := LoadRest(items, k);
      }
    }

    /** The items from n on, one call of the loader each. */
    method LoadItems(items: seq<Item>, n: nat, ghost k: nat) returns (collision: bool, ghost k': nat)
      requires Valid() && Sorted(items) && n <= |items| && Finished(tree.p, State(), |tree.table|, items, k)
      requires Open(currentBucketIdx, currentBucket, currentBucketOffs, items, n, k)
      requires forall b :: CanSplit(tree.p, tree.maxSize, Bucket(items, b))
      modifies this, tree, tree.gr, tree.count, tree.buffer, tree.offsetBuffer
      ensures tree.buffer == old(tree.buffer) || fresh(tree.buffer)
      ensures tree.offsetBuffer == old(tree.offsetBuffer) || fresh(tree.offsetBuffer)
      ensures Valid() && (collision ==> Collides(items))
      ensures !collision ==>
        && Finished(tree.p, State(), |tree.table|, items, k')
        && Open(currentBucketIdx, currentBucket, currentBucketOffs, items, |items|, k')
      decreases |items| - n
    {
      collision, k' := false, k;
      if n < |items| {
        collision, k' := LoadFuncBucket(items, n, k, items[n]);
        if !collision {
          collision, k' := LoadItems(items, n + 1, k');
        }
      }
    }

    method LoadRest(ghost items: seq<Item>, ghost k: nat) returns (collision: bool, ghost k': nat)
      requires Valid() && Sorted(items) && forall b :: CanSplit(tree.p, tree.maxSize, Bucket(items, b))
      requires Finished(tree.p, State(), |tree.table|, items, k)
      requires Open(currentBucketIdx, currentBucket, currentBucketOffs, items, |items|, k)
      modifies this, tree, tree.gr, tree.count, tree.buffer, tree.offsetBuffer
      ensures Valid() && (collision <==> Collides(items))
      ensures !collision ==> Finished(tree.p, State(), |tree.table|, items, k') && forall i :: 0 <= i < |items| ==>
          items[i].bucket < k'
    {
      collision, k' := false, k;
      NoneOpen(currentBucketIdx, currentBucket, currentBucketOffs, items, k);
      if |currentBucket| > 0 {
        var idx := currentBucketIdx.value;
        BucketCloses(items, |items|, idx, idx + 1);
        collision, k' := CloseBucket(items, k, idx);
      }
      if !collision {
        AllFinished(tree.p, State(), |tree.table|, items, k');
      }
    }
  }

  /** No item is left outside the written buckets. */
  lemma AllFinished(p: Params, o: Built, entries: nat, items: seq<Item>, k: nat)
    requires ValidParams(p) && Finished(p, o, entries, items, k) && forall i :: 0 <= i < |items| ==> items[i].bucket < k
    ensures !Collides(items)
  {
    forall b: nat | b >= k ensures Distinct(Bucket(items, b)) {
      NotYet(items, b, |items|);
    }
  }

  lemma BucketStored(p: Params, o: Built, o': Built, items: seq<Item>, k: nat, idx: nat)
    requires ValidParams(p) && k <= idx && AllDone(p, o, items, k)
    requires forall b :: k <= b < idx ==> Bucket(items, b) == []
    requires BucketWritten(p, Bucket(items, idx), o.bits, o.recs, o'.bits, o'.recs)
    requires Extended(o.sizes, o'.sizes, idx, |o'.recs|) && Extended(o.pos, o'.pos, idx, |o'.bits|)
    ensures AllDone(p, o', items, idx + 1)
  {
    assert BucketDone(p, o', idx, Bucket(items, idx));
    BucketAdded(p, o, o', items, k, idx);
  }
}
