/** The RecSplit index as a whole: keys are added with offsets, Build writes the file,
    and Lookup of every added key returns its offset. */
module RecSplitIndex {
  import opened Options
  import opened Arith
  import opened Words
  import opened SplitTree
  import opened SplitCode
  import opened GolombTable
  import opened RecSplitBuckets
  import opened RecSplitWalk
  import opened RecSplitLookup
  import opened Uvarint
  import opened BigEndian
  import GolombRice

  /** bits.Len64. */
  function Len64(v: nat): nat { if v == 0 then 0 else 1 + Len64(v / 2) }

  /** The bytes of a record hold every offset up to the largest. */
  lemma {:induction false} RecordFits(v: nat, max: nat)
    requires v <= max
    ensures v < Pow256((Len64(max) + 7) / 8)
  {
    var n := (Len64(max) + 7) / 8;
    LenBound(max);
    PowerGrows(Len64(max), 8 * n);
    PowerOfBytes(n);
  }

  lemma {:induction false} LenBound(v: nat)
    ensures v < Pow2(Len64(v))
  {
    if v > 0 {
      LenBound(v / 2);
    }
  }

  /** The offset records, b bytes each. */
  function RecordBytes(recs: seq<nat>, b: nat, n: nat): (r: seq<nat>)
    requires n <= |recs|
    ensures |r| == Mul(n, b) && AllBytes(r)
  {
    if n == 0 then [] else RecordBytes(recs, b, n - 1) + ToBytes(recs[n - 1], b)
  }

  lemma {:induction false} RecordAt(recs: seq<nat>, b: nat, n: nat, i: nat)
    requires i < n <= |recs|
    ensures BytesAt(RecordBytes(recs, b, n), Mul(i, b), ToBytes(recs[i], b))
  {
    if i < n - 1 {
      RecordAt(recs, b, n - 1, i);
    }
  }

  // ---- the file

  /** remap: the high word of x * n. */
  function Remap(x: nat, n: nat): (r: nat)
    ensures r * TWO64 <= x * n < (r + 1) * TWO64
  {
    x * n / TWO64
  }

  lemma {:induction false} RemapMonotone(x: nat, y: nat, n: nat)
    requires x <= y
    ensures Remap(x, n) <= Remap(y, n)
  {
    assert x * n <= y * n;
  }

  lemma RemapBelow(x: nat, n: nat)
    requires x < TWO64 && n > 0
    ensures Remap(x, n) < n
  {
    MulAtLeast(n, TWO64 - x);
    assert n * (TWO64 - x) == n * TWO64 - x * n;
  }

  /** The bytes up to the last record, and what follows them: the bucket count, the
      parameters, the length of the Golomb table, the bit string, and the two
      accumulators as Elias-Fano sequences. */
  datatype File = File(data: seq<nat>, bucketCount: nat, p: Params, entries: nat,
                       grData: seq<bool>, sizes: seq<nat>, pos: seq<nat>)

  datatype Index = Index(file: File, baseDataID: nat, keyCount: nat, bytesPerRec: nat, p: Params, table: seq<nat>)

  /** The table of the index reaches the size of the key's bucket, and is right for it. */
  ghost predicate Covers(f: File, items: seq<Item>, i: nat)
    requires ValidParams(f.p) && i < |items|
  {
    var m := |Bucket(items, items[i].bucket)|;
    m < f.entries && Straight(f.p, m)
  }

  /** The file's records hold these offsets. */
  ghost predicate Records(f: File, recs: seq<nat>, keyCount: nat) {
    && AllBytes(f.data) && |f.data| >= 17 && f.data[16] <= 8 && keyCount < TWO64
    && BytesAt(f.data, 8, ToBytes(keyCount, 8)) && BytesAt(f.data, 17, RecordBytes(recs, f.data[16], |recs|))
  }

  /** The buckets of the items are written in the file, before the set bit at n. */
  ghost predicate Written(f: File, items: seq<Item>, recs: seq<nat>, n: nat, k: nat) {
    && ValidParams(f.p) && 0 < |f.p.seeds| && f.entries <= 0xFFFF && (forall m :: 0 <= m < f.entries ==> Fits(f.p, m))
    && GolombRice.Aligned(f.grData) && n < |f.grData| && f.grData[n]
    && (forall b :: 0 <= b < k ==> BucketDone(f.p, Built(f.grData[..n], recs, f.sizes, f.pos), b, Bucket(items, b)))
    && (forall i :: 0 <= i < |items| ==> items[i].bucket < k)
    && (f.entries == 0 || forall b :: 0 <= b < k ==> |Bucket(items, b)| < f.entries)
    && (f.entries == 0 <==> !Shared(items))
  }

  /** The file is an index of the items. */
  ghost predicate Indexes(f: File, items: seq<Item>) {
    && |f.data| > 16 && AggrBounds(f.p.leaf) == (f.p.primary, f.p.secondary)
    && (exists recs, n: nat, k: nat :: Records(f, recs, |items|) && Written(f, items, recs, n, k))
    && forall i :: 0 <= i < |items| ==> items[i].e.off < Pow256(f.data[16])
  }

  /** The 8 bytes that end with record rec, masked to the record's size, are the record. */
  lemma {:induction false} ReadRecord(f: File, recs: seq<nat>, keyCount: nat, rec: nat, at: nat)
    requires Records(f, recs, keyCount) && rec < |recs| && recs[rec] < Pow256(f.data[16])
    requires at == 1 + 8 + f.data[16] * (rec + 1)
    ensures at + 8 <= |f.data| && FromBytes(f.data, at, 8) % Pow256(f.data[16]) == recs[rec]
  {
    var b := f.data[16];
    MulIsProduct(rec + 1, b);
    RecordPlace(f.data, recs, b, rec, at);
    Masked(f.data, at, b);
  }

  lemma {:induction false} RecordPlace(data: seq<nat>, recs: seq<nat>, b: nat, rec: nat, at: nat)
    requires BytesAt(data, 17, RecordBytes(recs, b, |recs|)) && rec < |recs| && recs[rec] < Pow256(b)
    requires at == 9 + Mul(rec + 1, b)
    requires b <= 8
    ensures at + 8 <= |data| && FromBytes(data, at + 8 - b, b) == recs[rec]
  {
    MulMonotonic(rec + 1, |recs|, b);
    RecordAt(recs, b, |recs|, rec);
    RecordInFile(data, RecordBytes(recs, b, |recs|), Mul(rec, b), recs[rec], b);
  }

  lemma {:induction false} RecordInFile(data: seq<nat>, records: seq<nat>, at: nat, v: nat, b: nat)
    requires BytesAt(data, 17, records) && BytesAt(records, at, ToBytes(v, b)) && v < Pow256(b)
    ensures 17 + at + b <= |data| && FromBytes(data, 17 + at, b) == v
  {
    var i := 17;
    BytesWithin(data, i, records, at, ToBytes(v, b));
    BytesBack(data, i + at, v, b);
  }

  lemma {:induction false} Masked(s: seq<nat>, i: nat, b: nat)
    requires i + 8 <= |s| && b <= 8 && AllBytes(s)
    ensures FromBytes(s, i, 8) % Pow256(b) == FromBytes(s, i + 8 - b, b)
  {
    var k, v, low, d := 8 - b, FromBytes(s, i, 8), FromBytes(s, i + 8 - b, b), Pow256(b);
    var q := LowBytes(s, i, k, b);
    QuotientUnique(v, d, q, low);
  }

  // ---- Lookup

  lemma {:induction false} InBucketHas(items: seq<Item>, n: nat, i: nat) returns (q: nat)
    requires i < n <= |items|
    ensures q < |InBucket(items, items[i].bucket, n)| && InBucket(items, items[i].bucket, n)[q] == items[i].e
  {
    if i == n - 1 {
      q := |InBucket(items, items[i].bucket, n - 1)|;
    } else {
      q := InBucketHas(items, n - 1, i);
    }
  }

  /** The bucket of an indexed key is where the walk starts. */
  lemma StartOf(f: File, items: seq<Item>, recs: seq<nat>, n: nat, k: nat, i: nat) returns (s: Stand, q: nat)
    requires Written(f, items, recs, n, k) && i < |items|
    ensures var b := items[i].bucket; var m := |Bucket(items, b)|;
      && b + 1 < |f.sizes| && b < |f.pos| && f.sizes[b + 1] == f.sizes[b] + m
      && s.f == f.pos[b] && s.u == f.pos[b] + FixedBits(f.p, m) < |f.grData|
      && Tracks(s, m, 0, f.sizes[b], q, items[i].e.fp, items[i].e.off)
    ensures Standing(Bits(f.grData, n), f.p, s, recs)
  {
    var b := items[i].bucket;
    var es := Bucket(items, b);
    assert BucketDone(f.p, Built(f.grData[..n], recs, f.sizes, f.pos), b, es);
    q := InBucketHas(items, |items|, i);
    s := Stand(f.pos[b], f.pos[b] + FixedBits(f.p, |es|), 0, es, f.sizes[b]);
    HereInPrefix(f.grData, n, s.f, PartCode(f.p, 0, es).fixed);
    HereInPrefix(f.grData, n, s.u, GolombRice.UnaryAll(PartCode(f.p, 0, es).unary));
  }

  lemma HereInPrefix(data: seq<bool>, n: nat, k: nat, bits: seq<bool>)
    requires n <= |data| && Here(data[..n], k, bits)
    ensures Here(data, k, bits) && k + |bits| <= n
  {
  }

  lemma TableNext(p: Params, table: seq<nat>, e: nat)
    requires ValidParams(p) && TableOk(p, table) && EntryOk(p, e, |table|)
    ensures TableOk(p, table + [e])
  {
  }

  method ReadTable(p: Params, entries: nat) returns (table: seq<nat>)
    requires ValidParams(p) && entries <= 0xFFFF && forall m :: 0 <= m < entries ==> Fits(p, m)
    ensures |table| == entries && TableOk(p, table)
  {
    table := [];
    while |table| < entries
      invariant |table| <= entries && TableOk(p, table)
    {
      var e := NextEntry(p, table);
      TableNext(p, table, e);
      table := table + [e];
    }
  }

  /** OpenIndex: the header, and the aggregation bounds and the Golomb table computed anew. */
  method OpenIndex(f: File, ghost items: seq<Item>) returns (idx: Index)
    requires Indexes(f, items)
    ensures Opened(idx, items) && idx.file == f && (forall id :: HasId(f, id) ==> idx.baseDataID == id)
  {
    ghost var recs, n: nat, k: nat :| Records(f, recs, |items|) && Written(f, items, recs, n, k);
    var p := f.p.(primary := AggrBounds(f.p.leaf).0, secondary := AggrBounds(f.p.leaf).1);
    var table := ReadTable(p, f.entries);
    KeyCountBack(f.data, |items|);
    idx := Index(f, FromBytes(f.data, 0, 8), FromBytes(f.data, 8, 8), f.data[16], p, table);
  }

  ghost predicate Opened(idx: Index, items: seq<Item>) {
    && Indexes(idx.file, items) && ValidParams(idx.file.p) && idx.keyCount == |items|
    && |idx.file.data| > 16 && idx.bytesPerRec == idx.file.data[16] && idx.p == idx.file.p
    && |idx.table| == idx.file.entries && TableOk(idx.file.p, idx.table)
  }

  /** The first field of the file. */
  ghost predicate HasId(f: File, baseDataID: nat) { |f.data| >= 8 && FromBytes(f.data, 0, 8) == baseDataID }

  lemma {:induction false} IdBack(data: seq<nat>, baseDataID: nat)
    requires BytesAt(data, 0, ToBytes(baseDataID, 8)) && baseDataID < TWO64
    ensures FromBytes(data, 0, 8) == baseDataID
  {
    var n := 8;
    assert Pow256(8) == TWO64;
    BytesBack(data, 0, baseDataID, n);
  }

  lemma KeyCountBack(data: seq<nat>, keyCount: nat)
    requires BytesAt(data, 8, ToBytes(keyCount, 8)) && keyCount < TWO64
    ensures FromBytes(data, 8, 8) == keyCount
  {
    var n := 8;
    assert Pow256(8) == TWO64;
    BytesBack(data, n, keyCount, n);
  }

  /**
   * Index.Lookup of any added key, here the one of item i, returns its offset, when the table covers the size of
   * the key's bucket (see Covered). With a single key the index is not consulted and 0 is returned.
   */
  method Lookup(idx: Index, bucketHash: nat, fingerprint: nat, ghost items: seq<Item>, ghost i: nat) returns (r: nat)
    requires Opened(idx, items) && i < |items|
    requires items[i].bucket == Remap(bucketHash, idx.file.bucketCount) && items[i].e.fp == fingerprint
    requires |items| > 1 ==> Covers(idx.file, items, i)
    ensures r == if |items| == 1 then 0 else items[i].e.off
  {
    if idx.keyCount == 1 {
      return 0;
    }
    ghost var recs, n: nat, k: nat :| Records(idx.file, recs, |items|) && Written(idx.file, items, recs, n, k);
    var rec := FindRecord(idx, Remap(bucketHash, idx.file.bucketCount), fingerprint, items, i, recs, n, k);
    r := RecordOf(idx.file, idx.bytesPerRec, rec, recs, |items|);
  }

  method RecordOf(f: File, bytesPerRec: nat, rec: nat, ghost recs: seq<nat>, ghost keyCount: nat) returns (r: nat)
    requires Records(f, recs, keyCount) && rec < |recs| && bytesPerRec == f.data[16] && recs[rec] < Pow256(bytesPerRec)
    ensures r == recs[rec]
  {
    var at := 1 + 8 + bytesPerRec * (rec + 1);
    ReadRecord(f, recs, keyCount, rec, at);
    r := FromBytes(f.data, at, 8) % Pow256(bytesPerRec);
  }

  method FindRecord(idx: Index, bucket: nat, fingerprint: nat, ghost items: seq<Item>, ghost i: nat,
                    ghost recs: seq<nat>, ghost n: nat, ghost k: nat)
      returns (rec: nat)
    requires Written(idx.file, items, recs, n, k) && i < |items| && items[i].bucket == bucket
    requires items[i].e.fp == fingerprint
    requires idx.p == idx.file.p && |idx.table| == idx.file.entries && TableOk(idx.p, idx.table)
    requires Covers(idx.file, items, i)
    ensures rec < |recs| && recs[rec] == items[i].e.off
  {
    var f := idx.file;
    ghost var s, q := StartOf(f, items, recs, n, k, i);
    var cumKeys, cumKeysNext, bitPos := f.sizes[bucket], f.sizes[bucket + 1], f.pos[bucket];
    var m := cumKeysNext - cumKeys;
    assert EntryOk(f.p, idx.table[m], m);
    StraightExactly(f.p, m);
    var gr := new GolombRice.Reader(f.grData, bitPos, EntryBits(idx.table[m]));
    rec := Walk(idx.p, idx.table, gr, m, cumKeys, fingerprint, Bits(f.grData, n), s, q, recs, items[i].e.off);
  }

  // ---- Build

  datatype Result<T> = Ok(value: T) | AlreadyBuilt | WrongKeyCount | Collision

  /** More items than buckets: some bucket has two. */
  lemma SomeBucketHasTwo(items: seq<Item>, bucketCount: nat) returns (b: nat)
    requires Sorted(items) && |items| > bucketCount && forall i :: 0 <= i < |items| ==> items[i].bucket < bucketCount
    ensures |Bucket(items, b)| >= 2
  {
    var i := 0;
    while i + 1 < |items| && items[i].bucket != items[i + 1].bucket
      invariant i < |items| && items[i].bucket >= i
    {
      i := i + 1;
    }
    b := items[i].bucket;
    assert |InBucket(items, b, i + 2)| == |InBucket(items, b, i)| + 2;
    BucketGrows(items, b, i + 2, |items|);
  }

  lemma {:induction false} BucketGrows(items: seq<Item>, b: nat, n: nat, k: nat)
    requires n <= k <= |items|
    ensures |InBucket(items, b, n)| <= |InBucket(items, b, k)|
  {
    if n < k {
      BucketGrows(items, b, n, k - 1);
    }
  }

  /** More keys than one fill fewer buckets than there are keys. */
  lemma FewerBuckets(keyCount: nat, bucketSize: nat)
    requires keyCount > 1 && bucketSize > 1
    ensures 0 < Ceil(keyCount, bucketSize) < keyCount
  {
    UnitsIsQuotient(keyCount, bucketSize);
    if keyCount > bucketSize {
      UnitsBound(keyCount - bucketSize, bucketSize);
    }
  }

  /** The bytes that Build writes before the bucket count. */
  function FileBytes(baseDataID: nat, keyCount: nat, bytesPerRec: nat, recs: seq<nat>): seq<nat> {
    ToBytes(baseDataID, 8) + ToBytes(keyCount, 8) + [bytesPerRec] + RecordBytes(recs, bytesPerRec, |recs|)
  }

  lemma {:induction false} FileRecords(f: File, baseDataID: nat, keyCount: nat, maxOffset: nat, recs: seq<nat>)
    requires keyCount < TWO64 && maxOffset < TWO64 && baseDataID < TWO64
    requires f.data == FileBytes(baseDataID, keyCount, (Len64(maxOffset) + 7) / 8, recs)
    ensures Records(f, recs, keyCount) && f.data[16] == (Len64(maxOffset) + 7) / 8 && HasId(f, baseDataID)
  {
    var b := (Len64(maxOffset) + 7) / 8;
    EightBytes(maxOffset);
    FileParts(f.data, ToBytes(baseDataID, 8), ToBytes(keyCount, 8), b, RecordBytes(recs, b, |recs|));
    IdBack(f.data, baseDataID);
  }

  lemma {:induction false} FileParts(data: seq<nat>, id: seq<nat>, count: seq<nat>, b: nat, records: seq<nat>)
    requires data == id + count + [b] + records && |id| == |count| == 8 && b < 256
    requires AllBytes(id) && AllBytes(count) && AllBytes(records)
    ensures AllBytes(data) && |data| >= 17 && BytesAt(data, 8, count) && data[16] == b && BytesAt(data, 17, records)
    ensures BytesAt(data, 0, id)
  {
  }

  lemma EightBytes(v: nat)
    requires v < TWO64
    ensures (Len64(v) + 7) / 8 <= 8
  {
    TwoPower64();
    LenAtMost(v, 64);
  }

  lemma {:induction false} LenAtMost(v: nat, n: nat)
    requires v < Pow2(n)
    ensures Len64(v) <= n
  {
    if v > 0 {
      LenAtMost(v / 2, n - 1);
    }
  }

  /** The finished buckets, followed by the set bit that stops every read, are an index. */
  lemma BuiltIsIndex(f: File, items: seq<Item>, o: Built, k: nat, baseDataID: nat, maxOffset: nat, maxSize: nat)
    requires ValidParams(f.p) && 0 < |f.p.seeds| && f.entries <= maxSize + 1 && maxSize < 0xFFFF
    requires FitsUpTo(f.p, maxSize)
    requires Finished(f.p, o, f.entries, items, k) && forall i :: 0 <= i < |items| ==> items[i].bucket < k
    requires AggrBounds(f.p.leaf) == (f.p.primary, f.p.secondary)
    requires GolombRice.Aligned(f.grData) && |o.bits| < |f.grData| && f.grData[..|o.bits|] == o.bits
    requires f.grData[|o.bits|]
    requires f.sizes == o.sizes && f.pos == o.pos && maxOffset < TWO64 && |items| < TWO64 && baseDataID < TWO64
    requires forall i :: 0 <= i < |items| ==> items[i].e.off <= maxOffset
    requires f.data == FileBytes(baseDataID, |items|, (Len64(maxOffset) + 7) / 8, o.recs)
    ensures Indexes(f, items) && HasId(f, baseDataID)
  {
    FileRecords(f, baseDataID, |items|, maxOffset, o.recs);
    TableReaches(f.p, o, f.entries, items, k);
    assert Built(f.grData[..|o.bits|], o.recs, f.sizes, f.pos) == o;
    assert Written(f, items, o.recs, |o.bits|, k);
    forall i | 0 <= i < |items| ensures items[i].e.off < Pow256(f.data[16]) {
      RecordFits(items[i].e.off, maxOffset);
    }
  }

  lemma Sentinel(bits: seq<bool>, data: seq<bool>, bitCount: nat)
    requires bitCount <= |data| && data[..bitCount] == bits + ToBits(1, 1)
    ensures |bits| < |data| && data[..|bits|] == bits && data[|bits|]
  {
    assert ToBits(1, 1) == [true];
    assert data[|bits|] == data[..bitCount][|bits|];
    assert data[..|bits|] == data[..bitCount][..|bits|];
  }

  /** The table reaches every bucket, or there is none because no bucket has two keys. */
  lemma TableReaches(p: Params, o: Built, entries: nat, items: seq<Item>, k: nat)
    requires ValidParams(p) && Finished(p, o, entries, items, k) && forall i :: 0 <= i < |items| ==> items[i].bucket < k
    ensures entries == 0 || forall b :: 0 <= b < k ==> |Bucket(items, b)| < entries
    ensures entries == 0 <==> !Shared(items)
  {
    if b: nat :| |Bucket(items, b)| > 1 {
      if b >= k {
        NotYet(items, b, |items|);
      }
    }
  }

  /**
   * The keys whose lookups the table covers. With one key per bucket it is empty and covers none; with more keys
   * than buckets it covers all of them, except the sizes for which leaf size 2 lets it be wrong.
   */
  lemma Covered(f: File, items: seq<Item>, i: nat)
    requires Indexes(f, items) && ValidParams(f.p) && i < |items|
    ensures Covers(f, items, i) <==> Shared(items) && Straight(f.p, |Bucket(items, items[i].bucket)|)
    ensures f.p.leaf >= 3 && Covers(f, items, i) <==> f.p.leaf >= 3 && Shared(items)
  {
    var recs, n: nat, k: nat :| Records(f, recs, |items|) && Written(f, items, recs, n, k);
    var m := |Bucket(items, items[i].bucket)|;
    if f.p.leaf >= 3 && f.entries > 0 {
      assert Fits(f.p, m);
      SmallIsStraight(f.p, m);
    }
  }

  /** With buckets meant for two keys or more, some bucket gets two as soon as there are two keys. */
  lemma TwoTogether(items: seq<Item>, bucketSize: nat)
    requires Sorted(items) && |items| > 1 && bucketSize > 1
    requires forall i :: 0 <= i < |items| ==> items[i].bucket < Ceil(|items|, bucketSize)
    ensures Shared(items)
  {
    FewerBuckets(|items|, bucketSize);
    var b := SomeBucketHasTwo(items, Ceil(|items|, bucketSize));
  }

  lemma SameItems(a: seq<Item>, b: seq<Item>)
    requires multiset(a) == multiset(b)
    ensures |a| == |b| && forall i :: 0 <= i < |a| ==> a[i] in b
  {
    assert |multiset(a)| == |a| && |multiset(b)| == |b|;
    forall i | 0 <= i < |a| ensures a[i] in b {
      assert a[i] in multiset(a);
    }
  }

  class RecSplit {
    const p: Params
    ghost const maxSize: nat
    const baseDataID: nat
    const bucketSize: nat
    const bucketCount: nat
    const keyExpectedCount: nat
    const buckets: Buckets
    var collected: seq<Item>
    var maxOffset: nat
    var built: bool
    var collision: bool

    ghost predicate Valid()
      reads this, buckets, buckets.tree, buckets.tree.gr
    {
      && 0 < |p.seeds| && AggrBounds(p.leaf) == (p.primary, p.secondary) && bucketSize > 0
      && bucketCount == Ceil(keyExpectedCount, bucketSize) && keyExpectedCount < TWO64
      && buckets.Valid() && buckets.tree.p == p && buckets.tree.maxSize == maxSize
      && maxOffset < TWO64 && baseDataID < TWO64
      && (forall i :: 0 <= i < |collected| ==> collected[i].e.off <= maxOffset)
      && (bucketCount > 0 ==> forall i :: 0 <= i < |collected| ==> collected[i].bucket < bucketCount)
      && (!built && !collision ==>
            && buckets.State() == Built([], [], [0], [0]) && buckets.tree.table == []
            && buckets.currentBucketIdx == None && buckets.currentBucket == buckets.currentBucketOffs == [])
    }

    /** NewRecSplit, for a leaf size that it accepts. */
    constructor (leaf: nat, seeds: seq<nat>, mix: nat -> nat, golomb: nat -> nat, ghost maxSize: nat,
                 baseDataID: nat, keyCount: nat, bucketSize: nat)
      requires 2 <= leaf <= 24 && 0 < |seeds| && (forall m :: golomb(m) <= 31) && bucketSize > 0 && keyCount < TWO64
      requires maxSize < 0xFFFF && baseDataID < TWO64
      requires var p := NewParams(leaf, seeds, mix, golomb); ValidParams(p) ==> FitsUpTo(p, maxSize)
      ensures Valid() && collected == [] && !built && !collision && p == NewParams(leaf, seeds, mix, golomb)
      ensures this.maxSize == maxSize && keyExpectedCount == keyCount && bucketCount == Ceil(keyCount, bucketSize)
      ensures this.baseDataID == baseDataID && this.bucketSize == bucketSize
    {
      AggrBoundsValid(leaf, seeds, mix, golomb);
      p := NewParams(leaf, seeds, mix, golomb);
      this.maxSize, this.baseDataID, this.bucketSize := maxSize, baseDataID, bucketSize;
      bucketCount := Ceil(keyCount, bucketSize);
      keyExpectedCount := keyCount;
      buckets := new Buckets(NewParams(leaf, seeds, mix, golomb), maxSize);
      collected, maxOffset, built, collision := [], 0, false, false;
    }

    /** AddKey, with the two halves of the key's hash: refused once the index is built. */
    method AddKey(hi: nat, lo: nat, offset: nat) returns (ok: bool)
      requires Valid() && hi < TWO64 && offset < TWO64
      modifies this
      ensures Valid() && ok == !built && built == old(built) && collision == old(collision)
      ensures collected == old(collected) + if ok then [Item(Remap(hi, bucketCount), Entry(lo, offset))] else []
    {
      if built {
        return false;
      }
      if bucketCount > 0 {
        RemapBelow(hi, bucketCount);
      }
      if offset > maxOffset {
        maxOffset := offset;
      }
      collected := collected + [Item(Remap(hi, bucketCount), Entry(lo, offset))];
      ok := true;
    }

    /** Build: `sorted` is what the collector delivers. */
    method Build(sorted: seq<Item>) returns (r: Result<File>)
      requires Valid() && !collision
      requires Sorted(sorted) && multiset(sorted) == multiset(collected)
      requires forall b :: CanSplit(p, maxSize, Bucket(sorted, b))
      modifies this, buckets, buckets.tree, buckets.tree.gr, buckets.tree.count, buckets.tree.buffer
      modifies buckets.tree.offsetBuffer
      ensures r.AlreadyBuilt? <==> old(built)
      ensures r.WrongKeyCount? <==> !old(built) && |sorted| != keyExpectedCount
      ensures r.Collision? <==> !old(built) && |sorted| == keyExpectedCount && Collides(sorted)
      ensures r.Ok? ==> Indexes(r.value, sorted) && r.value.bucketCount == bucketCount && r.value.p == p && built
      ensures r.Ok? ==> HasId(r.value, baseDataID)
    {
      if built {
        return AlreadyBuilt;
      }
      SameItems(sorted, collected);
      if |collected| != keyExpectedCount {
        return WrongKeyCount;
      }
      r := BuildBuckets(sorted);
    }

    /** The buckets, and unless two fingerprints collide the file. */
    method BuildBuckets(sorted: seq<Item>) returns (r: Result<File>)
      requires 0 < |p.seeds| && AggrBounds(p.leaf) == (p.primary, p.secondary) && baseDataID < TWO64
      requires |sorted| == |collected| == keyExpectedCount < TWO64
      requires buckets.Valid() && buckets.tree.p == p && buckets.tree.maxSize == maxSize && maxOffset < TWO64
      requires Sorted(sorted)
      requires buckets.State() == Built([], [], [0], [0]) && buckets.tree.table == []
      requires buckets.currentBucketIdx == None && buckets.currentBucket == buckets.currentBucketOffs == []
      requires forall i :: 0 <= i < |sorted| ==> sorted[i].e.off <= maxOffset
      requires forall b :: CanSplit(p, maxSize, Bucket(sorted, b))
      modifies this, buckets, buckets.tree, buckets.tree.gr, buckets.tree.count, buckets.tree.buffer
      modifies buckets.tree.offsetBuffer
      ensures r.Ok? || r.Collision?
      ensures r.Collision? <==> Collides(sorted)
      ensures r.Ok? ==> Indexes(r.value, sorted) && r.value.bucketCount == bucketCount && r.value.p == p && built
      ensures r.Ok? ==> HasId(r.value, baseDataID)
    {
      var collides; ghost var k;
      collides, k := buckets.Load(sorted);
      if collides {
        collision := true;
        return Collision;
      }
      var f := WriteFile(sorted, k);
      r := Ok(f);
      built := true;
    }

    /** What follows the buckets: the sentinel bit and the rest of the file. */
    method WriteFile(ghost items: seq<Item>, ghost k: nat) returns (f: File)
      requires 0 < |p.seeds| && AggrBounds(p.leaf) == (p.primary, p.secondary) && baseDataID < TWO64
      requires |items| == |collected| == keyExpectedCount < TWO64
      requires buckets.Valid() && buckets.tree.p == p && buckets.tree.maxSize == maxSize && maxOffset < TWO64
      requires Sorted(items)
      requires forall i :: 0 <= i < |items| ==> items[i].e.off <= maxOffset && items[i].bucket < k
      requires Finished(p, buckets.State(), |buckets.tree.table|, items, k)
      modifies buckets.tree.gr
      ensures Indexes(f, items) && f.bucketCount == bucketCount && f.p == p && HasId(f, baseDataID)
    {
      ghost var o := buckets.State();
      buckets.tree.gr.AppendFixed(1, 1);
      Sentinel(o.bits, buckets.tree.gr.data, buckets.tree.gr.bitCount);
      f := File(FileBytes(baseDataID, |collected|, (Len64(maxOffset) + 7) / 8, buckets.tree.index), bucketCount, p,
          |buckets.tree.table|,
                buckets.tree.gr.data, buckets.bucketSizeAcc, buckets.bucketPosAcc);
      BuiltIsIndex(f, items, o, k, baseDataID, maxOffset, maxSize);
    }
  }

  // ---- from keys to lookups

  /** The two halves of a key's hash. */
  datatype Key = Key(hi: nat, lo: nat)

  function ItemOf(key: Key, offset: nat, bucketCount: nat): Item {
    Item(Remap(key.hi, bucketCount), Entry(key.lo, offset))
  }

  function ItemsOf(keys: seq<Key>, offsets: seq<nat>, bucketCount: nat): (r: seq<Item>)
    requires |offsets| == |keys|
    ensures |r| == |keys| && forall i :: 0 <= i < |keys| ==> r[i] == ItemOf(keys[i], offsets[i], bucketCount)
  {
    seq(|keys|, i requires 0 <= i < |keys| => ItemOf(keys[i], offsets[i], bucketCount))
  }

  lemma PlaceOf(sorted: seq<Item>, items: seq<Item>, i: nat) returns (j: nat)
    requires multiset(sorted) == multiset(items) && i < |items|
    ensures j < |sorted| && sorted[j] == items[i]
  {
    SameItems(items, sorted);
    assert items[i] in sorted;
    j :| 0 <= j < |sorted| && sorted[j] == items[i];
  }

  method AddAll(rs: RecSplit, keys: seq<Key>, offsets: seq<nat>)
    requires rs.Valid() && !rs.built && !rs.collision && rs.collected == [] && |offsets| == |keys|
    requires forall i :: 0 <= i < |keys| ==> keys[i].hi < TWO64 && offsets[i] < TWO64
    modifies rs
    ensures rs.Valid() && !rs.built && !rs.collision && rs.collected == ItemsOf(keys, offsets, rs.bucketCount)
  {
    for i := 0 to |keys|
      invariant rs.Valid() && !rs.built && !rs.collision && rs.collected == ItemsOf(keys, offsets, rs.bucketCount)[..i]
    {
      var ok := rs.AddKey(keys[i].hi, keys[i].lo, offsets[i]);
    }
  }

  method LookupOne(idx: Index, keys: seq<Key>, i: nat, ghost offsets: seq<nat>, ghost sorted: seq<Item>)
      returns (offset: nat)
    requires i < |offsets| == |keys| == |sorted| && Opened(idx, sorted)
    requires multiset(sorted) == multiset(ItemsOf(keys, offsets, idx.file.bucketCount))
    requires |sorted| > 1 ==> forall j :: 0 <= j < |sorted| ==> Covers(idx.file, sorted, j)
    ensures offset == if |keys| == 1 then 0 else offsets[i]
  {
    ghost var j := PlaceOf(sorted, ItemsOf(keys, offsets, idx.file.bucketCount), i);
    offset := Lookup(idx, keys[i].hi, keys[i].lo, sorted, j);
  }

  method LookupAll(idx: Index, keys: seq<Key>, ghost offsets: seq<nat>, ghost sorted: seq<Item>) returns (r: seq<nat>)
    requires |offsets| == |keys| == |sorted| && Opened(idx, sorted)
    requires multiset(sorted) == multiset(ItemsOf(keys, offsets, idx.file.bucketCount))
    requires |sorted| > 1 ==> forall j :: 0 <= j < |sorted| ==> Covers(idx.file, sorted, j)
    ensures |r| == |keys| && forall i :: 0 <= i < |keys| ==> r[i] == if |keys| == 1 then 0 else offsets[i]
  {
    r := [];
    for i := 0 to |keys|
      invariant |r| == i && forall k :: 0 <= k < i ==> r[k] == if |keys| == 1 then 0 else offsets[k]
    {
      var offset := LookupOne(idx, keys, i, offsets, sorted);
      r := r + [offset];
    }
  }

  /**
   * NewRecSplit, AddKey for every key, Build, OpenIndex, Lookup of every key: the offsets and the base id come back,
   * unless two keys have the same bucket and fingerprint. `sorted` is what the collector delivers for the added items.
   */
  method IndexKeys(rs: RecSplit, keys: seq<Key>, offsets: seq<nat>, sorted: seq<Item>)
      returns (r: Result<seq<nat>>, baseDataID: nat)
    requires rs.Valid() && !rs.built && !rs.collision && rs.collected == []
    requires |offsets| == |keys| == rs.keyExpectedCount
    requires forall i :: 0 <= i < |keys| ==> keys[i].hi < TWO64 && offsets[i] < TWO64
    requires Sorted(sorted) && multiset(sorted) == multiset(ItemsOf(keys, offsets, rs.bucketCount))
    requires forall b :: CanSplit(rs.p, rs.maxSize, Bucket(sorted, b))
    requires |keys| > 1 ==>
        (rs.bucketSize > 1 || Shared(sorted)) && forall b: nat :: Straight(rs.p, |Bucket(sorted, b)|)
    modifies rs, rs.buckets, rs.buckets.tree, rs.buckets.tree.gr, rs.buckets.tree.count, rs.buckets.tree.buffer
    modifies rs.buckets.tree.offsetBuffer
    ensures r.Collision? <==> Collides(sorted)
    ensures !r.Collision? ==> r.Ok? && |r.value| == |keys| && forall i :: 0 <= i < |keys| ==>
        r.value[i] == if |keys| == 1 then 0 else offsets[i]
    ensures r.Ok? ==> baseDataID == rs.baseDataID
  {
    AddAll(rs, keys, offsets);
    SameItems(sorted, rs.collected);
    if |keys| > 1 && rs.bucketSize > 1 {
      FewerBuckets(|keys|, rs.bucketSize);
      TwoTogether(sorted, rs.bucketSize);
    }
    var built := rs.Build(sorted);
    if built.Collision? {
      return Collision, 0;
    }
    var idx := OpenIndex(built.value, sorted);
    forall j | 0 <= j < |sorted| && |sorted| > 1 ensures Covers(idx.file, sorted, j) {
      Covered(idx.file, sorted, j);
    }
    var answers := LookupAll(idx, keys, offsets, sorted);
    r, baseDataID := Ok(answers), idx.baseDataID;
  }
}
