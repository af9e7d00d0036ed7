/** The collector: pairs go to a buffer, full buffers are sorted and flushed, and loading
    merges what was flushed with what is left in memory. */
module EtlCollector {
  import opened Options
  import opened ByteKeys
  import opened EtlMerge
  import opened EtlLaws
  import opened EtlTable

  /** The kinds of buffers: all pairs, the values of a key together, or its oldest value. */
  datatype Kind = Slice | Append | Oldest

  /** What an entry holds after the first n pairs. */
  ghost predicate EntryOf(kind: Kind, ps: seq<Pair>, k: Key, v: Value) {
    if kind == Append then v == Concat(ps, |ps|, k) else exists j: nat :: IsFirst(ps, j, k) && ps[j].val == v
  }

  /** The buffer holds what was put. */
  ghost predicate BufferOf(kind: Kind, list: seq<Pair>, entries: map<Key, Value>, ps: seq<Pair>) {
    if kind == Slice then list == ps
    else (forall k :: HasKey(ps, k) <==> k in entries) && forall k :: k in entries ==> EntryOf(kind, ps, k, entries[k])
  }

  ghost predicate RunOf(kind: Kind, chunk: seq<Pair>, run: seq<Pair>, order: seq<nat>) {
    && Sorted(run) && |run| > 0
    && match kind
       case Slice => SortedRun(chunk, run, order)
       case Append => AppendedRun(chunk, run)
       case Oldest => OldestRun(chunk, run)
  }

  lemma {:induction false} RunKeys(kind: Kind, chunk: seq<Pair>, run: seq<Pair>, order: seq<nat>, k: Key)
    requires RunOf(kind, chunk, run, order)
    ensures SameKey(chunk, run, k)
  {
    if kind == Slice && HasKey(chunk, k) {
      var i :| 0 <= i < |chunk| && chunk[i].key == k;
      assert i in order;
      var a :| 0 <= a < |order| && order[a] == i;
      assert run[a].key == k;
    }
  }

  lemma {:induction false} FirstStays(ps: seq<Pair>, x: Pair, j: nat, k: Key)
    requires IsFirst(ps, j, k)
    ensures IsFirst(ps + [x], j, k) && (ps + [x])[j] == ps[j]
  {}

  /** An entry after one more pair. */
  lemma {:induction false} EntryNext(kind: Kind, ps: seq<Pair>, x: Pair, k: Key, v: Value)
    requires kind != Slice && HasKey(ps, k) && EntryOf(kind, ps, k, v)
    ensures EntryOf(kind, ps + [x], k, if k == x.key && kind == Append then v + x.val else v)
  {
    if kind == Append {
      ConcatPrefix(ps, [x], |ps|, k);
    } else {
      var j: nat :| IsFirst(ps, j, k) && ps[j].val == v;
      FirstStays(ps, x, j, k);
    }
  }

  lemma {:induction false} EntryNew(kind: Kind, ps: seq<Pair>, x: Pair)
    requires kind != Slice && !HasKey(ps, x.key)
    ensures EntryOf(kind, ps + [x], x.key, x.val)
  {
    if kind == Append {
      ConcatNone(ps, |ps|, x.key);
      ConcatPrefix(ps, [x], |ps|, x.key);
    } else {
      assert IsFirst(ps + [x], |ps|, x.key);
    }
  }

  /** Buffer.Put. */
  method Put(kind: Kind, list: seq<Pair>, entries: map<Key, Value>, x: Pair, ghost ps: seq<Pair>)
      returns (list': seq<Pair>, entries': map<Key, Value>)
    requires BufferOf(kind, list, entries, ps)
    ensures BufferOf(kind, list', entries', ps + [x])
  {
    list', entries' := list, entries;
    match kind
    case Slice => list' := list + [x];
    case Append =>
      entries' := entries[x.key := (if x.key in entries then entries[x.key] else []) + x.val];
      assert [] + x.val == x.val;
      PutEntry(kind, entries, entries', x, ps);
    case Oldest =>
      if x.key !in entries {
        entries' := entries[x.key := x.val];
      }
      PutEntry(kind, entries, entries', x, ps);
  }

  lemma {:induction false} PutEntry(kind: Kind, entries: map<Key, Value>, entries': map<Key, Value>, x: Pair,
                                    ps: seq<Pair>)
    requires kind != Slice && BufferOf(kind, [], entries, ps)
    requires entries' ==
      if x.key !in entries then entries[x.key := x.val]
      else if kind == Append then entries[x.key := entries[x.key] + x.val] else entries
    ensures BufferOf(kind, [], entries', ps + [x])
  {
    forall k ensures HasKey(ps + [x], k) <==> k in entries' {
      EtlLaws.StillHas(ps, x, k);
    }
    forall k | k in entries' ensures EntryOf(kind, ps + [x], k, entries'[k]) {
      if k in entries {
        EntryNext(kind, ps, x, k, entries[k]);
      } else {
        EntryNew(kind, ps, x);
      }
    }
  }

  /** The entries of a map as a list, in any order. */
  method ListEntries(entries: map<Key, Value>) returns (list: seq<Pair>)
    ensures (forall i {:trigger list[i]} :: 0 <= i < |list| ==>
        list[i].key in entries && list[i].val == entries[list[i].key])
    ensures (forall k {:trigger HasKey(list, k)} :: HasKey(list, k) <==> k in entries)
    ensures forall i, j {:trigger list[i], list[j]} :: 0 <= i < j < |list| ==> list[i].key != list[j].key
  {
    list := [];
    var left := entries.Keys;
    while left != {}
      invariant left <= entries.Keys
      invariant forall i {:trigger list[i]} :: 0 <= i < |list| ==>
          list[i].key in entries && list[i].key !in left && list[i].val == entries[list[i].key]
      invariant forall k {:trigger HasKey(list, k)} :: HasKey(list, k) <==> k in entries && k !in left
      invariant forall i, j {:trigger list[i], list[j]} :: 0 <= i < j < |list| ==> list[i].key != list[j].key
    {
      var k :| k in left;
      forall j ensures HasKey(list + [Pair(k, entries[k])], j) <==> j in entries && j !in left - {k} {
        EtlLaws.StillHas(list, Pair(k, entries[k]), j);
      }
      list, left := list + [Pair(k, entries[k])], left - {k};
    }
  }

  /** Distinct pairs in stable order ascend. */
  lemma {:induction false} ArrangedStrict(list: seq<Pair>, order: seq<nat>)
    requires Ordered(list, order, |list|)
    requires forall i, j {:trigger list[i], list[j]} :: 0 <= i < j < |list| ==> list[i].key != list[j].key
    ensures Strict(Arranged(list, order))
    ensures forall k {:trigger HasKey(Arranged(list, order), k)} ::
        HasKey(Arranged(list, order), k) <==> HasKey(list, k)
  {
    var run := Arranged(list, order);
    forall i, j {:trigger Less(run[i].key, run[j].key)} | 0 <= i < j < |run| ensures Less(run[i].key, run[j].key) {
      assert Before(list, order[i], order[j]);
      assert order[i] < order[j] ==> list[order[i]].key != list[order[j]].key;
    }
    forall k ensures HasKey(run, k) <==> HasKey(list, k) {
      if HasKey(list, k) {
        var i: nat :| i < |list| && list[i].key == k;
        assert i in order;
        var a :| 0 <= a < |order| && order[a] == i;
        assert run[a].key == k;
      }
    }
  }

  /** Buffer.Sort and Buffer.Get: the sorted run of a buffer that is not empty. */
  method SortBuffer(kind: Kind, list: seq<Pair>, entries: map<Key, Value>, ghost ps: seq<Pair>)
      returns (run: seq<Pair>, ghost order: seq<nat>)
    requires BufferOf(kind, list, entries, ps) && |ps| > 0
    ensures RunOf(kind, ps, run, order)
  {
    var pairs := list;
    if kind != Slice {
      pairs := ListEntries(entries);
    }
    var places := StableSort(pairs);
    ArrangedSorted(pairs, places);
    run, order := Arranged(pairs, places), places;
    if kind == Slice {
      assert 0 in places;
    } else {
      ArrangedStrict(pairs, places);
      EntriesRun(kind, pairs, places, entries, ps);
    }
  }

  method Provide(kind: Kind, list: seq<Pair>, entries: map<Key, Value>, ghost ps: seq<Pair>, inRam: bool)
      returns (provider: Provider, ghost run: seq<Pair>, ghost order: seq<nat>)
    requires BufferOf(kind, list, entries, ps) && |ps| > 0
    ensures Provides(provider, run) && RunOf(kind, ps, run, order) && (provider.Ram? <==> inRam)
  {
    var sorted;
    sorted, order := SortBuffer(kind, list, entries, ps);
    run := sorted;
    provider := if inRam then Ram(sorted) else Disk(Written(sorted, |sorted|));
  }

  lemma {:induction false} EntriesRun(kind: Kind, pairs: seq<Pair>, order: seq<nat>, entries: map<Key, Value>,
                                      ps: seq<Pair>)
    requires kind != Slice && BufferOf(kind, [], entries, ps) && |ps| > 0 && Ordered(pairs, order, |pairs|)
    requires forall i {:trigger pairs[i]} :: 0 <= i < |pairs| ==>
        pairs[i].key in entries && pairs[i].val == entries[pairs[i].key]
    requires forall k {:trigger HasKey(pairs, k)} :: HasKey(pairs, k) <==> k in entries
    requires Strict(Arranged(pairs, order))
    requires forall k {:trigger HasKey(Arranged(pairs, order), k)} ::
        HasKey(Arranged(pairs, order), k) <==> HasKey(pairs, k)
    ensures |Arranged(pairs, order)| > 0
    ensures if kind == Append then AppendedRun(ps, Arranged(pairs, order)) else OldestRun(ps, Arranged(pairs, order))
  {
    var run := Arranged(pairs, order);
    assert HasKey(ps, ps[0].key);
    assert HasKey(pairs, ps[0].key) && HasKey(run, ps[0].key);
    forall i {:trigger run[i]} | 0 <= i < |run| ensures EntryOf(kind, ps, run[i].key, run[i].val) {
      assert pairs[order[i]].key in entries;
    }
    forall k {:trigger HasKey(run, k)} ensures HasKey(ps, k) <==> HasKey(run, k) {
      assert HasKey(run, k) <==> HasKey(pairs, k);
    }
  }

  class Collector {
    const kind: Kind
    const optimalSize: nat
    var list: seq<Pair>
    var entries: map<Key, Value>
    var size: nat
    var providers: seq<Provider>
    var allFlushed: bool
    ghost var chunk: seq<Pair>
    ghost var chunks: seq<seq<Pair>>
    ghost var runs: seq<seq<Pair>>
    ghost var orders: seq<seq<nat>>

    /** Each provider gives the sorted run of what was collected for it. */
    ghost predicate Flushed()
      reads this
    {
      && |providers| == |chunks| == |runs| == |orders|
      && (forall p {:trigger Provides(providers[p], runs[p])} :: 0 <= p < |runs| ==> Provides(providers[p], runs[p]))
      && forall p {:trigger RunOf(kind, chunks[p], runs[p], orders[p])} :: 0 <= p < |runs| ==>
          RunOf(kind, chunks[p], runs[p], orders[p])
    }

    ghost predicate Valid()
      reads this
    {
      Flushed() && (if allFlushed then chunk == [] else BufferOf(kind, list, entries, chunk))
    }

    /** All pairs in the order they were collected. */
    ghost function Collected(): seq<Pair>
      requires Valid()
      reads this
    {
      Flat(chunks, |chunks|) + chunk
    }

    constructor (kind: Kind, optimalSize: nat)
      ensures Valid() && !allFlushed && Collected() == [] && this.kind == kind
    {
      this.kind, this.optimalSize := kind, optimalSize;
      list, entries, size, providers, allFlushed := [], map[], 0, [], false;
      chunk, chunks, runs, orders := [], [], [], [];
    }

    /** The bytes the buffer counts for a pair. */
    function Grows(k: Key, v: Value): nat
      reads this
    {
      match kind
      case Slice => |k| + |v| + 32
      case Append => (if k in entries then 0 else |k|) + |v|
      case Oldest => if k in entries then 0 else 2 * |k| + |v|
    }

    /** Collect: the buffer is flushed when it is full. */
    method Collect(k: Key, v: Value)
      requires Valid() && !allFlushed
      modifies this
      ensures Valid() && !allFlushed && Collected() == old(Collected()) + [Pair(k, v)]
    {
      assert Flat(chunks, |chunks|) + (chunk + [Pair(k, v)]) == Collected() + [Pair(k, v)];
      size := size + Grows(k, v);
      list, entries := Put(kind, list, entries, Pair(k, v), chunk);
      chunk := chunk + [Pair(k, v)];
      if size >= optimalSize {
        FlushBuffer(false);
      }
    }

    /** flushBuffer: an empty buffer is left alone; a single last one may stay in memory. */
    method FlushBuffer(canStoreInRam: bool)
      requires Valid() && !allFlushed
      modifies this
      ensures Valid() && Collected() == old(Collected()) && chunk == [] && (!canStoreInRam ==> !allFlushed)
    {
      if (if kind == Slice then |list| == 0 else |entries| == 0) {
        EmptyBuffer(kind, list, entries, chunk);
        return;
      }
      FullBuffer(kind, list, entries, chunk);
      var inRam := canStoreInRam && |providers| == 0;
      var provider;
      ghost var run, order;
      provider, run, order := Provide(kind, list, entries, chunk, inRam);
      allFlushed := inRam;
      AddRun(provider, run, order);
      list, entries, size := [], map[], 0;
    }

    method AddRun(provider: Provider, ghost run: seq<Pair>, ghost order: seq<nat>)
      requires Flushed() && Provides(provider, run) && RunOf(kind, chunk, run, order)
      modifies this`providers, this`chunk, this`chunks, this`runs, this`orders
      ensures Flushed() && chunk == [] && Flat(chunks, |chunks|) == old(Flat(chunks, |chunks|) + chunk)
    {
      FlatMore(chunks, chunk);
      providers, chunks, runs, orders := providers + [provider], chunks + [chunk], runs + [run], orders + [order];
      chunk := [];
      forall p | 0 <= p < |runs| ensures Provides(providers[p], runs[p]) && RunOf(kind, chunks[p], runs[p], orders[p]) {
        if p < |runs| - 1 {
          assert old(Provides(providers[p], runs[p])) && old(RunOf(kind, chunks[p], runs[p], orders[p]));
        }
      }
    }

    /** Load: what is delivered to the loader, and what the identity loader passes on to the table. */
    method Load() returns (out: seq<Pair>, stored: seq<Pair>, ghost order: seq<nat>)
      requires Valid()
      modifies this
      ensures Valid() && Collected() == old(Collected()) && Sorted(out)
      ensures forall k: Key {:trigger SameKey(Collected(), out, k)} :: SameKey(Collected(), out, k)
      ensures PassedOn(kind, Collected(), stored, order) && (kind != Oldest ==> out == stored)
    {
      if !allFlushed {
        FlushBuffer(true);
      }
      assert Collected() == Flat(chunks, |chunks|);
      ghost var from;
      AllSorted();
      out, from := MergeSortFiles(providers, runs);
      DeliveredSorted(runs, from, out);
      forall k: Key ensures SameKey(Collected(), out, k) {
        AllKeys(k);
        DeliversKeys(chunks, runs, from, out, k);
      }
      order, stored := [], out;
      match kind
      case Slice =>
        SliceRuns();
        order := DeliversStableSort(chunks, runs, orders, from, out);
      case Append =>
        AppendRuns();
        forall k ensures Concat(out, |out|, k) == Concat(Collected(), |Collected()|, k) {
          DeliversConcat(chunks, runs, from, out, k);
        }
      case Oldest =>
        OldRuns();
        stored := SkipRepeated(out);
        StrictSorted(stored);
        forall k ensures FirstStored(Collected(), stored, k) {
          StoresFirsts(chunks, runs, from, out, stored, k);
        }
    }

    /** Load into a table, with the identity loader and a table without duplicate values per key. Where all keys are
        behind the end of the table they are appended: each may have one value, and empty values delete nothing.
        Otherwise they are put: the last pair of a key decides. */
    method LoadInto(t: Table, last: Option<Key>)
        returns (r: Option<Table>, ghost passed: seq<Pair>, ghost order: seq<nat>)
      requires Valid() && IsLast(t, last)
      modifies this
      ensures Valid() && Collected() == old(Collected()) && PassedOn(kind, Collected(), passed, order)
      ensures Loaded(t, r, passed, EndOfBucket(Collected(), last))
    {
      var out, stored;
      out, stored, order := Load();
      var canUseAppend := out != [] && (last.None? || Less(last.value, out[0].key));
      AppendsAll(Collected(), out, last);
      r := StorePairs(t, stored, canUseAppend);
      passed := stored;
      if canUseAppend && passed != [] {
        PassedKey(kind, Collected(), passed, order);
        Behind(t, last, Collected(), passed[0].key);
      }
      LoadedRight(t, passed, canUseAppend);
    }

    lemma AllKeys(k: Key)
      requires Flushed()
      ensures |chunks| == |runs| && forall p :: 0 <= p < |runs| ==> SameKey(chunks[p], runs[p], k)
    {
      forall p | 0 <= p < |runs| ensures SameKey(chunks[p], runs[p], k) {
        assert RunOf(kind, chunks[p], runs[p], orders[p]);
        RunKeys(kind, chunks[p], runs[p], orders[p], k);
      }
    }

    lemma AllSorted()
      requires Flushed()
      ensures forall p {:trigger Sorted(runs[p])} :: 0 <= p < |runs| ==> Sorted(runs[p])
    {
      forall p | 0 <= p < |runs| ensures Sorted(runs[p]) {
        assert RunOf(kind, chunks[p], runs[p], orders[p]);
      }
    }

    lemma SliceRuns()
      requires Flushed() && kind == Slice
      ensures SortedRuns(chunks, runs, orders)
    {
      forall p | 0 <= p < |runs| ensures SortedRun(chunks[p], runs[p], orders[p]) {
        assert RunOf(kind, chunks[p], runs[p], orders[p]);
      }
    }

    lemma AppendRuns()
      requires Flushed() && kind == Append
      ensures AppendedRuns(chunks, runs)
    {
      forall p | 0 <= p < |runs| ensures AppendedRun(chunks[p], runs[p]) {
        assert RunOf(kind, chunks[p], runs[p], orders[p]);
      }
    }

    lemma OldRuns()
      requires Flushed() && kind == Oldest
      ensures OldestRuns(chunks, runs)
    {
      forall p | 0 <= p < |runs| ensures OldestRun(chunks[p], runs[p]) {
        assert RunOf(kind, chunks[p], runs[p], orders[p]);
      }
    }
  }

  /** What is passed on of all that was collected: its stable sort; or in sorted order the same keys, with their
      values one after the other; or in sorted order the first value of every key that is not empty. */
  ghost predicate PassedOn(kind: Kind, all: seq<Pair>, passed: seq<Pair>, order: seq<nat>) {
    && Sorted(passed)
    && match kind
       case Slice => Ordered(all, order, |all|) && passed == Arranged(all, order)
       case Append =>
         && (forall k: Key {:trigger SameKey(all, passed, k)} :: SameKey(all, passed, k))
         && forall k :: Concat(passed, |passed|, k) == Concat(all, |all|, k)
       case Oldest => Strict(passed) && forall k :: FirstStored(all, passed, k)
  }

  lemma StrictSorted(ps: seq<Pair>)
    requires Strict(ps)
    ensures Sorted(ps)
  {
    forall i, j {:trigger Less(ps[j].key, ps[i].key)} | 0 <= i < j < |ps| ensures !Less(ps[j].key, ps[i].key) {
      assert Less(ps[i].key, ps[j].key);
      LessAsymmetric(ps[i].key, ps[j].key);
    }
  }

  /** All collected keys are behind the end of the table. */
  ghost predicate EndOfBucket(all: seq<Pair>, last: Option<Key>) {
    all != [] && (last.None? || forall i {:trigger all[i]} :: 0 <= i < |all| ==> Less(last.value, all[i].key))
  }

  /** The first key that is delivered is the least, so that it speaks for all. */
  lemma AppendsAll(all: seq<Pair>, out: seq<Pair>, last: Option<Key>)
    requires Sorted(out) && forall k: Key {:trigger SameKey(all, out, k)} :: SameKey(all, out, k)
    ensures (out != [] && (last.None? || Less(last.value, out[0].key))) <==> EndOfBucket(all, last)
  {
    if out == [] {
      assert all != [] ==> SameKey(all, out, all[0].key) && HasKey(all, all[0].key);
    } else {
      assert SameKey(all, out, out[0].key) && HasKey(out, out[0].key);
      if last.Some? && Less(last.value, out[0].key) {
        forall i | 0 <= i < |all| ensures Less(last.value, all[i].key) {
          KeyBehind(all, out, last.value, i);
        }
      }
    }
  }

  lemma KeyBehind(all: seq<Pair>, out: seq<Pair>, last: Key, i: nat)
    requires Sorted(out) && out != [] && Less(last, out[0].key) && i < |all| && SameKey(all, out, all[i].key)
    ensures Less(last, all[i].key)
  {
    assert HasKey(all, all[i].key);
    var a :| 0 <= a < |out| && out[a].key == all[i].key;
    FirstBelow(out, a);
    LessTotal(out[0].key, out[a].key);
    if out[0].key != out[a].key {
      LessTransitive(last, out[0].key, out[a].key);
    }
  }

  lemma {:induction false} PassedKey(kind: Kind, all: seq<Pair>, passed: seq<Pair>, order: seq<nat>)
    requires PassedOn(kind, all, passed, order) && passed != []
    ensures HasKey(all, passed[0].key)
  {
    assert HasKey(passed, passed[0].key);
    match kind
    case Slice => assert passed[0] == all[order[0]];
    case Append => assert SameKey(all, passed, passed[0].key);
    case Oldest => assert FirstStored(all, passed, passed[0].key);
  }

  lemma Behind(t: Table, last: Option<Key>, all: seq<Pair>, k: Key)
    requires IsLast(t, last) && EndOfBucket(all, last) && HasKey(all, k)
    ensures AllBelow(t, k)
  {
    forall j | j in t ensures Less(j, k) {
      LessTotal(last.value, j);
      if j != last.value {
        LessTransitive(j, last.value, k);
      }
    }
  }

  ghost predicate LoadedAt(t: Table, u: Table, passed: seq<Pair>, append: bool, k: Key) {
    if append then Added(t, u, passed, |passed|, k) else Holds(t, u, passed, |passed|, k)
  }

  /** What a load leaves in the table. */
  ghost predicate Loaded(t: Table, r: Option<Table>, passed: seq<Pair>, append: bool) {
    && (r == Some(PutAll(t, passed, |passed|)) <==> !append || LastOnly(passed, |passed|))
    && (r.None? <==> append && Repeats(passed, |passed|))
    && (r.Some? ==>
        forall k: Key :: LoadedAt(t, r.value, passed, append, k))
  }

  lemma LoadedRight(t: Table, passed: seq<Pair>, append: bool)
    requires Sorted(passed) && (append && passed != [] ==> AllBelow(t, passed[0].key))
    ensures Loaded(t, StoreAll(t, passed, append, |passed|), passed, append)
  {
    if append {
      AppendOutcome(t, passed, |passed|);
      AppendIsPut(t, passed, |passed|);
    } else {
      PutIsPut(t, passed, |passed|);
      forall k: Key ensures Holds(t, PutAll(t, passed, |passed|), passed, |passed|, k) {
        PutHolds(t, passed, |passed|, k);
      }
    }
  }

  /** A key is stored exactly if it is not empty and was collected, with its first value. */
  ghost predicate FirstStored(all: seq<Pair>, stored: seq<Pair>, k: Key) {
    && (HasKey(stored, k) <==> k != [] && HasKey(all, k))
    && forall s, i: nat :: 0 <= s < |stored| && stored[s].key == k && IsFirst(all, i, k) ==> stored[s].val == all[i].val
  }

  lemma EmptyBuffer(kind: Kind, list: seq<Pair>, entries: map<Key, Value>, ps: seq<Pair>)
    requires BufferOf(kind, list, entries, ps) && if kind == Slice then |list| == 0 else |entries| == 0
    ensures ps == []
  {
    assert ps != [] ==> HasKey(ps, ps[0].key);
  }

  lemma FullBuffer(kind: Kind, list: seq<Pair>, entries: map<Key, Value>, ps: seq<Pair>)
    requires BufferOf(kind, list, entries, ps) && if kind == Slice then |list| > 0 else |entries| > 0
    ensures |ps| > 0
  {
    if kind != Slice {
      var k :| k in entries;
      assert HasKey(ps, k);
    }
  }

  lemma {:induction false} FlatSame(a: seq<seq<Pair>>, b: seq<seq<Pair>>, n: nat)
    requires n <= |a| && n <= |b| && forall i :: 0 <= i < n ==> a[i] == b[i]
    ensures Flat(a, n) == Flat(b, n)
  {
    if n > 0 {
      FlatSame(a, b, n - 1);
    }
  }

  lemma {:induction false} FlatMore(chunks: seq<seq<Pair>>, chunk: seq<Pair>)
    ensures Flat(chunks + [chunk], |chunks| + 1) == Flat(chunks, |chunks|) + chunk
  {
    FlatSame(chunks + [chunk], chunks, |chunks|);
  }

  lemma {:induction false} DeliveredSorted(runs: seq<seq<Pair>>, from: seq<Src>, out: seq<Pair>)
    requires Delivered(runs, from) && |out| == |from|
    requires forall a {:trigger out[a]} :: 0 <= a < |out| ==> out[a] == At(runs, from[a])
    ensures Sorted(out) && AllWithin(runs, from) && forall b :: 0 <= b < |out| ==> out[b] == At(runs, from[b])
  {
    forall i, j {:trigger Less(out[j].key, out[i].key)} | 0 <= i < j < |out| ensures !Less(out[j].key, out[i].key) {
      assert Earlier(runs, from[i], from[j]);
      LessIrreflexive(out[i].key);
      if Less(out[i].key, out[j].key) {
        LessAsymmetric(out[i].key, out[j].key);
      }
    }
  }
}
