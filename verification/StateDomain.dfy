/** One state type of the aggregator: its summary table, change files, state files and arch.
    To its readers it is a map from keys to values. */
module StateDomain {
  import opened ByteKeys
  import opened MergeCursors
  import opened StateMerge
  import opened StateFiles
  import opened ChangeFiles
  import opened MergePlan

  /** The change file of one step of blocks. */
  datatype Chunk = Chunk(endBlock: nat, records: seq<Change>)

  /** The records of the change files from chunk i on. */
  function Records(chunks: seq<Chunk>, i: nat): seq<Change>
    requires i <= |chunks|
    decreases |chunks| - i
  {
    if i == |chunks| then [] else chunks[i].records + Records(chunks, i + 1)
  }

  lemma {:induction false} RecordsDrop(chunks: seq<Chunk>, i: nat)
    requires i < |chunks|
    ensures Records(chunks[1..], i) == Records(chunks, i + 1)
    decreases |chunks| - i
  {
    if i + 1 < |chunks| {
      RecordsDrop(chunks, i + 1);
    }
  }

  lemma {:induction false} RecordsMore(chunks: seq<Chunk>, i: nat, last: Chunk)
    requires i <= |chunks|
    ensures Records(chunks + [last], i) == Records(chunks, i) + last.records
    decreases |chunks| - i
  {
    if i == |chunks| {
      assert Records(chunks + [last], i + 1) == [];
      assert last.records + [] == [] + last.records;
    } else {
      RecordsMore(chunks, i + 1, last);
    }
  }

  lemma {:induction false} RecordsLast(chunks: seq<Chunk>, i: nat, more: seq<Change>)
    requires i < |chunks|
    ensures var n := |chunks| - 1;
      Records(chunks[n := Chunk(chunks[n].endBlock, chunks[n].records + more)], i) == Records(chunks, i) + more
    decreases |chunks| - i
  {
    var n := |chunks| - 1;
    var chunks' := chunks[n := Chunk(chunks[n].endBlock, chunks[n].records + more)];
    if i == n {
      assert Records(chunks, i + 1) == [] == Records(chunks', i + 1);
      assert (chunks[n].records + more) + [] == (chunks[n].records + []) + more;
    } else {
      RecordsLast(chunks, i + 1, more);
    }
  }

  /** A merge in the background: planned, and its file computed, but not switched to yet. */
  datatype Task = Idle | Merging(plan: Plan, file: File)

  /** What a reader sees. */
  function ViewOf(table: map<Key, Entry>, files: seq<File>, k: Key): seq<nat> {
    if k in table then table[k].val else ValueOf(Seek(files, |files|, k))
  }

  /** The keys of a state file: those of the type, and before them the anchors of their addresses. */
  ghost predicate AnchorsOk(items: seq<Item>, prefixLen: nat) {
    prefixLen > 0 ==> forall i {:trigger items[i]} :: 0 <= i < |items| ==> Anchored(items, items[i], prefixLen)
  }

  ghost predicate Anchored(items: seq<Item>, x: Item, prefixLen: nat) {
    |x.key| >= prefixLen && if |x.key| == prefixLen then x.val == [] else Holds(items, Item(x.key[..prefixLen], []))
  }

  /** The chunks follow the files and each other, a step of blocks each. */
  ghost predicate ChunksOk(chunks: seq<Chunk>, next: nat, step: nat) {
    forall i {:trigger FollowsOn(chunks, i, next, step)} :: 0 <= i < |chunks| ==> FollowsOn(chunks, i, next, step)
  }

  ghost predicate FollowsOn(chunks: seq<Chunk>, i: nat, next: nat, step: nat)
    requires i < |chunks|
  {
    chunks[i].endBlock + 1 == step + if i == 0 then next else chunks[i - 1].endBlock + 1
  }

  ghost predicate TaskOk(task: Task, files: seq<File>, frozen: nat, prefixLen: nat, step: nat) {
    task.Merging? ==>
      && PlanOk(files, task.plan, step) && task.plan.hi <= frozen <= |files|
      && MergeOf(files, task.plan.lo, task.plan.hi, task.file, prefixLen)
  }

  // ---- one more write

  function Written(table: map<Key, Entry>, k: Key, v: seq<nat>): map<Key, Entry> {
    table[k := Entry((if k in table then table[k].count else 0) + 1, v)]
  }

  lemma {:induction false} WrittenOk(table: map<Key, Entry>, rs: seq<Change>, k: Key, v: seq<nat>)
    requires TableOk(table, rs)
    ensures TableOk(Written(table, k, v), rs + [Change(k, v)])
  {
    forall j ensures SumsUp(Written(table, k, v), rs + [Change(k, v)], j) {
      assert SumsUp(table, rs, j);
      Joined(rs, [Change(k, v)], 1, j);
      assert Count([Change(k, v)], 1, j) == if j == k then 1 else 0;
    }
  }

  // ---- an aggregation

  function ItemsOf(bt: seq<AggItem>): (r: seq<Item>)
    ensures |r| == |bt| && forall i :: 0 <= i < |r| ==> r[i] == Item(bt[i].key, bt[i].val)
  {
    seq(|bt|, i requires 0 <= i < |bt| => Item(bt[i].key, bt[i].val))
  }

  /** A key in the tree has its last value there. */
  lemma {:induction false} TreeHas(bt: seq<AggItem>, rs: seq<Change>, prefixLen: nat, k: Key)
    requires TreeOf(bt, rs, |rs|, prefixLen) && KeyOk(k, prefixLen)
    ensures HasKey(ItemsOf(bt), k) <==> Count(rs, |rs|, k) > 0
    ensures forall i :: 0 <= i < |bt| && bt[i].key == k ==> bt[i].val == Last(rs, |rs|, k)
  {
    CountHas(rs, |rs|, k);
    forall i | 0 <= i < |bt| && bt[i].key == k ensures bt[i].val == Last(rs, |rs|, k) && Count(rs, |rs|, k) > 0 {
      assert EntryOk(bt[i], rs, |rs|, prefixLen);
    }
    if j :| 0 <= j < |rs| && rs[j].key == k {
      assert InTree(bt, rs[j].key, prefixLen);
      var i :| 0 <= i < |bt| && bt[i].key == k;
      assert ItemsOf(bt)[i].key == k;
    }
  }

  /** Moving the oldest records from the table to a file is not seen by the readers. */
  lemma {:induction false} AggregateUnseen(table: map<Key, Entry>, table': map<Key, Entry>, files: seq<File>,
                                           file: File,
                                           rs: seq<Change>, rest: seq<Change>, bt: seq<AggItem>, prefixLen: nat, k: Key)
    requires TreeOf(bt, rs, |rs|, prefixLen) && file.items == ItemsOf(bt) && KeyOk(k, prefixLen)
    requires SumsUp(table, rs + rest, k) && SumsUp(table', rest, k)
    ensures ViewOf(table', files + [file], k) == ViewOf(table, files, k)
  {
    Joined(rs, rest, |rest|, k);
    TreeHas(bt, rs, prefixLen, k);
    SeekSame(files, files + [file], |files|, k);
    var i := Find(file.items, |file.items|, k);
    assert i < |file.items| ==> HasKey(file.items, k);
  }

  lemma {:induction false} TreeFile(bt: seq<AggItem>, rs: seq<Change>, prefixLen: nat)
    requires TreeOf(bt, rs, |rs|, prefixLen) && RecordsOk(rs, prefixLen)
    ensures Ascending(ItemsOf(bt)) && AnchorsOk(ItemsOf(bt), prefixLen)
  {
    var items := ItemsOf(bt);
    if prefixLen > 0 {
      forall i | 0 <= i < |items| ensures Anchored(items, items[i], prefixLen) {
        TreeAnchored(bt, rs, prefixLen, i);
      }
    }
  }

  lemma {:induction false} TreeAnchored(bt: seq<AggItem>, rs: seq<Change>, prefixLen: nat, i: nat)
    requires TreeOf(bt, rs, |rs|, prefixLen) && RecordsOk(rs, prefixLen) && prefixLen > 0 && i < |bt|
    ensures Anchored(ItemsOf(bt), ItemsOf(bt)[i], prefixLen)
  {
    var k := bt[i].key;
    assert EntryOk(bt[i], rs, |rs|, prefixLen);
    if bt[i].count > 0 {
      CountHas(rs, |rs|, k);
      var j :| 0 <= j < |rs| && rs[j].key == k;
      assert InTree(bt, rs[j].key, prefixLen);
      var m :| 0 <= m < |bt| && bt[m].key == k[..prefixLen];
      assert EntryOk(bt[m], rs, |rs|, prefixLen);
      assert ItemsOf(bt)[m] == Item(k[..prefixLen], []);
    }
  }

  /** Some changed key of the first n has its entry at p. */
  ghost predicate Hit(hash: Key -> nat, size: nat, bt: seq<AggItem>, n: nat, p: nat)
    requires size > 0 && n <= |bt|
  {
    exists i :: 0 <= i < n && bt[i].count > 0 && Slot(hash, size, bt[i].key) == p
  }

  /** updateArch: the entries of the keys are raised to the last block of the new file. */
  method UpdateArch(arch: seq<nat>, hash: Key -> nat, bt: seq<AggItem>, blockTo: nat) returns (arch': seq<nat>)
    ensures |arch'| == |arch| && forall p :: 0 <= p < |arch| ==> arch'[p] >= arch[p]
    ensures |arch| > 0 ==> forall i :: 0 <= i < |bt| && bt[i].count > 0 ==>
        arch'[Slot(hash, |arch|, bt[i].key)] >= blockTo
    ensures forall p :: 0 <= p < |arch| && arch'[p] != arch[p] ==> arch'[p] == blockTo && Hit(hash, |arch|, bt, |bt|, p)
  {
    arch' := arch;
    if |arch| == 0 {
      return;
    }
    for n := 0 to |bt|
      invariant |arch'| == |arch| && forall p :: 0 <= p < |arch| ==> arch'[p] >= arch[p]
      invariant forall i :: 0 <= i < n && bt[i].count > 0 ==> arch'[Slot(hash, |arch|, bt[i].key)] >= blockTo
      invariant forall p :: 0 <= p < |arch| && arch'[p] != arch[p] ==>
          arch'[p] == blockTo && Hit(hash, |arch|, bt, n, p)
    {
      if bt[n].count > 0 {
        var p := Slot(hash, |arch|, bt[n].key);
        if arch'[p] < blockTo {
          arch' := arch'[p := blockTo];
        }
      }
    }
  }

  lemma {:induction false} ArchAppended(files: seq<File>, file: File, arch: seq<nat>, arch': seq<nat>, hash: Key -> nat,
                                        bt: seq<AggItem>,
                                        rs: seq<Change>, prefixLen: nat)
    requires ArchOk(files, arch, hash, prefixLen) && TreeOf(bt, rs, |rs|, prefixLen) && file.items == ItemsOf(bt)
    requires |arch'| == |arch| && (forall p :: 0 <= p < |arch| ==> arch'[p] >= arch[p]) && 1 <= file.endBlock
    requires file.startBlock <= file.endBlock
    requires |arch| > 0 ==> forall i :: 0 <= i < |bt| && bt[i].count > 0 ==>
        arch'[Slot(hash, |arch|, bt[i].key)] >= file.endBlock
    ensures ArchOk(files + [file], arch', hash, prefixLen)
  {
    var r := files + [file];
    if |arch| > 0 {
      forall f, i | 0 <= f < |r| && 0 <= i < |r[f].items| && !Anchor(r[f].items[i], prefixLen)
        ensures Marked(r[f], arch', hash, r[f].items[i].key) {
        if f < |files| {
          assert Marked(files[f], arch, hash, files[f].items[i].key);
        } else {
          assert EntryOk(bt[i], rs, |rs|, prefixLen);
        }
      }
    }
  }

  lemma {:induction false} AppendedOk(files: seq<File>, file: File)
    requires FilesOk(files) && Ascending(file.items) && file.startBlock == NextBlock(files, |files|) <= file.endBlock
    ensures FilesOk(files + [file])
  {
    var r := files + [file];
    forall i, j | 0 <= i < j < |r| ensures InOrder(r, i, j) {
      if j < |files| {
        assert InOrder(files, i, j);
      } else if i < |files| - 1 {
        assert InOrder(files, i, |files| - 1);
      }
    }
  }

  lemma {:induction false} TaskAppended(task: Task, files: seq<File>, file: File, frozen: nat, prefixLen: nat,
                                        step: nat)
    requires TaskOk(task, files, frozen, prefixLen, step)
    ensures TaskOk(task, files + [file], frozen, prefixLen, step)
  {
    if task.Merging? {
      var lo, hi := task.plan.lo, task.plan.hi;
      assert CursorsOf(files + [file], lo, hi) == CursorsOf(files, lo, hi);
    }
  }

  // ---- a merge

  lemma {:induction false} SwitchedArch(files: seq<File>, lo: nat, hi: nat, file: File, arch: seq<nat>,
                                        hash: Key -> nat, prefixLen: nat)
    requires FilesOk(files) && MergeOf(files, lo, hi, file, prefixLen) && ArchOk(files, arch, hash, prefixLen)
    ensures ArchOk(Switched(files, lo, hi, file), arch, hash, prefixLen)
  {
    var r := Switched(files, lo, hi, file);
    if |arch| > 0 {
      forall f, i | 0 <= f < |r| && 0 <= i < |r[f].items| && !Anchor(r[f].items[i], prefixLen)
        ensures Marked(r[f], arch, hash, r[f].items[i].key)
      {
        if f == lo {
          MergedMarked(files, lo, hi, file, arch, hash, prefixLen, i);
        } else {
          var g := if f < lo then f else f + (hi - lo) - 1;
          assert Marked(files[g], arch, hash, files[g].items[i].key);
        }
      }
    }
  }

  lemma {:induction false} MergedFromOne(files: seq<File>, lo: nat, hi: nat, file: File, prefixLen: nat, i: nat)
      returns (f: nat, j: nat)
    requires FilesOk(files) && MergeOf(files, lo, hi, file, prefixLen) && i < |file.items|
    ensures lo <= f < hi && j < |files[f].items| && files[f].items[j] == file.items[i]
  {
    var cs, x := CursorsOf(files, lo, hi), file.items[i];
    assert Holds(file.items, x);
    MergedNewest(cs, file.startBlock, prefixLen, Stream(files, lo, hi, file, prefixLen), file.items, x);
    NewestIn(files, lo, hi, x);
    f :| lo <= f < hi && HasKey(files[f].items, x.key) && Holds(files[f].items, x);
    j :| 0 <= j < |files[f].items| && files[f].items[j] == x;
  }

  lemma {:induction false} MergedMarked(files: seq<File>, lo: nat, hi: nat, file: File, arch: seq<nat>,
                                        hash: Key -> nat, prefixLen: nat, i: nat)
    requires FilesOk(files) && MergeOf(files, lo, hi, file, prefixLen) && ArchOk(files, arch, hash, prefixLen)
    requires |arch| > 0
    requires i < |file.items| && !Anchor(file.items[i], prefixLen)
    ensures Marked(file, arch, hash, file.items[i].key)
  {
    var f, j := MergedFromOne(files, lo, hi, file, prefixLen, i);
    assert Marked(files[f], arch, hash, files[f].items[j].key);
    assert f > lo ==> InOrder(files, lo, f);
  }

  /** The anchor of an address is newest with its empty value. */
  lemma {:induction false} AnchorNewest(files: seq<File>, lo: nat, hi: nat, prefixLen: nat, a: Key, f: nat)
    requires FilesOk(files) && lo <= f < hi <= |files|
    requires (forall g :: lo <= g < hi ==> AnchorsOk(files[g].items, prefixLen))
    requires |a| == prefixLen > 0 && Holds(files[f].items, Item(a, []))
    ensures Newest(CursorsOf(files, lo, hi), Item(a, []))
  {
    var i :| 0 <= i < |files[f].items| && files[f].items[i] == Item(a, []);
    assert files[f].items[i].key == a;
    assert HasKey(files[f].items, a);
    SeekNewest(files, lo, hi, hi, a);
    var x := Item(a, Seek(files, hi, a).val);
    NewestIn(files, lo, hi, x);
    var g :| lo <= g < hi && HasKey(files[g].items, a) && Holds(files[g].items, x);
    var j :| 0 <= j < |files[g].items| && files[g].items[j] == x;
    assert Anchored(files[g].items, files[g].items[j], prefixLen);
  }

  /** If the files have every item below an anchor, so has the merged file. */
  lemma {:induction false} MergedAnchored(files: seq<File>, lo: nat, hi: nat, file: File, prefixLen: nat, i: nat)
    requires FilesOk(files) && MergeOf(files, lo, hi, file, prefixLen) && prefixLen > 0 && i < |file.items|
    requires forall g :: lo <= g < hi ==> AnchorsOk(files[g].items, prefixLen)
    ensures Anchored(file.items, file.items[i], prefixLen)
  {
    var x := file.items[i];
    var f, j := MergedFromOne(files, lo, hi, file, prefixLen, i);
    assert Anchored(files[f].items, files[f].items[j], prefixLen);
    if |x.key| > prefixLen {
      var a := Item(x.key[..prefixLen], []);
      AnchorNewest(files, lo, hi, prefixLen, a.key, f);
      assert Holds(file.items, x);
      AnchorKept(CursorsOf(files, lo, hi), file.startBlock, prefixLen, Stream(files, lo, hi, file, prefixLen),
          file.items, a, x);
    }
  }

  lemma {:induction false} SwitchedAnchors(files: seq<File>, lo: nat, hi: nat, file: File, prefixLen: nat)
    requires FilesOk(files) && MergeOf(files, lo, hi, file, prefixLen)
    requires forall g :: 0 <= g < |files| ==> AnchorsOk(files[g].items, prefixLen)
    ensures var r := Switched(files, lo, hi, file); forall g :: 0 <= g < |r| ==> AnchorsOk(r[g].items, prefixLen)
  {
    if prefixLen > 0 {
      forall i | 0 <= i < |file.items| ensures Anchored(file.items, file.items[i], prefixLen) {
        MergedAnchored(files, lo, hi, file, prefixLen, i);
      }
    }
  }
}
