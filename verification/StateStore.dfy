/** The operations of one state type. Each says what its readers see afterwards. */
module StateStore {
  import opened ByteKeys
  import opened MergeCursors
  import opened StateMerge
  import opened StateFiles
  import opened ChangeFiles
  import opened MergePlan
  import opened StateDomain
  import opened PrefixRuns

  /** The reading of the newest value, file after file. */
  method Descend(files: seq<File>, n: nat, k: Key) returns (r: Read)
    requires n <= |files|
    ensures r == Seek(files, n, k)
  {
    var i: nat := n;
    while i > 0
      invariant i <= n && Seek(files, n, k) == Seek(files, i, k)
    {
      var items := files[i - 1].items;
      var j := Find(items, |items|, k);
      if j < |items| {
        return Found(items[j].val, files[i - 1].startBlock);
      }
      i := i - 1;
    }
    r := Missing;
  }

  /** The state files of a type with their arch. */
  ghost predicate Registry(files: seq<File>, frozen: nat, arch: seq<nat>, hash: Key -> nat, prefixLen: nat, step: nat) {
    && step > 1 && FilesOk(files) && Partition(files, step) && frozen <= |files| && ArchOk(files, arch, hash, prefixLen)
    && forall f :: 0 <= f < |files| ==> AnchorsOk(files[f].items, prefixLen)
  }

  /** The switch to a merged file keeps the registry and is not seen by the readers. */
  lemma {:induction false} SwitchedRegistry(files: seq<File>, frozen: nat, arch: seq<nat>, hash: Key -> nat,
                                            prefixLen: nat, step: nat, p: Plan, file: File)
    requires Registry(files, frozen, arch, hash, prefixLen, step)
    requires TaskOk(Merging(p, file), files, frozen, prefixLen, step)
    ensures Registry(Switched(files, p.lo, p.hi, file), frozen - (p.hi - p.lo) + 1, arch, hash, prefixLen, step)
  {
    SwitchedOk(files, p.lo, p.hi, file, prefixLen);
    SwitchedPartition(files, file, p, step);
    SwitchedArch(files, p.lo, p.hi, file, arch, hash, prefixLen);
    SwitchedAnchors(files, p.lo, p.hi, file, prefixLen);
  }

  lemma {:induction false} SwitchedViews(table: map<Key, Entry>, files: seq<File>, frozen: nat, prefixLen: nat,
                                         step: nat, p: Plan, file: File)
    requires FilesOk(files) && TaskOk(Merging(p, file), files, frozen, prefixLen, step)
    ensures forall k {:trigger ViewOf(table, files, k)}
      {:trigger ViewOf(table, Switched(files, p.lo, p.hi, file), k)} ::
      KeyOk(k, prefixLen) ==> ViewOf(table, Switched(files, p.lo, p.hi, file), k) == ViewOf(table, files, k)
    ensures var r := Switched(files, p.lo, p.hi, file); NextBlock(r, |r|) == NextBlock(files, |files|)
  {
    SwitchedNext(files, file, p.lo, p.hi);
    forall k | KeyOk(k, prefixLen)
      ensures ViewOf(table, Switched(files, p.lo, p.hi, file), k) == ViewOf(table, files, k) {
      SwitchUnseen(files, p.lo, p.hi, file, prefixLen, k);
    }
  }

  /** aggregate and updateArch: the tree of the oldest records, as a file, and what is left in
      the table. */
  method AggregateChunk(table: map<Key, Entry>, rs: seq<Change>, ghost rest: seq<Change>, files: seq<File>, frozen: nat,
                        arch: seq<nat>,
                        hash: Key -> nat, prefixLen: nat, step: nat, blockTo: nat)
      returns (table': map<Key, Entry>, file: File, arch': seq<nat>)
    requires TableOk(table, rs + rest) && RecordsOk(rs, prefixLen)
    requires Registry(files, frozen, arch, hash, prefixLen, step)
    requires blockTo + 1 == step + NextBlock(files, |files|)
    ensures TableOk(table', rest) && file.startBlock == NextBlock(files, |files|) && file.endBlock == blockTo
    ensures Registry(files + [file], frozen, arch', hash, prefixLen, step)
    ensures forall k :: KeyOk(k, prefixLen) ==> ViewOf(table', files + [file], k) == ViewOf(table, files, k)
  {
    var bt := AggregateToBtree(rs, prefixLen);
    file := File(NextBlock(files, |files|), blockTo, ItemsOf(bt));
    Counted(table, rs + rest);
    var ok;
    ok, table' := CleanTable(table, bt);
    CleanedUp(table, table', bt, rs, rest, prefixLen);
    arch' := UpdateArch(arch, hash, bt, blockTo);
    AppendedRegistry(files, frozen, arch, arch', hash, prefixLen, step, file, bt, rs);
    forall k | KeyOk(k, prefixLen) ensures ViewOf(table', files + [file], k) == ViewOf(table, files, k) {
      assert SumsUp(table, rs + rest, k) && SumsUp(table', rest, k);
      AggregateUnseen(table, table', files, file, rs, rest, bt, prefixLen, k);
    }
  }

  lemma {:induction false} AppendedRegistry(files: seq<File>, frozen: nat, arch: seq<nat>, arch': seq<nat>,
                                            hash: Key -> nat, prefixLen: nat, step: nat,
                                            file: File, bt: seq<AggItem>, rs: seq<Change>)
    requires Registry(files, frozen, arch, hash, prefixLen, step) && TreeOf(bt, rs, |rs|, prefixLen)
    requires RecordsOk(rs, prefixLen)
    requires file.items == ItemsOf(bt) && file.startBlock == NextBlock(files, |files|)
    requires file.endBlock + 1 == step + file.startBlock
    requires |arch'| == |arch| && (forall p :: 0 <= p < |arch| ==> arch'[p] >= arch[p])
    requires |arch| > 0 ==> forall i :: 0 <= i < |bt| && bt[i].count > 0 ==>
        arch'[Slot(hash, |arch|, bt[i].key)] >= file.endBlock
    ensures Registry(files + [file], frozen, arch', hash, prefixLen, step)
  {
    TreeFile(bt, rs, prefixLen);
    AppendedOk(files, file);
    AppendedPartition(files, file, step);
    ArchAppended(files, file, arch, arch', hash, bt, rs, prefixLen);
  }

  /** A change file that ends at the block comes next. */
  ghost predicate Follows(endBlock: nat, chunks: seq<Chunk>, files: seq<File>, step: nat) {
    endBlock + 1 == step + if |chunks| == 0 then NextBlock(files, |files|) else chunks[|chunks| - 1].endBlock + 1
  }

  lemma AllSeen(files: seq<File>, blockNum: nat)
    requires NextBlock(files, |files|) <= blockNum + 1
    ensures UpTo(files, |files|, blockNum) == |files|
  {
  }

  class Domain {
    const prefixLen: nat
    const step: nat
    const hash: Key -> nat
    var table: map<Key, Entry>
    var words: seq<Change>
    var chunks: seq<Chunk>
    var files: seq<File>
    var frozen: nat
    var arch: seq<nat>
    var task: Task

    /** The change records that are not aggregated. */
    ghost function Pending(): seq<Change>
      reads `chunks, `words
    {
      Records(chunks, 0) + words
    }

    ghost function View(k: Key): seq<nat>
      reads `table, `files
    {
      ViewOf(table, files, k)
    }

    ghost predicate FilesValid()
      reads `files, `frozen, `arch
    {
      Registry(files, frozen, arch, hash, prefixLen, step)
    }

    ghost predicate TableValid()
      reads `table, `chunks, `words
    {
      RecordsOk(Pending(), prefixLen) && TableOk(table, Pending())
    }

    ghost predicate Valid()
      reads this
    {
      && FilesValid() && TableValid() && ChunksOk(chunks, NextBlock(files, |files|), step)
      && TaskOk(task, files, frozen, prefixLen, step)
    }

    constructor (step: nat, prefixLen: nat, hash: Key -> nat, archSize: nat)
      requires step > 1
      ensures Valid() && this.step == step && this.prefixLen == prefixLen && this.hash == hash
      ensures table == map[] && chunks == [] && files == [] && words == [] && task == Idle && forall k :: View(k) == []
    {
      this.step, this.prefixLen, this.hash := step, prefixLen, hash;
      table, words, chunks, files, frozen, task := map[], [], [], [], 0, Idle;
      arch := seq(archSize, _ => 0);
    }

    /** readFromFiles: the newest value among the files that end by the block. */
    method ReadFromFiles(blockNum: nat, k: Key) returns (r: Read)
      requires Valid() && KeyOk(k, prefixLen)
      ensures r == Seek(files, UpTo(files, |files|, blockNum), k)
    {
      ArchSound(files, arch, hash, prefixLen, k, blockNum);
      var bound := blockNum;
      if |arch| > 0 {
        var v := arch[Slot(hash, |arch|, k)];
        if v == 0 {
          return Missing;
        }
        var i := FirstFrom(files, 0, v);
        if i < |files| && files[i].endBlock < bound {
          bound := files[i].endBlock;
        }
      }
      r := Descend(files, UpTo(files, |files|, bound), k);
    }

    /** The block is not before the last file. */
    predicate Reaches(blockNum: nat)
      reads `files
    {
      NextBlock(files, |files|) <= blockNum + 1
    }

    /** The Reader's methods: the table first, then the files. */
    method Get(blockNum: nat, k: Key) returns (val: seq<nat>)
      requires Valid() && KeyOk(k, prefixLen)
      ensures val == if k in table then table[k].val else ValueOf(Seek(files, UpTo(files, |files|, blockNum), k))
      ensures Reaches(blockNum) ==> val == View(k)
    {
      if k in table {
        return table[k].val;
      }
      var r := ReadFromFiles(blockNum, k);
      val := ValueOf(r);
    }

    /** A new value goes to the table and to the change file. */
    method Put(k: Key, v: seq<nat>)
      requires Valid() && KeyOk(k, prefixLen)
      modifies this`table, this`words
      ensures Valid() && words == old(words) + [Change(k, v)]
      ensures forall j :: View(j) == if j == k then v else old(View(j))
    {
      WrittenOk(table, Pending(), k, v);
      assert Records(chunks, 0) + (words + [Change(k, v)]) == Pending() + [Change(k, v)];
      table, words := StateDomain.Written(table, k, v), words + [Change(k, v)];
    }

    /** UpdateAccountData, WriteAccountStorage: nothing is written if nothing changes. */
    method Update(blockNum: nat, k: Key, v: seq<nat>)
      requires Valid() && KeyOk(k, prefixLen) && Reaches(blockNum)
      modifies this`table, this`words
      ensures Valid() && forall j :: View(j) == if j == k then v else old(View(j))
      ensures words == if old(View(k)) == v then old(words) else old(words) + [Change(k, v)]
    {
      var original := Get(blockNum, k);
      if original != v {
        Put(k, v);
      }
    }

    /**
     * deleteAccount and deleteCode find a key: in the table, with a value, or with an empty value in a tree unless the
     * slice there is nil. An empty value of a file is read as nil. A tree's is nil as long as all values before it
     * in its change file are empty.
     */
    predicate Knows(k: Key, isNil: bool)
      requires frozen <= |files|
      reads `table, `files, `frozen
    {
      || k in table
      || (var r := Seek(files, |files|, k);
          r.Found? && (r.val != [] || (r.startBlock >= NextBlock(files, frozen) && !isNil)))
    }

    /** deleteAccount, deleteCode: a key that is not found stays as it is. */
    method Delete(blockNum: nat, k: Key, isNil: bool) returns (deleted: bool)
      requires Valid() && KeyOk(k, prefixLen) && Reaches(blockNum)
      modifies this`table, this`words
      ensures Valid() && forall j :: View(j) == if j == k then [] else old(View(j))
      ensures deleted == old(Knows(k, isNil)) && (old(View(k)) != [] ==> deleted)
      ensures deleted ==> words == old(words) + [Change(k, [])]
      ensures !deleted ==> words == old(words) && table == old(table)
    {
      if k !in table {
        var r := ReadFromFiles(blockNum, k);
        AllSeen(files, blockNum);
        if r.Missing? {
          return false;
        }
        if r.val == [] && (isNil || r.startBlock < NextBlock(files, frozen)) {
          return false;
        }
      }
      Put(k, []);
      deleted := true;
    }

    /** The storage part of DeleteAccount. */
    method DeleteBelow(blockNum: nat, addr: Key)
      requires Valid() && |addr| == prefixLen > 0 && NextBlock(files, |files|) <= blockNum
      modifies this`table, this`words
      ensures Valid() && forall k :: KeyOk(k, prefixLen) ==> View(k) == if HasPrefix(k, addr) then [] else old(View(k))
    {
      AllBefore(files, blockNum);
      var cs := Runs(table, files, frozen, addr, blockNum);
      ghost var rs := Pending();
      var table', deleted, stream := DeleteStream(table, cs, rs);
      TableKeys(table, rs, prefixLen);
      DeletedBelow(table, files, cs, stream, addr, deleted, prefixLen);
      forall k | KeyOk(k, prefixLen)
        ensures ViewOf(table', files, k) == if HasPrefix(k, addr) then [] else ViewOf(table, files, k) {
        DeletedView(table, table', files, cs, stream, addr, k);
      }
      assert Records(chunks, 0) + (words + deleted) == rs + deleted;
      table, words := table', words + deleted;
    }

    /** FinishTx: the words of the transaction go to the open change file. */
    method Finish()
      requires Valid() && |chunks| > 0
      modifies this`words, this`chunks
      ensures Valid() && words == [] && |chunks| == |old(chunks)|
      ensures forall i :: 0 <= i < |chunks| ==> chunks[i].endBlock == old(chunks)[i].endBlock
    {
      var n := |chunks| - 1;
      RecordsLast(chunks, 0, words);
      ghost var rs := Pending();
      ChunksSame(chunks, chunks[n := Chunk(chunks[n].endBlock, chunks[n].records + words)], NextBlock(files, |files|),
          step);
      chunks, words := chunks[n := Chunk(chunks[n].endBlock, chunks[n].records + words)], [];
      assert Pending() == rs;
    }

    /** A change file for the next step of blocks. */
    method OpenChunk(endBlock: nat)
      requires Valid() && words == []
      requires Follows(endBlock, chunks, files, step)
      modifies this`chunks
      ensures Valid() && chunks == old(chunks) + [Chunk(endBlock, [])]
    {
      RecordsMore(chunks, 0, Chunk(endBlock, []));
      ghost var rs := Pending();
      ChunksMore(chunks, endBlock, NextBlock(files, |files|), step);
      chunks := chunks + [Chunk(endBlock, [])];
      assert Pending() == rs;
    }

    /** aggregateUpto, for one type: the oldest change file becomes a B-tree, its records
        leave the table, and the tree joins the state files. */
    method AggregateOldest()
      requires Valid() && |chunks| > 0
      modifies this`table, this`chunks, this`files, this`arch
      ensures Valid() && chunks == old(chunks[1..]) && |files| == |old(files)| + 1
      ensures (forall i :: 0 <= i < |old(files)| ==> files[i] == old(files)[i])
      ensures files[|old(files)|].startBlock == NextBlock(old(files), |old(files)|)
      ensures files[|old(files)|].endBlock == old(chunks)[0].endBlock
      ensures forall k :: KeyOk(k, prefixLen) ==> View(k) == old(View(k))
    {
      ghost var rest := Records(chunks, 1) + words;
      var chunk := chunks[0];
      SplitPending(chunks, words, prefixLen);
      assert FollowsOn(chunks, 0, NextBlock(files, |files|), step);
      var table', file, arch' := AggregateChunk(table, chunk.records, rest, files, frozen, arch, hash, prefixLen, step,
          chunk.endBlock);
      TaskAppended(task, files, file, frozen, prefixLen, step);
      ChunksDrop(chunks, NextBlock(files, |files|), step);
      table, arch, files, chunks := table', arch', files + [file], chunks[1..];
    }

    /** backgroundAggregation: the oldest tree is on disk now. */
    method Freeze()
      requires Valid() && frozen < |files|
      modifies this`frozen
      ensures Valid() && frozen == old(frozen) + 1
    {
      frozen := frozen + 1;
    }

    /** backgroundMerge computes the merged file... */
    method StartMerge(p: Plan)
      requires Valid() && PlanOk(files, p, step) && p.hi <= frozen
      modifies this`task
      ensures Valid() && task.Merging? && task.plan == p
    {
      CursorsOfOk(files, p.lo, p.hi);
      var items, stream := MergeIntoStateFile(CursorsOf(files, p.lo, p.hi), p.aggFrom, prefixLen);
      var file := File(p.aggFrom, p.aggTo, items);
      assert MergedFrom(CursorsOf(files, p.lo, p.hi), p.aggFrom, prefixLen, stream, items);
      task := Merging(p, file);
    }

    /** ...and switches to it while nobody reads. */
    method FinishMerge()
      requires Valid() && task.Merging?
      modifies this`files, this`frozen, this`task
      ensures Valid() && task == Idle
      ensures files == Switched(old(files), old(task).plan.lo, old(task).plan.hi, old(task).file)
      ensures frozen == old(frozen) - (old(task).plan.hi - old(task).plan.lo) + 1
      ensures NextBlock(files, |files|) == NextBlock(old(files), |old(files)|)
      ensures old(task).plan.lo == 0 ==> |files| > 0 && files[0].startBlock == 0 && NoMarkers(files[0], prefixLen)
      ensures forall k :: KeyOk(k, prefixLen) ==> View(k) == old(View(k))
    {
      var p, file := task.plan, task.file;
      if p.lo == 0 {
        assert Adjacent(files, 0);
        MergedNoMarkers(files, p.lo, p.hi, file, prefixLen);
      }
      SwitchedRegistry(files, frozen, arch, hash, prefixLen, step, p, file);
      SwitchedViews(table, files, frozen, prefixLen, step, p, file);
      files, frozen, task := Switched(files, p.lo, p.hi, file), frozen - (p.hi - p.lo) + 1, Idle;
    }
  }

  lemma {:induction false} TableKeys(table: map<Key, Entry>, rs: seq<Change>, prefixLen: nat)
    requires TableOk(table, rs) && RecordsOk(rs, prefixLen)
    ensures forall k :: k in table ==> KeyOk(k, prefixLen)
  {
    forall k | k in table ensures KeyOk(k, prefixLen) {
      assert SumsUp(table, rs, k);
      CountHas(rs, |rs|, k);
    }
  }

  lemma {:induction false} Counted(table: map<Key, Entry>, rs: seq<Change>)
    requires TableOk(table, rs)
    ensures forall k :: k in table ==> table[k].count > 0
  {
    forall k | k in table ensures table[k].count > 0 {
      assert SumsUp(table, rs, k);
    }
  }

  lemma {:induction false} SplitPending(chunks: seq<Chunk>, words: seq<Change>, prefixLen: nat)
    requires |chunks| > 0 && RecordsOk(Records(chunks, 0) + words, prefixLen)
    ensures Records(chunks, 0) + words == chunks[0].records + (Records(chunks, 1) + words)
    ensures Records(chunks[1..], 0) == Records(chunks, 1)
    ensures RecordsOk(chunks[0].records, prefixLen) && RecordsOk(Records(chunks, 1) + words, prefixLen)
  {
    RecordsDrop(chunks, 0);
    var all, first, rest := Records(chunks, 0) + words, chunks[0].records, Records(chunks, 1) + words;
    assert all == first + rest;
    forall j | 0 <= j < |first| ensures KeyOk(first[j].key, prefixLen) {
      assert all[j] == first[j];
    }
    forall j | 0 <= j < |rest| ensures KeyOk(rest[j].key, prefixLen) {
      assert all[|first| + j] == rest[j];
    }
  }

  lemma {:induction false} ChunksSame(chunks: seq<Chunk>, chunks': seq<Chunk>, next: nat, step: nat)
    requires ChunksOk(chunks, next, step) && |chunks'| == |chunks|
    requires forall i :: 0 <= i < |chunks| ==> chunks'[i].endBlock == chunks[i].endBlock
    ensures ChunksOk(chunks', next, step)
  {
    forall i | 0 <= i < |chunks'| ensures FollowsOn(chunks', i, next, step) {
      assert FollowsOn(chunks, i, next, step);
    }
  }

  lemma {:induction false} ChunksMore(chunks: seq<Chunk>, endBlock: nat, next: nat, step: nat)
    requires ChunksOk(chunks, next, step)
    requires endBlock + 1 == step + if |chunks| == 0 then next else chunks[|chunks| - 1].endBlock + 1
    ensures ChunksOk(chunks + [Chunk(endBlock, [])], next, step)
  {
    var chunks' := chunks + [Chunk(endBlock, [])];
    forall i | 0 <= i < |chunks'| ensures FollowsOn(chunks', i, next, step) {
      assert i < |chunks| ==> FollowsOn(chunks, i, next, step);
    }
  }

  lemma {:induction false} ChunksDrop(chunks: seq<Chunk>, next: nat, step: nat)
    requires ChunksOk(chunks, next, step) && |chunks| > 0
    ensures ChunksOk(chunks[1..], chunks[0].endBlock + 1, step)
  {
    var rest, next' := chunks[1..], chunks[0].endBlock + 1;
    forall i | 0 <= i < |rest| ensures FollowsOn(rest, i, next', step) {
      assert FollowsOn(chunks, i + 1, next, step);
    }
  }

  lemma {:induction false} AllBefore(files: seq<File>, blockNum: nat)
    requires FilesOk(files) && NextBlock(files, |files|) <= blockNum
    ensures forall f :: 0 <= f < |files| ==> files[f].endBlock < blockNum
  {
    forall f | 0 <= f < |files| ensures files[f].endBlock < blockNum {
      if f < |files| - 1 {
        assert InOrder(files, f, |files| - 1);
      }
    }
  }

  lemma {:induction false} DeletedBelow(table: map<Key, Entry>, files: seq<File>, cs: seq<Cursor>, stream: seq<Item>,
                                        addr: Key, deleted: seq<Change>, prefixLen: nat)
    requires RunsOf(cs, table, files, addr) && Streamed(Exhausted(cs), stream) && |addr| == prefixLen
    requires |deleted| == |stream| && (forall i :: 0 <= i < |deleted| ==> deleted[i] == Change(stream[i].key, []))
    requires forall k :: k in table ==> KeyOk(k, prefixLen)
    ensures RecordsOk(deleted, prefixLen)
  {
    forall i | 0 <= i < |deleted| ensures KeyOk(deleted[i].key, prefixLen) {
      var k := stream[i].key;
      assert HasKey(stream, k);
      StreamKeys(cs, stream, k);
      RunKeys(cs, table, files, addr, k);
    }
  }
}
