/** The writer of the aggregator over its three plain state types: blocks, the schedule of
    aggregations, and the background work. Whatever happens, readers see a plain map. */
module StateWriter {
  import opened Arith
  import opened ByteKeys
  import opened StateFiles
  import opened ChangeFiles
  import opened MergePlan
  import opened StateDomain
  import opened StateStore

  const MAX_BLOCK: nat := 0xFFFF_FFFF_FFFF_FFFF

  /** The change files of two types are for the same blocks. */
  ghost predicate SameChunks(a: seq<Chunk>, b: seq<Chunk>) {
    |a| == |b| && forall i {:trigger a[i]} {:trigger b[i]} :: 0 <= i < |a| ==> a[i].endBlock == b[i].endBlock
  }

  ghost predicate SameFileBlocks(a: seq<File>, b: seq<File>) { |a| == |b| && SameBlocks(a, b, |a|) }

  /** The change files: the last one is open for the block, the others are closed. */
  ghost predicate ChunksFor(chunks: seq<Chunk>, closed: seq<nat>, blockNum: nat, changeFileNum: nat, step: nat) {
    && |chunks| == |closed| + 1 && chunks[|closed|].endBlock == changeFileNum
    && blockNum <= changeFileNum < blockNum + step
    && forall i {:trigger closed[i]} {:trigger chunks[i]} :: 0 <= i < |closed| ==> closed[i] == chunks[i].endBlock
  }

  /** The files end a whole step before what is due next; next is the first block after them. */
  ghost predicate OnSchedule(next: nat, blockNum: nat, unwindLimit: nat, step: nat, aggregated: bool) {
    && (next > 0 ==> 0 < unwindLimit && next + unwindLimit <= blockNum + if aggregated then 1 else 0)
    && (unwindLimit > 0 ==> blockNum < next + step + unwindLimit - if aggregated then 1 else 0)
  }

  /** The files end on a whole number of steps. */
  lemma {:induction false} WholeSteps(files: seq<File>, n: nat, step: nat)
    requires step > 0 && Partition(files, step) && n <= |files|
    ensures NextBlock(files, n) % step == 0
  {
    if n > 0 {
      WholeSteps(files, n - 1, step);
      assert Adjacent(files, n - 1) && Dyadic(Span(files[n - 1]), step);
      var a: nat :| Span(files[n - 1]) == Shift(step, a);
      ShiftMultiple(step, a);
      var q: nat :| Shift(step, a) == q * step;
      SumOfSteps(NextBlock(files, n - 1), q, step);
    } else {
      QuotientUnique(0, step, 0, 0);
    }
  }

  lemma SumOfSteps(x: nat, q: nat, step: nat)
    requires step > 0 && x % step == 0
    ensures (x + q * step) % step == 0
  {
    var p := x / step;
    assert x == step * p + x % step;
    assert x + q * step == step * (p + q);
    QuotientUnique(x + q * step, step, p + q, 0);
  }

  /** A whole number of steps within a step of another is that other, or the next. */
  lemma NextWhole(x: nat, y: nat, step: nat)
    requires step > 0 && x % step == 0 && y % step == 0 && x < y <= x + step
    ensures y == x + step
  {
    var d := y - x;
    var q := y / step - x / step;
    assert x == step * (x / step) && y == step * (y / step);
    assert d == step * q;
    OneStep(d, q, step);
  }

  lemma OneStep(d: nat, q: int, step: nat)
    requires step > 0 && d == step * q && 0 < d <= step
    ensures d == step
  {
    if q >= 2 {
      MulAtLeast(step, q - 1);
    }
    assert q == 1;
  }

  class Writer {
    const accounts: Domain
    const storage: Domain
    const code: Domain
    const step: nat
    const unwindLimit: nat
    var blockNum: nat
    var changeFileNum: nat
    var closed: seq<nat>
    ghost var aggregated: bool

    ghost predicate Parts()
      reads accounts, storage, code
    {
      && accounts != storage && accounts != code && storage != code
      && (forall d {:trigger d.Valid()} :: d in {accounts, storage, code} ==> d.Valid())
      && accounts.prefixLen == 0 && code.prefixLen == 0 && storage.prefixLen > 0
      && accounts.step == step && storage.step == step && code.step == step
    }

    /** All types have the same blocks in change files and state files. */
    ghost predicate Shape()
      reads accounts`chunks, accounts`files, storage`chunks, storage`files, code`chunks, code`files
    {
      && SameChunks(code.chunks, accounts.chunks) && SameChunks(code.chunks, storage.chunks)
      && SameFileBlocks(code.files, accounts.files) && SameFileBlocks(code.files, storage.files)
    }

    ghost predicate Background()
      reads accounts`frozen, accounts`task, storage`frozen, storage`task, code`frozen, code`task
    {
      && code.frozen <= storage.frozen <= accounts.frozen
      && (code.task.Idle? <==> accounts.task.Idle?) && (code.task.Idle? <==> storage.task.Idle?)
      && (code.task.Merging? ==> accounts.task.plan == code.task.plan && storage.task.plan == code.task.plan)
    }

    ghost predicate Scheduled()
      reads this, code`chunks, code`files
    {
      if changeFileNum == 0 then code.chunks == [] && code.files == [] && closed == []
      else
        && ChunksFor(code.chunks, closed, blockNum, changeFileNum, step)
        && OnSchedule(NextBlock(code.files, |code.files|), blockNum, unwindLimit, step, aggregated)
    }

    ghost predicate Valid()
      reads this, accounts, storage, code
    {
      Parts() && Shape() && Background() && Scheduled()
    }

    ghost function Account(addr: Key): seq<nat>
      reads accounts`table, accounts`files
    {
      accounts.View(addr)
    }

    ghost function Code(addr: Key): seq<nat>
      reads code`table, code`files
    {
      code.View(addr)
    }

    ghost function Storage(key: Key): seq<nat>
      reads storage`table, storage`files
    {
      storage.View(key)
    }

    constructor (step: nat, unwindLimit: nat, addrLen: nat, hash: Key -> nat, minArch: nat)
      requires step > 1 && addrLen > 0
      ensures Valid() && this.step == step && this.unwindLimit == unwindLimit && storage.prefixLen == addrLen
      ensures changeFileNum == 0
      ensures fresh(accounts) && fresh(storage) && fresh(code) && accounts.words == [] && storage.words == []
      ensures code.words == []
      ensures (forall k :: Account(k) == []) && (forall k :: Code(k) == []) && forall k :: Storage(k) == []
      ensures accounts.table == map[] && accounts.files == []
    {
      this.step, this.unwindLimit := step, unwindLimit;
      var a := new Domain(step, 0, hash, minArch);
      var s := new Domain(step, addrLen, hash, minArch);
      var c := new Domain(step, 0, hash, minArch);
      accounts, storage, code := a, s, c;
      blockNum, changeFileNum, closed, aggregated := 0, 0, [], false;
    }

    /** The state files end before the block, or with it. */
    lemma Reached()
      requires Valid()
      ensures accounts.Reaches(blockNum) && storage.Reaches(blockNum) && code.Reaches(blockNum)
      ensures NextBlock(storage.files, |storage.files|) <= blockNum
    {
      assert |code.files| > 0 ==> code.files[|code.files| - 1].endBlock == accounts.files[|code.files| - 1].endBlock;
      assert |code.files| > 0 ==> code.files[|code.files| - 1].endBlock == storage.files[|code.files| - 1].endBlock;
    }

    method ReadAccountData(addr: Key) returns (val: seq<nat>)
      requires Valid()
      ensures val == Account(addr)
    {
      Reached();
      val := accounts.Get(blockNum, addr);
    }

    method ReadAccountCode(addr: Key) returns (val: seq<nat>)
      requires Valid()
      ensures val == Code(addr)
    {
      Reached();
      val := code.Get(blockNum, addr);
    }

    method ReadAccountStorage(addr: Key, loc: Key) returns (val: seq<nat>)
      requires Valid() && |addr| == storage.prefixLen && |loc| > 0
      ensures val == Storage(addr + loc)
    {
      Reached();
      val := storage.Get(blockNum, addr + loc);
    }

    method UpdateAccountData(addr: Key, account: seq<nat>)
      requires Valid()
      modifies accounts`table, accounts`words
      ensures Valid() && forall k :: Account(k) == if k == addr then account else old(Account(k))
    {
      Reached();
      accounts.Update(blockNum, addr, account);
    }

    /** The code is written even if it does not change. */
    method UpdateAccountCode(addr: Key, c: seq<nat>)
      requires Valid()
      modifies code`table, code`words
      ensures Valid() && forall k :: Code(k) == if k == addr then c else old(Code(k))
    {
      code.Put(addr, c);
    }

    method WriteAccountStorage(addr: Key, loc: Key, value: seq<nat>)
      requires Valid() && |addr| == storage.prefixLen && |loc| > 0
      modifies storage`table, storage`words
      ensures Valid() && forall k :: Storage(k) == if k == addr + loc then value else old(Storage(k))
    {
      Reached();
      storage.Update(blockNum, addr + loc, value);
    }

    /** An account that is found goes with its code and all of its storage; one that is not found leaves both. */
    method DeleteAccount(addr: Key, isNil: bool) returns (deleted: bool)
      requires Valid() && |addr| == storage.prefixLen
      modifies accounts`table, accounts`words, code`table, code`words, storage`table, storage`words
      ensures Valid() && deleted == old(Knows(addr, isNil)) && (old(Account(addr)) != [] ==> deleted)
      ensures forall k :: Account(k) == if k == addr then [] else old(Account(k))
      ensures forall k :: Code(k) == if deleted && k == addr then [] else old(Code(k))
      ensures forall k :: KeyOk(k, storage.prefixLen) ==>
          Storage(k) == if deleted && HasPrefix(k, addr) then [] else old(Storage(k))
    {
      deleted := DeleteAccountData(addr, isNil);
      if deleted {
        DeleteCode(addr, isNil);
        DeleteStorage(addr);
      }
    }

    /** deleteAccount finds the address. */
    ghost predicate Knows(addr: Key, isNil: bool)
      reads accounts`table, accounts`files, accounts`frozen
    {
      accounts.frozen <= |accounts.files| && accounts.Knows(addr, isNil)
    }

    method DeleteAccountData(addr: Key, isNil: bool) returns (deleted: bool)
      requires Valid()
      modifies accounts`table, accounts`words
      ensures Valid() && deleted == old(Knows(addr, isNil)) && (old(Account(addr)) != [] ==> deleted)
      ensures forall k :: Account(k) == if k == addr then [] else old(Account(k))
    {
      Reached();
      deleted := accounts.Delete(blockNum, addr, isNil);
    }

    method DeleteCode(addr: Key, isNil: bool)
      requires Valid()
      modifies code`table, code`words
      ensures Valid() && forall k :: Code(k) == if k == addr then [] else old(Code(k))
    {
      Reached();
      var _ := code.Delete(blockNum, addr, isNil);
    }

    method DeleteStorage(addr: Key)
      requires Valid() && |addr| == storage.prefixLen
      modifies storage`table, storage`words
      ensures Valid()
      ensures forall k :: KeyOk(k, storage.prefixLen) ==>
          Storage(k) == if HasPrefix(k, addr) then [] else old(Storage(k))
    {
      Reached();
      storage.DeleteBelow(blockNum, addr);
    }

    /** The end of a transaction. */
    method FinishTx()
      requires Valid() && changeFileNum != 0
      modifies accounts`words, accounts`chunks, storage`words, storage`chunks, code`words, code`chunks
      ensures Valid() && accounts.words == [] && storage.words == [] && code.words == []
    {
      FinishType(accounts);
      FinishType(storage);
      FinishType(code);
    }

    method FinishType(d: Domain)
      requires Valid() && changeFileNum != 0 && d in {accounts, storage, code}
      modifies d`words, d`chunks
      ensures Valid() && d.words == []
    {
      assert |accounts.chunks| == |storage.chunks| == |code.chunks| > 0;
      d.Finish();
    }

    /** The next block, or the same again. At the first block of a step the change files are
        closed and new ones opened; that fails if a transaction is not finished. A run starts
        within the first step, and the blocks follow each other with Aggregate in between. */
    method Reset(block: nat) returns (ok: bool)
      requires Valid()
      requires if changeFileNum == 0 then block < step else block == blockNum || (block == blockNum + 1 && aggregated)
      modifies this`blockNum, this`changeFileNum, this`closed, this`aggregated, accounts`chunks, storage`chunks
      modifies code`chunks
      ensures ok <==>
        || (0 < old(changeFileNum) && block <= old(changeFileNum))
        || old(accounts.words == [] && storage.words == [] && code.words == [])
      ensures ok ==> Valid() && blockNum == block && changeFileNum != 0
      ensures aggregated == (old(changeFileNum) != 0 && block == old(blockNum) && old(aggregated))
    {
      ok := true;
      if changeFileNum == 0 || block > changeFileNum {
        if accounts.words != [] || storage.words != [] || code.words != [] {
          blockNum, aggregated := block, false;
          return false;
        }
        SwitchChunk(block);
      } else {
        aggregated := block == blockNum && aggregated;
        blockNum := block;
      }
    }

    /** The change files are closed, and new ones opened. */
    method SwitchChunk(block: nat)
      requires Valid() && accounts.words == [] && storage.words == [] && code.words == []
      requires if changeFileNum == 0 then block < step else block == blockNum + 1 == changeFileNum + 1 && aggregated
      modifies this`blockNum, this`changeFileNum, this`closed, this`aggregated, accounts`chunks, storage`chunks
      modifies code`chunks
      ensures Valid() && blockNum == block && changeFileNum != 0 && !aggregated
    {
      CodeBlocks();
      var endBlock, closed' := NextChunk(code.chunks, code.files, closed, blockNum, changeFileNum, block, step);
      OpenAll(endBlock);
      closed, blockNum, changeFileNum, aggregated := closed', block, endBlock, false;
    }

    /** Readers see the same. */
    twostate predicate Unseen()
      reads accounts`table, accounts`files, storage`table, storage`files, code`table, code`files
    {
      && (forall k :: Account(k) == old(Account(k))) && (forall k :: Code(k) == old(Code(k)))
      && forall k :: KeyOk(k, storage.prefixLen) ==> Storage(k) == old(Storage(k))
    }

    /** Aggregate: the change files that are due go to new state files. It fails exactly if
        they are due and are not there: without an unwind limit they are still open, and a
        second call finds them gone. */
    method Aggregate() returns (ok: bool)
      requires Valid() && changeFileNum != 0
      modifies this`closed, this`aggregated
      modifies accounts`table, accounts`chunks, accounts`files, accounts`arch
      modifies storage`table, storage`chunks, storage`files, storage`arch
      modifies code`table, code`chunks, code`files, code`arch
      ensures Valid() && aggregated && Unseen()
      ensures ok <==> !Due(blockNum, unwindLimit, step) || (unwindLimit > 0 && !old(aggregated))
    {
      CodeBlocks();
      var now;
      ok, now := Decide(code.chunks, closed, code.files, blockNum, changeFileNum, unwindLimit, step, aggregated);
      if now {
        AggregateFirst();
      } else {
        Skip();
      }
    }

    /** Nothing is aggregated. */
    method Skip()
      requires Valid() && changeFileNum != 0
      requires OnSchedule(NextBlock(code.files, |code.files|), blockNum, unwindLimit, step, true)
      modifies this`aggregated
      ensures Valid() && aggregated && Unseen()
    {
      aggregated := true;
    }

    /** The oldest closed change files, those that are due, are taken out of the list and aggregated. */
    method AggregateFirst()
      requires Valid() && changeFileNum != 0 && !aggregated
      requires unwindLimit > 0 && |closed| > 0 && closed[0] == code.chunks[0].endBlock == blockNum - unwindLimit
      modifies this`closed, this`aggregated
      modifies accounts`table, accounts`chunks, accounts`files, accounts`arch
      modifies storage`table, storage`chunks, storage`files, storage`arch
      modifies code`table, code`chunks, code`files, code`arch
      ensures Valid() && aggregated && Unseen()
    {
      CodeBlocks();
      ghost var chunks, files := code.chunks, code.files;
      AggregateAll();
      ClockNext(chunks, closed, files, code.files, blockNum, changeFileNum, unwindLimit, step);
      closed, aggregated := closed[1..], true;
    }

    /** aggregateUpto: the oldest change files of all types. */
    method AggregateAll()
      requires Parts() && Shape() && Background() && |code.chunks| > 0
      modifies accounts`table, accounts`chunks, accounts`files, accounts`arch
      modifies storage`table, storage`chunks, storage`files, storage`arch
      modifies code`table, code`chunks, code`files, code`arch
      ensures Parts() && Shape() && Background() && Unseen()
      ensures code.chunks == old(code.chunks[1..]) && Grown(old(code.files), code.files, old(code.chunks[0].endBlock))
    {
      SameDropped(code.chunks, accounts.chunks);
      SameDropped(code.chunks, storage.chunks);
      AggregateType(accounts);
      AggregateType(storage);
      AggregateType(code);
      SameGrown(old(code.files), code.files, old(accounts.files), accounts.files, old(code.chunks[0].endBlock));
      SameGrown(old(code.files), code.files, old(storage.files), storage.files, old(code.chunks[0].endBlock));
    }

    // ---- the background routines

    /** backgroundAggregation: the oldest tree of a type is written to disk, accounts first. */
    method Freeze(d: Domain)
      requires Valid() && d in {accounts, storage, code}
      requires d.frozen <
        if d == accounts then |accounts.files| else if d == storage then accounts.frozen else storage.frozen
      modifies d`frozen
      ensures Valid() && Unseen() && d.frozen == old(d.frozen) + 1
    {
      Registries();
      d.Freeze();
    }

    /** backgroundMerge plans for the type that is written last and tells the others where to
        end. The plans never differ. */
    method PlanMerge() returns (ok: bool, p: Plan)
      requires Valid() && code.task.Idle? && blockNum < MAX_BLOCK
      modifies accounts`task, storage`task, code`task
      ensures Valid() && ok && (p.Merge? <==> code.task.Merging?)
      ensures Spans(code.files) && code.frozen <= |code.files|
      ensures p == PlanOf(code.files, code.frozen, MAX_BLOCK, MAX_BLOCK)
    {
      Registries();
      Reached();
      ok, p := PlanAll(code.files, code.frozen, accounts.files, accounts.frozen, storage.files, storage.frozen, step);
      if p.Merge? {
        StartAll(p);
      }
    }

    method StartAll(p: Plan)
      requires Parts() && Shape() && Background() && p.Merge? && p.hi <= code.frozen
      requires PlanOk(code.files, p, step) && PlanOk(accounts.files, p, step) && PlanOk(storage.files, p, step)
      modifies accounts`task, storage`task, code`task
      ensures Parts() && Shape() && Background() && code.task.Merging?
    {
      StartType(accounts, p);
      StartType(storage, p);
      StartType(code, p);
    }

    method StartType(d: Domain, p: Plan)
      requires Parts() && d in {accounts, storage, code} && PlanOk(d.files, p, step) && p.hi <= d.frozen
      modifies d`task
      ensures Parts() && d.task.Merging? && d.task.plan == p
    {
      d.StartMerge(p);
    }

    lemma Registries()
      requires Parts()
      ensures step > 1 && Spans(code.files) && Spans(accounts.files) && Spans(storage.files)
      ensures Partition(code.files, step) && Partition(accounts.files, step) && Partition(storage.files, step)
      ensures code.frozen <= |code.files| && accounts.frozen <= |accounts.files| && storage.frozen <= |storage.files|
    {
      assert accounts.Valid() && storage.Valid() && code.Valid();
    }

    /** The merged files of all types are for the blocks of the plan. */
    lemma Tasks()
      requires Parts() && Background() && code.task.Merging?
      ensures forall d :: d in {accounts, storage, code} ==>
        d.task.plan.Merge? && d.task.plan.lo < d.task.plan.hi <= |d.files| &&
            d.task.file.startBlock == d.task.plan.aggFrom && d.task.file.endBlock == d.task.plan.aggTo
    {
      assert accounts.Valid() && storage.Valid() && code.Valid();
    }

    /** removeLockedState: all types switch to their merged files at once. */
    method CommitMerge()
      requires Valid() && code.task.Merging?
      modifies accounts`files, accounts`frozen, accounts`task, storage`files, storage`frozen, storage`task, code`files
      modifies code`frozen, code`task
      ensures Valid() && Unseen() && code.task.Idle?
    {
      SwitchAll();
    }

    method SwitchAll()
      requires Parts() && Shape() && Background() && code.task.Merging?
      modifies accounts`files, accounts`frozen, accounts`task, storage`files, storage`frozen, storage`task, code`files
      modifies code`frozen, code`task
      ensures Parts() && Shape() && Background() && Unseen() && code.task.Idle?
      ensures NextBlock(code.files, |code.files|) == old(NextBlock(code.files, |code.files|))
      ensures changeFileNum == 0 && old(code.files) == [] ==> code.files == []
    {
      Tasks();
      SameSwitched(code.files, accounts.files, code.task, accounts.task);
      SameSwitched(code.files, storage.files, code.task, storage.task);
      SwitchType(accounts);
      SwitchType(storage);
      SwitchType(code);
    }

    method SwitchType(d: Domain)
      requires Parts() && d in {accounts, storage, code} && d.task.Merging?
      modifies d`files, d`frozen, d`task
      ensures Parts() && d.task == Idle && NextBlock(d.files, |d.files|) == old(NextBlock(d.files, |d.files|))
      ensures old(d.task.plan.Merge? && d.task.plan.lo < d.task.plan.hi <= |d.files|)
      ensures d.files == old(Switched(d.files, d.task.plan.lo, d.task.plan.hi, d.task.file))
      ensures d.frozen == old(d.frozen - (d.task.plan.hi - d.task.plan.lo) + 1)
      ensures forall k :: KeyOk(k, d.prefixLen) ==> d.View(k) == old(d.View(k))
    {
      d.FinishMerge();
    }

    method AggregateType(d: Domain)
      requires Parts() && d in {accounts, storage, code} && |d.chunks| > 0
      modifies d`table, d`chunks, d`files, d`arch
      ensures Parts() && d.chunks == old(d.chunks[1..]) && Grown(old(d.files), d.files, old(d.chunks[0].endBlock))
      ensures forall k :: KeyOk(k, d.prefixLen) ==> d.View(k) == old(d.View(k))
    {
      d.AggregateOldest();
    }

    lemma CodeBlocks()
      requires Parts()
      ensures step > 1 && Partition(code.files, step)
      ensures ChunksOk(code.chunks, NextBlock(code.files, |code.files|), step)
    {
      assert code.Valid();
    }

    /** New change files for all types. */
    method OpenAll(endBlock: nat)
      requires Parts() && Shape() && Background() && accounts.words == [] && storage.words == [] && code.words == []
      requires Follows(endBlock, code.chunks, code.files, step)
      modifies accounts`chunks, storage`chunks, code`chunks
      ensures Parts() && Shape() && Background() && code.chunks == old(code.chunks) + [Chunk(endBlock, [])]
    {
      SameMore(code.chunks, accounts.chunks, code.files, accounts.files, endBlock, step);
      SameMore(code.chunks, storage.chunks, code.files, storage.files, endBlock, step);
      accounts.OpenChunk(endBlock);
      storage.OpenChunk(endBlock);
      code.OpenChunk(endBlock);
    }
  }

  lemma SameMore(a: seq<Chunk>, b: seq<Chunk>, f: seq<File>, g: seq<File>, endBlock: nat, step: nat)
    requires SameChunks(a, b) && SameFileBlocks(f, g) && Follows(endBlock, a, f, step)
    ensures SameChunks(a + [Chunk(endBlock, [])], b + [Chunk(endBlock, [])]) && Follows(endBlock, b, g, step)
  {
    var x := Chunk(endBlock, []);
    forall i | 0 <= i < |a| + 1 ensures (a + [x])[i].endBlock == (b + [x])[i].endBlock {
      assert i < |a| ==> a[i].endBlock == b[i].endBlock;
    }
    assert |f| > 0 ==> f[|f| - 1].endBlock == g[|f| - 1].endBlock;
    assert |a| > 0 ==> a[|a| - 1].endBlock == b[|a| - 1].endBlock;
  }

  lemma ChunksForNext(chunks: seq<Chunk>, closed: seq<nat>, closed': seq<nat>, blockNum: nat, changeFileNum: nat,
                      block: nat, endBlock: nat, step: nat)
    requires step > 1 && endBlock == block - block % step + step - 1 && block <= endBlock < block + step
    requires if changeFileNum == 0 then chunks == [] && closed == [] && closed' == []
      else ChunksFor(chunks, closed, blockNum, changeFileNum, step) && closed' == closed + [changeFileNum]
    ensures ChunksFor(chunks + [Chunk(endBlock, [])], closed', block, endBlock, step)
  {
    var more := chunks + [Chunk(endBlock, [])];
    forall i | 0 <= i < |closed'| ensures closed'[i] == more[i].endBlock {
      assert i < |closed| ==> closed[i] == chunks[i].endBlock;
    }
  }

  /** The same change file is dropped. */
  lemma SameDropped(a: seq<Chunk>, b: seq<Chunk>)
    requires SameChunks(a, b) && |a| > 0
    ensures SameChunks(a[1..], b[1..]) && a[0].endBlock == b[0].endBlock
  {
    forall i | 0 <= i < |a| - 1 ensures a[1..][i].endBlock == b[1..][i].endBlock {
      assert a[i + 1].endBlock == b[i + 1].endBlock;
    }
  }

  /** One more file. */
  ghost predicate Grown(files: seq<File>, files': seq<File>, endBlock: nat) {
    && |files'| == |files| + 1 && (forall i :: 0 <= i < |files| ==> files'[i] == files[i])
    && files'[|files|].startBlock == NextBlock(files, |files|) && files'[|files|].endBlock == endBlock
  }

  lemma SameGrown(f: seq<File>, f': seq<File>, g: seq<File>, g': seq<File>, endBlock: nat)
    requires SameFileBlocks(f, g) && Grown(f, f', endBlock) && Grown(g, g', endBlock)
    ensures SameFileBlocks(f', g')
  {
    forall i | 0 <= i < |f'| ensures f'[i].startBlock == g'[i].startBlock && f'[i].endBlock == g'[i].endBlock {
      assert i < |f| ==> f[i].startBlock == g[i].startBlock && f[i].endBlock == g[i].endBlock;
      assert |f| > 0 ==> f[|f| - 1].endBlock == g[|f| - 1].endBlock;
    }
  }

  lemma ClockNext(chunks: seq<Chunk>, closed: seq<nat>, files: seq<File>, files': seq<File>, blockNum: nat,
                  changeFileNum: nat, unwindLimit: nat, step: nat)
    requires Clock(chunks, closed, files, blockNum, changeFileNum, unwindLimit, step, false)
    requires Grown(files, files', chunks[0].endBlock)
    requires unwindLimit > 0 && |closed| > 0 && closed[0] == chunks[0].endBlock == blockNum - unwindLimit
    ensures ChunksFor(chunks[1..], closed[1..], blockNum, changeFileNum, step)
    ensures OnSchedule(NextBlock(files', |files'|), blockNum, unwindLimit, step, true)
  {
    forall i | 0 <= i < |closed[1..]| ensures closed[1..][i] == chunks[1..][i].endBlock {
      assert closed[i + 1] == chunks[i + 1].endBlock;
    }
  }

  /** backgroundMerge's plans for all types, with its checks that they agree. */
  method PlanAll(c: seq<File>, cFrozen: nat, a: seq<File>, aFrozen: nat, s: seq<File>, sFrozen: nat, ghost step: nat)
      returns (ok: bool, p: Plan)
    requires step > 1 && Spans(c) && Spans(a) && Spans(s) && Partition(c, step) && Partition(a, step)
    requires Partition(s, step)
    requires SameFileBlocks(c, a) && SameFileBlocks(c, s) && cFrozen <= |c| && cFrozen <= aFrozen <= |a|
    requires cFrozen <= sFrozen <= |s|
    requires NextBlock(c, |c|) <= MAX_BLOCK
    ensures ok && p == PlanOf(c, cFrozen, MAX_BLOCK, MAX_BLOCK)
    ensures p.Merge? ==> p.hi <= cFrozen && PlanOk(c, p, step) && PlanOk(a, p, step) && PlanOk(s, p, step)
  {
    p := FindLargestMerge(c, cFrozen, MAX_BLOCK, MAX_BLOCK);
    var blockFrom, blockTo := if p.Merge? then p.aggFrom else 0, if p.Merge? then p.aggTo else 0;
    PlansAgree(c, cFrozen, a, aFrozen, step);
    PlansAgree(c, cFrozen, s, sFrozen, step);
    var pa := FindLargestMerge(a, aFrozen, blockTo, MAX_BLOCK);
    if (if pa.Merge? then pa.aggFrom else 0) != blockFrom || (if pa.Merge? then pa.aggTo else 0) != blockTo {
      return false, p;
    }
    var ps := FindLargestMerge(s, sFrozen, blockTo, MAX_BLOCK);
    if (if ps.Merge? then ps.aggFrom else 0) != blockFrom || (if ps.Merge? then ps.aggTo else 0) != blockTo {
      return false, p;
    }
    ok := true;
  }

  lemma {:induction false} PlansAgree(c: seq<File>, cFrozen: nat, d: seq<File>, dFrozen: nat, step: nat)
    requires step > 1 && Spans(c) && Spans(d) && Partition(c, step) && Partition(d, step)
    requires SameFileBlocks(c, d) && cFrozen <= |c| && cFrozen <= dFrozen <= |d| && NextBlock(c, |c|) <= MAX_BLOCK
    ensures var p := PlanOf(c, cFrozen, MAX_BLOCK, MAX_BLOCK);
      if p.NoMerge? then PlanOf(d, dFrozen, 0, MAX_BLOCK) == NoMerge
      else
        && p.hi <= cFrozen && PlanOk(c, p, step) && PlanOk(d, p, step) && p.aggTo > 0
        && PlanOf(d, dFrozen, p.aggTo, MAX_BLOCK) == p
  {
    var p := PlanOf(c, cFrozen, MAX_BLOCK, MAX_BLOCK);
    if p.NoMerge? {
      NoPlan(d, dFrozen, MAX_BLOCK);
    } else {
      NextGrows(c, cFrozen, step);
      PlanEnds(c, cFrozen, MAX_BLOCK, MAX_BLOCK, step);
      PlanGood(c, cFrozen, MAX_BLOCK, MAX_BLOCK, step);
      SamePlan(c, cFrozen, MAX_BLOCK, d, dFrozen, MAX_BLOCK, step);
      PlanGood(d, dFrozen, p.aggTo, MAX_BLOCK, step);
    }
  }

  lemma {:induction false} NextGrows(files: seq<File>, n: nat, step: nat)
    requires Partition(files, step) && n <= |files|
    ensures NextBlock(files, n) <= NextBlock(files, |files|)
  {
    if 0 < n < |files| {
      EndsAscend(files, n - 1, |files| - 1, step);
    }
  }

  lemma SameSwitched(f: seq<File>, g: seq<File>, t: Task, u: Task)
    requires SameFileBlocks(f, g) && t.Merging? && u.Merging? && t.plan == u.plan && t.plan.Merge?
    requires t.plan.lo < t.plan.hi <= |f|
    requires t.file.startBlock == u.file.startBlock && t.file.endBlock == u.file.endBlock
    ensures SameFileBlocks(Switched(f, t.plan.lo, t.plan.hi, t.file), Switched(g, t.plan.lo, t.plan.hi, u.file))
  {
    var lo, hi := t.plan.lo, t.plan.hi;
    var r, q := Switched(f, lo, hi, t.file), Switched(g, lo, hi, u.file);
    forall i | 0 <= i < |r| ensures r[i].startBlock == q[i].startBlock && r[i].endBlock == q[i].endBlock {
      if i != lo {
        var j := if i < lo then i else i + (hi - lo) - 1;
        assert f[j].startBlock == g[j].startBlock && f[j].endBlock == g[j].endBlock;
      }
    }
  }

  /** The change file for a block follows on those that there are. */
  method NextChunk(chunks: seq<Chunk>, ghost files: seq<File>, closed: seq<nat>, blockNum: nat, changeFileNum: nat,
                   block: nat, step: nat)
      returns (endBlock: nat, closed': seq<nat>)
    requires step > 1 && Partition(files, step) && ChunksOk(chunks, NextBlock(files, |files|), step)
    requires if changeFileNum == 0 then chunks == [] && files == [] && closed == [] && block < step
      else ChunksFor(chunks, closed, blockNum, changeFileNum, step) && block == changeFileNum + 1
    ensures endBlock > 0 && Follows(endBlock, chunks, files, step)
    ensures ChunksFor(chunks + [Chunk(endBlock, [])], closed', block, endBlock, step)
  {
    if changeFileNum == 0 {
      QuotientUnique(block, step, 0, block);
      closed' := closed;
    } else {
      ChunkWhole(chunks, files, step, |chunks| - 1);
      closed' := closed + [changeFileNum];
    }
    endBlock := block - block % step + step - 1;
    ChunksForNext(chunks, closed, closed', blockNum, changeFileNum, block, endBlock, step);
  }

  lemma {:induction false} ChunkWhole(chunks: seq<Chunk>, files: seq<File>, step: nat, i: nat)
    requires step > 1 && Partition(files, step) && ChunksOk(chunks, NextBlock(files, |files|), step) && i < |chunks|
    ensures (chunks[i].endBlock + 1) % step == 0
  {
    assert FollowsOn(chunks, i, NextBlock(files, |files|), step);
    if i == 0 {
      WholeSteps(files, |files|, step);
      SumOfSteps(NextBlock(files, |files|), 1, step);
    } else {
      ChunkWhole(chunks, files, step, i - 1);
      SumOfSteps(chunks[i - 1].endBlock + 1, 1, step);
    }
  }

  // ---- when to aggregate

  /** Whether the change files that end unwindLimit blocks ago are due. */
  predicate Due(blockNum: nat, unwindLimit: nat, step: nat)
    requires step > 0
  {
    blockNum >= unwindLimit + step - 1 && (blockNum - unwindLimit + 1) % step == 0
  }

  lemma {:induction false} ChunkApart(chunks: seq<Chunk>, next: nat, step: nat, i: nat, j: nat)
    requires ChunksOk(chunks, next, step) && i < j < |chunks|
    ensures chunks[i].endBlock + step <= chunks[j].endBlock
  {
    assert FollowsOn(chunks, j, next, step);
    if i < j - 1 {
      ChunkApart(chunks, next, step, i, j - 1);
    }
  }

  /** The closed change files that end at the block. */
  method FindClosed(closed: seq<nat>, endBlock: nat) returns (i: nat)
    ensures i <= |closed| && (i < |closed| ==> closed[i] == endBlock)
    ensures (i == |closed| ==> forall j :: 0 <= j < |closed| ==> closed[j] != endBlock)
  {
    i := 0;
    while i < |closed| && closed[i] != endBlock
      invariant i <= |closed| && forall j :: 0 <= j < i ==> closed[j] != endBlock
    {
      i := i + 1;
    }
  }

  /** The state of the schedule: change files, state files, and whether Aggregate was called. */
  ghost predicate Clock(chunks: seq<Chunk>, closed: seq<nat>, files: seq<File>, blockNum: nat, changeFileNum: nat,
                        unwindLimit: nat, step: nat, aggregated: bool) {
    && step > 1 && Partition(files, step) && ChunksOk(chunks, NextBlock(files, |files|), step)
    && ChunksFor(chunks, closed, blockNum, changeFileNum, step)
    && OnSchedule(NextBlock(files, |files|), blockNum, unwindLimit, step, aggregated)
  }

  lemma {:induction false} DueIsFirst(chunks: seq<Chunk>, closed: seq<nat>, files: seq<File>, blockNum: nat,
                                      changeFileNum: nat, unwindLimit: nat, step: nat, aggregated: bool)
    requires Clock(chunks, closed, files, blockNum, changeFileNum, unwindLimit, step, aggregated)
    ensures Due(blockNum, unwindLimit, step) && unwindLimit > 0 && !aggregated <==>
      unwindLimit > 0 && blockNum >= unwindLimit && !aggregated && blockNum - unwindLimit == chunks[0].endBlock
  {
    assert FollowsOn(chunks, 0, NextBlock(files, |files|), step);
    ChunkWhole(chunks, files, step, 0);
    WholeSteps(files, |files|, step);
    if Due(blockNum, unwindLimit, step) && unwindLimit > 0 && !aggregated {
      NextWhole(NextBlock(files, |files|), blockNum - unwindLimit + 1, step);
    }
  }

  /** Only the oldest closed change files can be asked for, and only by the first call for a
      block with an unwind limit. */
  lemma {:induction false} ClosedIsFirst(chunks: seq<Chunk>, closed: seq<nat>, files: seq<File>, blockNum: nat,
                                         changeFileNum: nat, unwindLimit: nat, step: nat, aggregated: bool)
    requires Clock(chunks, closed, files, blockNum, changeFileNum, unwindLimit, step, aggregated)
    requires blockNum >= unwindLimit
    ensures forall i :: 0 <= i < |closed| && closed[i] == blockNum - unwindLimit ==>
        i == 0 && unwindLimit > 0 && !aggregated
    ensures unwindLimit > 0 && blockNum - unwindLimit == chunks[0].endBlock ==>
        |closed| > 0 && closed[0] == chunks[0].endBlock
  {
    var next := NextBlock(files, |files|);
    assert FollowsOn(chunks, 0, next, step);
    forall i | 0 <= i < |closed| && closed[i] == blockNum - unwindLimit
      ensures i == 0 && unwindLimit > 0 && !aggregated {
      ChunkApart(chunks, next, step, i, |closed|);
      if i > 0 {
        ChunkApart(chunks, next, step, 0, i);
      }
    }
    if unwindLimit > 0 && blockNum - unwindLimit == chunks[0].endBlock {
      assert |closed| > 0;
      assert closed[0] == chunks[0].endBlock;
    }
  }

  /** Aggregate's decision: whether it succeeds, and whether there are change files to aggregate. */
  method Decide(ghost chunks: seq<Chunk>, closed: seq<nat>, ghost files: seq<File>, blockNum: nat,
                ghost changeFileNum: nat, unwindLimit: nat, step: nat, ghost aggregated: bool)
      returns (ok: bool, now: bool)
    requires Clock(chunks, closed, files, blockNum, changeFileNum, unwindLimit, step, aggregated)
    ensures ok <==> !Due(blockNum, unwindLimit, step) || (unwindLimit > 0 && !aggregated)
    ensures now <==> Due(blockNum, unwindLimit, step) && unwindLimit > 0 && !aggregated
    ensures now ==> |closed| > 0 && closed[0] == chunks[0].endBlock == blockNum - unwindLimit
    ensures !now ==> OnSchedule(NextBlock(files, |files|), blockNum, unwindLimit, step, true)
  {
    DueIsFirst(chunks, closed, files, blockNum, changeFileNum, unwindLimit, step, aggregated);
    assert FollowsOn(chunks, 0, NextBlock(files, |files|), step);
    if blockNum < unwindLimit + step - 1 {
      return true, false;
    }
    var diff := blockNum - unwindLimit;
    if (diff + 1) % step != 0 {
      return true, false;
    }
    ClosedIsFirst(chunks, closed, files, blockNum, changeFileNum, unwindLimit, step, aggregated);
    var i := FindClosed(closed, diff);
    ok, now := i < |closed|, i < |closed|;
  }
}
