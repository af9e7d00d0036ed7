/** The storage items of an address, gathered over the summary table and all state files, as
    DeleteAccount visits them. */
module PrefixRuns {
  import opened ByteKeys
  import opened MergeCursors
  import opened StateMerge
  import opened StateFiles
  import opened ChangeFiles
  import opened StateDomain
  import Sums

  /** The items of a file below an address, without its anchor. */
  ghost predicate RunOf(run: seq<Item>, items: seq<Item>, addr: Key) {
    Ascending(run) && forall k :: HasKey(run, k) <==> HasKey(items, k) && HasPrefix(k, addr) && k != addr
  }

  function Part(items: seq<Item>, start: nat, end: nat): (r: seq<Item>)
    requires start <= end <= |items|
    ensures |r| == end - start && forall i :: 0 <= i < |r| ==> r[i] == items[start + i]
  {
    seq(end - start, i requires 0 <= i < end - start => items[start + i])
  }

  /** The first item that is not before a key. */
  method FromKey(items: seq<Item>, k: Key) returns (i: nat)
    ensures i <= |items| && (forall j :: 0 <= j < i ==> Less(items[j].key, k))
    ensures (i < |items| ==> !Less(items[i].key, k))
  {
    i := 0;
    while i < |items| && Less(items[i].key, k)
      invariant i <= |items| && forall j :: 0 <= j < i ==> Less(items[j].key, k)
    {
      i := i + 1;
    }
  }

  /** The cursor over one state file: a file on disk is entered at the anchor, a tree at the
      first key that is not before the address. */
  method FileRun(items: seq<Item>, addr: Key, onDisk: bool) returns (run: seq<Item>)
    requires Ascending(items) && |addr| > 0 && AnchorsOk(items, |addr|)
    ensures RunOf(run, items, addr)
  {
    var start: nat;
    if onDisk {
      start := Find(items, |items|, addr);
      if start == |items| {
        NoAnchor(items, addr);
        return [];
      }
      start := start + 1;
    } else {
      start := FromKey(items, addr);
      if start < |items| && items[start].key == addr {
        start := start + 1;
      }
    }
    Enter(items, addr, start);
    var end := start;
    while end < |items| && HasPrefix(items[end].key, addr)
      invariant start <= end <= |items| && forall i :: start <= i < end ==> HasPrefix(items[i].key, addr)
    {
      end := end + 1;
    }
    run := Part(items, start, end);
    Interval(items, addr, start, end);
  }

  lemma {:induction false} NoAnchor(items: seq<Item>, addr: Key)
    requires |addr| > 0 && AnchorsOk(items, |addr|) && forall j :: 0 <= j < |items| ==> items[j].key != addr
    ensures RunOf([], items, addr)
  {
    forall k | HasKey(items, k) ensures !HasPrefix(k, addr) {
      var i :| 0 <= i < |items| && items[i].key == k;
      assert Anchored(items, items[i], |addr|);
    }
  }

  /** The items before the entry are not below the address, those after it come after the address. */
  ghost predicate Entry(items: seq<Item>, addr: Key, start: nat) {
    && start <= |items| && (forall i :: 0 <= i < start ==> !Less(addr, items[i].key))
    && forall i :: start <= i < |items| ==> Less(addr, items[i].key)
  }

  lemma {:induction false} Enter(items: seq<Item>, addr: Key, start: nat)
    requires Ascending(items) && start <= |items|
    requires (start > 0 && items[start - 1].key == addr) ||
        ((forall j :: 0 <= j < start ==> Less(items[j].key, addr)) &&
      (start < |items| ==> !Less(items[start].key, addr) && items[start].key != addr))
    ensures Entry(items, addr, start)
  {
    LessIrreflexive(addr);
    forall i | 0 <= i < start ensures !Less(addr, items[i].key) {
      if items[i].key != addr {
        LessAsymmetric(items[i].key, addr);
      }
    }
    forall i | start <= i < |items| ensures Less(addr, items[i].key) {
      if start == 0 || items[start - 1].key != addr {
        LessTotal(addr, items[start].key);
        if i > start {
          LessTransitive(addr, items[start].key, items[i].key);
        }
      }
    }
  }

  lemma {:induction false} Interval(items: seq<Item>, addr: Key, start: nat, end: nat)
    requires Ascending(items) && Entry(items, addr, start) && start <= end <= |items|
    requires (forall i :: start <= i < end ==> HasPrefix(items[i].key, addr))
    requires (end < |items| ==> !HasPrefix(items[end].key, addr))
    ensures RunOf(Part(items, start, end), items, addr)
  {
    var run := Part(items, start, end);
    forall k ensures HasKey(run, k) <==> HasKey(items, k) && HasPrefix(k, addr) && k != addr {
      if HasKey(run, k) {
        var i :| 0 <= i < |run| && run[i].key == k;
        assert items[start + i].key == k;
        LessIrreflexive(addr);
      }
      if HasKey(items, k) && HasPrefix(k, addr) && k != addr {
        var i :| 0 <= i < |items| && items[i].key == k;
        PrefixLess(addr, k);
        Before(items, addr, start, end, i);
        assert run[i - start].key == k;
      }
    }
  }

  lemma {:induction false} Before(items: seq<Item>, addr: Key, start: nat, end: nat, i: nat)
    requires Ascending(items) && Entry(items, addr, start) && start <= end <= |items| && i < |items|
    requires (end < |items| ==> !HasPrefix(items[end].key, addr)) && HasPrefix(items[i].key, addr)
    requires Less(addr, items[i].key)
    ensures start <= i < end
  {
    if end <= i {
      LessAsymmetric(addr, items[end].key);
      if end < i {
        LessAsymmetric(items[end].key, items[i].key);
      }
      LessIrreflexive(items[i].key);
      PrefixInterval(addr, addr, items[end].key, items[i].key);
    }
  }

  /** The cursor over the summary table. */
  method TableRun(table: map<Key, Entry>, addr: Key) returns (run: seq<Item>)
    ensures Ascending(run) && forall k :: HasKey(run, k) <==> k in table && HasPrefix(k, addr)
  {
    var left := set k | k in table && HasPrefix(k, addr);
    ghost var all := left;
    var bt: seq<AggItem> := [];
    while left != {}
      invariant left <= all && Sorted(bt) && (forall i :: 0 <= i < |bt| ==> bt[i].key in all - left)
      invariant forall k :: k in all - left ==> HasBt(bt, k)
    {
      var k :| k in left;
      var bt' := ReplaceOrInsert(bt, AggItem(k, table[k].val, table[k].count));
      WithKeeps(bt, bt', AggItem(k, table[k].val, table[k].count));
      bt, left := bt', left - {k};
    }
    run := ItemsOf(bt);
    forall k ensures HasKey(run, k) <==> k in all {
      if HasBt(bt, k) {
        var i :| 0 <= i < |bt| && bt[i].key == k;
        assert run[i].key == k;
      }
      if HasKey(run, k) {
        var i :| 0 <= i < |run| && run[i].key == k;
        assert bt[i].key in all;
      }
    }
  }

  /** All cursors of a deletion: the first over the table, the others over the files. */
  ghost predicate RunsOf(cs: seq<Cursor>, table: map<Key, Entry>, files: seq<File>, addr: Key) {
    && CursorsOk(cs) && |cs| == |files| + 1 && (forall c :: 0 <= c < |cs| ==> cs[c].pos == 0)
    && (forall k :: HasKey(cs[0].items, k) <==> k in table && HasPrefix(k, addr))
    && forall f {:trigger files[f]} :: 0 <= f < |files| ==> RunOf(cs[f + 1].items, files[f].items, addr)
  }

  method Runs(table: map<Key, Entry>, files: seq<File>, frozen: nat, addr: Key, blockNum: nat) returns (cs: seq<Cursor>)
    requires FilesOk(files) && |addr| > 0
    requires (forall f :: 0 <= f < |files| ==> AnchorsOk(files[f].items, |addr|) && files[f].endBlock < blockNum)
    ensures RunsOf(cs, table, files, addr)
  {
    var run := TableRun(table, addr);
    cs := [Cursor(run, blockNum, 0)];
    for n := 0 to |files|
      invariant |cs| == n + 1 && cs[0] == Cursor(run, blockNum, 0)
      invariant forall f {:trigger files[f]} {:trigger cs[f + 1]} :: 0 <= f < n ==>
          RunOf(cs[f + 1].items, files[f].items, addr) && cs[f + 1].pos == 0 && cs[f + 1].endBlock == files[f].endBlock
    {
      var fileRun := FileRun(files[n].items, addr, n < frozen);
      cs := cs + [Cursor(fileRun, files[n].endBlock, 0)];
    }
    RunsOk(cs, files, addr, blockNum);
  }

  lemma {:induction false} RunsOk(cs: seq<Cursor>, files: seq<File>, addr: Key, blockNum: nat)
    requires FilesOk(files) && |cs| == |files| + 1 && cs[0].endBlock == blockNum && cs[0].pos == 0
    requires Ascending(cs[0].items)
    requires forall f {:trigger files[f]} :: 0 <= f < |files| ==>
        RunOf(cs[f + 1].items, files[f].items, addr) && cs[f + 1].pos == 0 && cs[f + 1].endBlock == files[f].endBlock
    requires forall f :: 0 <= f < |files| ==> files[f].endBlock < blockNum
    ensures CursorsOk(cs) && forall c :: 0 <= c < |cs| ==> cs[c].pos == 0
  {
    forall c | 0 <= c < |cs| ensures Ascending(cs[c].items) && cs[c].pos == 0 {
      if c > 0 {
        assert RunOf(cs[c - 1 + 1].items, files[c - 1].items, addr);
      }
    }
    forall c, d | 0 <= c < d < |cs| ensures cs[c].endBlock != cs[d].endBlock {
      assert files[d - 1].endBlock < blockNum;
      if c > 0 {
        assert InOrder(files, c - 1, d - 1);
      }
    }
  }

  // ---- the deletion

  /** Every key of the stream is now marked as deleted; nothing else has changed. */
  ghost predicate Cleared(table: map<Key, Entry>, table': map<Key, Entry>, stream: seq<Item>) {
    forall k :: ClearedAt(table, table', stream, k)
  }

  ghost predicate ClearedAt(table: map<Key, Entry>, table': map<Key, Entry>, stream: seq<Item>, k: Key) {
    if HasKey(stream, k) then k in table' && table'[k].val == []
    else (k in table' <==> k in table) && (k in table ==> table'[k] == table[k])
  }

  lemma ClearedMore(table: map<Key, Entry>, table': map<Key, Entry>, stream: seq<Item>, x: Item)
    requires Cleared(table, table', stream)
    ensures Cleared(table, StateDomain.Written(table', x.key, []), stream + [x])
  {
    forall k ensures ClearedAt(table, StateDomain.Written(table', x.key, []), stream + [x], k) {
      assert ClearedAt(table, table', stream, k);
      HasKeyMore(stream, x, k);
    }
  }

  lemma HasKeyMore(stream: seq<Item>, x: Item, k: Key)
    ensures HasKey(stream + [x], k) <==> HasKey(stream, k) || x.key == k
  {
    var more := stream + [x];
    if HasKey(stream, k) {
      var i :| 0 <= i < |stream| && stream[i].key == k;
      assert more[i].key == k;
    }
    assert more[|stream|] == x;
  }

  /** The loop of DeleteAccount over the cursors: a marker and a record for every key. */
  method DeleteStream(table: map<Key, Entry>, start: seq<Cursor>, ghost rs: seq<Change>)
      returns (table': map<Key, Entry>, deleted: seq<Change>, ghost stream: seq<Item>)
    requires CursorsOk(start) && (forall c :: 0 <= c < |start| ==> start[c].pos == 0) && TableOk(table, rs)
    ensures Streamed(Exhausted(start), stream) && Cleared(table, table', stream) && TableOk(table', rs + deleted)
    ensures |deleted| == |stream| && forall i :: 0 <= i < |deleted| ==> deleted[i] == Change(stream[i].key, [])
  {
    var cs := start;
    table', deleted, stream := table, [], [];
    assert rs + deleted == rs;
    var t := Top(cs);
    while t != |cs|
      invariant HeapOk(start, cs, t, stream) && Cleared(table, table', stream) && TableOk(table', rs + deleted)
      invariant |deleted| == |stream| && forall i :: 0 <= i < |deleted| ==> deleted[i] == Change(stream[i].key, [])
      decreases Sums.Total(Left(cs))
    {
      var x;
      x, cs, t := NextPair(start, cs, t, stream);
      ClearedMore(table, table', stream, x);
      WrittenOk(table', rs + deleted, x.key, []);
      assert (rs + deleted) + [Change(x.key, [])] == rs + (deleted + [Change(x.key, [])]);
      table', deleted, stream := StateDomain.Written(table', x.key, []), deleted + [Change(x.key, [])], stream + [x];
    }
    AllExhausted(start, cs, stream);
  }

  lemma {:induction false} StreamKeys(cs: seq<Cursor>, stream: seq<Item>, k: Key)
    requires CursorsOk(cs) && Streamed(Exhausted(cs), stream)
    ensures HasKey(stream, k) <==> exists c :: 0 <= c < |cs| && HasKey(cs[c].items, k)
  {
    var es := Exhausted(cs);
    if HasKey(stream, k) {
      var s :| 0 <= s < |stream| && stream[s].key == k;
      assert Newest(es, stream[s]);
      var c :| 0 <= c < |es| && NewestAt(es, stream[s], c);
      var i :| 0 <= i < |es[c].items| && es[c].items[i] == stream[s];
      assert HasKey(cs[c].items, k);
    }
    if c :| 0 <= c < |cs| && HasKey(cs[c].items, k) {
      var i :| 0 <= i < |cs[c].items| && cs[c].items[i].key == k;
      assert Split(es[c], stream);
      assert HasKey(stream, es[c].items[i].key);
    }
  }

  lemma {:induction false} RunKeys(cs: seq<Cursor>, table: map<Key, Entry>, files: seq<File>, addr: Key, k: Key)
    requires RunsOf(cs, table, files, addr)
    ensures (exists c :: 0 <= c < |cs| && HasKey(cs[c].items, k)) <==>
      HasPrefix(k, addr) && (k in table || (k != addr && exists f :: 0 <= f < |files| && HasKey(files[f].items, k)))
  {
    if c :| 0 <= c < |cs| && HasKey(cs[c].items, k) {
      if c > 0 {
        assert RunOf(cs[c - 1 + 1].items, files[c - 1].items, addr);
      }
    }
    if f :| 0 <= f < |files| && HasKey(files[f].items, k) && HasPrefix(k, addr) && k != addr {
      assert RunOf(cs[f + 1].items, files[f].items, addr);
      assert HasKey(cs[f + 1].items, k);
    }
  }

  /** After the deletion nothing is left below the address, and all else is as before. */
  lemma {:induction false} DeletedView(table: map<Key, Entry>, table': map<Key, Entry>, files: seq<File>,
                                       cs: seq<Cursor>, stream: seq<Item>, addr: Key, k: Key)
    requires RunsOf(cs, table, files, addr) && Streamed(Exhausted(cs), stream) && Cleared(table, table', stream)
    requires k != addr
    ensures ViewOf(table', files, k) == if HasPrefix(k, addr) then [] else ViewOf(table, files, k)
  {
    StreamKeys(cs, stream, k);
    RunKeys(cs, table, files, addr, k);
    assert ClearedAt(table, table', stream, k);
    if HasPrefix(k, addr) && !HasKey(stream, k) {
      SeekPast(files, 0, |files|, k);
    }
  }
}
