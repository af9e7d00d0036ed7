/** The state files of one type, oldest first, and what reading them gives. */
module StateFiles {
  import opened ByteKeys
  import opened MergeCursors
  import opened StateMerge

  datatype File = File(startBlock: nat, endBlock: nat, items: seq<Item>)

  /** A value that was read, with the first block of its file. */
  datatype Read = Missing | Found(val: seq<nat>, startBlock: nat)

  /** To the callers nothing and an empty value are the same. */
  function ValueOf(r: Read): seq<nat> { if r.Found? then r.val else [] }

  ghost predicate FilesOk(files: seq<File>) {
    && (forall i :: 0 <= i < |files| ==> files[i].startBlock <= files[i].endBlock && Ascending(files[i].items))
    && forall i, j {:trigger InOrder(files, i, j)} :: 0 <= i < j < |files| ==> InOrder(files, i, j)
  }

  ghost predicate InOrder(files: seq<File>, i: nat, j: nat)
    requires i < |files| && j < |files|
  {
    files[i].endBlock < files[j].startBlock
  }

  /** The place of a key among the first n items, or n. */
  function Find(items: seq<Item>, n: nat, k: Key): (i: nat)
    requires n <= |items|
    ensures i <= n && (i < n ==> items[i].key == k) && (i == n ==> forall j :: 0 <= j < n ==> items[j].key != k)
  {
    if n == 0 then 0
    else
      var i := Find(items, n - 1, k);
      if i < n - 1 || items[n - 1].key == k then i else n
  }

  /** What the newest of the first n files with the key says. */
  function Seek(files: seq<File>, n: nat, k: Key): (r: Read)
    requires n <= |files|
  {
    if n == 0 then Missing
    else
      var items := files[n - 1].items;
      var i := Find(items, |items|, k);
      if i < |items| then Found(items[i].val, files[n - 1].startBlock) else Seek(files, n - 1, k)
  }

  /** How many of the first n files end by a block. */
  function UpTo(files: seq<File>, n: nat, block: nat): (r: nat)
    requires n <= |files|
    ensures r <= n && (r > 0 ==> files[r - 1].endBlock <= block) && forall j :: r <= j < n ==> files[j].endBlock > block
  {
    if n == 0 || files[n - 1].endBlock <= block then n else UpTo(files, n - 1, block)
  }

  /** The first file from place i on that does not end before a block. */
  function FirstFrom(files: seq<File>, i: nat, block: nat): (r: nat)
    requires i <= |files|
    ensures i <= r <= |files| && (r < |files| ==> files[r].endBlock >= block)
    ensures forall j :: i <= j < r ==> files[j].endBlock < block
    decreases |files| - i
  {
    if i == |files| || files[i].endBlock >= block then i else FirstFrom(files, i + 1, block)
  }

  /** The newer files without the key make no difference. */
  lemma {:induction false} SeekPast(files: seq<File>, m: nat, n: nat, k: Key)
    requires m <= n <= |files| && forall j :: m <= j < n ==> !HasKey(files[j].items, k)
    ensures Seek(files, n, k) == Seek(files, m, k)
  {
    if m < n {
      assert !HasKey(files[n - 1].items, k);
      SeekPast(files, m, n - 1, k);
    }
  }

  lemma {:induction false} SeekSame(files: seq<File>, more: seq<File>, n: nat, k: Key)
    requires n <= |files| && n <= |more| && forall i :: 0 <= i < n ==> more[i] == files[i]
    ensures Seek(more, n, k) == Seek(files, n, k)
  {
    if n > 0 {
      SeekSame(files, more, n - 1, k);
    }
  }

  // ---- the arch: a hash table with the block of the last change

  function Slot(hash: Key -> nat, n: nat, k: Key): (p: nat)
    requires n > 0
    ensures p < n
  {
    hash(k) % n
  }

  /** The arch entry of the key of every value leads to its file or to a later one. */
  ghost predicate ArchOk(files: seq<File>, arch: seq<nat>, hash: Key -> nat, prefixLen: nat) {
    |arch| > 0 ==> forall f, i ::
      0 <= f < |files| && 0 <= i < |files[f].items| && !Anchor(files[f].items[i], prefixLen) ==>
      Marked(files[f], arch, hash, files[f].items[i].key)
  }

  ghost predicate Marked(f: File, arch: seq<nat>, hash: Key -> nat, k: Key)
    requires |arch| > 0
  {
    arch[Slot(hash, |arch|, k)] >= 1 && arch[Slot(hash, |arch|, k)] >= f.startBlock
  }

  /** The block from which to look, according to the arch; nothing if there is no such key. */
  function ArchBound(files: seq<File>, arch: seq<nat>, hash: Key -> nat, k: Key, block: nat): (r: seq<nat>)
    ensures |r| <= 1
  {
    if |arch| == 0 then [block]
    else
      var v := arch[Slot(hash, |arch|, k)];
      if v == 0 then []
      else
        var i := FirstFrom(files, 0, v);
        [if i < |files| && files[i].endBlock < block then files[i].endBlock else block]
  }

  /** The arch changes nothing of what is read, whatever keys share its entries. */
  lemma {:induction false} ArchSound(files: seq<File>, arch: seq<nat>, hash: Key -> nat, prefixLen: nat, k: Key,
                                     block: nat)
    requires FilesOk(files) && ArchOk(files, arch, hash, prefixLen) && (prefixLen == 0 || |k| != prefixLen)
    ensures var b := ArchBound(files, arch, hash, k, block);
      Seek(files, UpTo(files, |files|, block), k) ==
      if b == [] then Missing else Seek(files, UpTo(files, |files|, b[0]), k)
  {
    var m := UpTo(files, |files|, block);
    if |arch| > 0 {
      var v := arch[Slot(hash, |arch|, k)];
      var i := FirstFrom(files, 0, v);
      forall j | 0 <= j < |files| && (v == 0 || j > i) ensures !HasKey(files[j].items, k) {
        assert i < j ==> InOrder(files, i, j);
        Unmarked(files, arch, hash, prefixLen, k, j);
      }
      if v == 0 {
        SeekPast(files, 0, m, k);
      } else if i < |files| && files[i].endBlock < block {
        var n := UpTo(files, |files|, files[i].endBlock);
        assert i < n - 1 ==> InOrder(files, i, n - 1);
        assert n == i + 1 <= m;
        SeekPast(files, i + 1, m, k);
      }
    }
  }

  lemma Unmarked(files: seq<File>, arch: seq<nat>, hash: Key -> nat, prefixLen: nat, k: Key, j: nat)
    requires FilesOk(files) && ArchOk(files, arch, hash, prefixLen) && (prefixLen == 0 || |k| != prefixLen)
    requires |arch| > 0 && j < |files|
    requires arch[Slot(hash, |arch|, k)] == 0 || arch[Slot(hash, |arch|, k)] < files[j].startBlock
    ensures !HasKey(files[j].items, k)
  {
    forall i | 0 <= i < |files[j].items| ensures files[j].items[i].key != k {
      assert files[j].items[i].key == k ==> Marked(files[j], arch, hash, k);
    }
  }

  /** Block 0 doubles as "never": with steps of one block the first file, of block 0 alone, is
      never found through the arch, and with longer steps the first file always is. */
  lemma FirstFileFound(arch: seq<nat>, hash: Key -> nat, k: Key, v: seq<nat>, last: nat, block: nat)
    requires |arch| > 0 && arch[Slot(hash, |arch|, k)] == last <= block
    ensures var files := [File(0, last, [Item(k, v)])];
      var b := ArchBound(files, arch, hash, k, block);
      && Seek(files, UpTo(files, 1, block), k) == Found(v, 0)
      && ((if b == [] then Missing else Seek(files, UpTo(files, 1, b[0]), k)) == Found(v, 0) <==> last > 0)
  {
    var files := [File(0, last, [Item(k, v)])];
    assert Find(files[0].items, 1, k) == 0;
    assert UpTo(files, 1, block) == 1 == UpTo(files, 1, last);
  }

  // ---- merging files of the registry

  /** The cursors of the merge over the files lo to hi. */
  function CursorsOf(files: seq<File>, lo: nat, hi: nat): (cs: seq<Cursor>)
    requires lo <= hi <= |files|
    ensures |cs| == hi - lo
    ensures forall c :: 0 <= c < |cs| ==> cs[c] == Cursor(files[lo + c].items, files[lo + c].endBlock, 0)
  {
    seq(hi - lo, c requires 0 <= c < hi - lo => Cursor(files[lo + c].items, files[lo + c].endBlock, 0))
  }

  lemma CursorsOfOk(files: seq<File>, lo: nat, hi: nat)
    requires FilesOk(files) && lo <= hi <= |files|
    ensures CursorsOk(CursorsOf(files, lo, hi))
  {
    var cs := CursorsOf(files, lo, hi);
    forall c, d | 0 <= c < d < |cs| ensures cs[c].endBlock != cs[d].endBlock {
      assert InOrder(files, lo + c, lo + d);
    }
  }

  /** Reading finds what is newest. */
  lemma {:induction false} SeekNewest(files: seq<File>, lo: nat, hi: nat, n: nat, k: Key)
    requires FilesOk(files) && lo <= n <= hi <= |files| && forall j :: n <= j < hi ==> !HasKey(files[j].items, k)
    ensures (Seek(files, n, k) == Seek(files, lo, k) && (forall j :: lo <= j < hi ==> !HasKey(files[j].items, k)))
      || (Seek(files, n, k).Found? && Newest(CursorsOf(files, lo, hi), Item(k, Seek(files, n, k).val)))
    decreases n
  {
    if n > lo {
      var items := files[n - 1].items;
      var i := Find(items, |items|, k);
      if i < |items| {
        HereNewest(files, lo, hi, n, Item(k, items[i].val), i);
      } else {
        SeekNewest(files, lo, hi, n - 1, k);
      }
    }
  }

  lemma HereNewest(files: seq<File>, lo: nat, hi: nat, n: nat, x: Item, i: nat)
    requires FilesOk(files) && lo < n <= hi <= |files| && (forall j :: n <= j < hi ==> !HasKey(files[j].items, x.key))
    requires i < |files[n - 1].items| && files[n - 1].items[i] == x
    ensures Newest(CursorsOf(files, lo, hi), x)
  {
    var cs := CursorsOf(files, lo, hi);
    assert Holds(cs[n - 1 - lo].items, x);
    forall d | 0 <= d < |cs| && HasKey(cs[d].items, x.key) ensures cs[d].endBlock <= cs[n - 1 - lo].endBlock {
      assert lo + d < n - 1 ==> InOrder(files, lo + d, n - 1);
    }
    assert NewestAt(cs, x, n - 1 - lo);
  }

  /** The registry after the switch to the merged file. */
  function Switched(files: seq<File>, lo: nat, hi: nat, file: File): (r: seq<File>)
    requires lo < hi <= |files|
    ensures |r| == |files| - (hi - lo) + 1
    ensures forall i :: 0 <= i < |r| ==>
        r[i] == if i < lo then files[i] else if i == lo then file else files[i + (hi - lo) - 1]
  {
    seq(|files| - (hi - lo) + 1, i requires 0 <= i < |files| - (hi - lo) + 1 =>
      if i < lo then files[i] else if i == lo then file else files[i + (hi - lo) - 1])
  }

  /** file is the merge of the files lo to hi. */
  ghost predicate MergeOf(files: seq<File>, lo: nat, hi: nat, file: File, prefixLen: nat) {
    && lo < hi <= |files| && file.startBlock == files[lo].startBlock && file.endBlock == files[hi - 1].endBlock
    && exists stream :: MergedFrom(CursorsOf(files, lo, hi), file.startBlock, prefixLen, stream, file.items)
  }

  /** Beside anchors a file has no markers of deletion. */
  predicate NoMarkers(file: File, prefixLen: nat) {
    forall i {:trigger file.items[i]} :: 0 <= i < |file.items| && file.items[i].val == [] ==>
        Anchor(file.items[i], prefixLen)
  }

  /** A merge from block 0 on leaves no markers. */
  lemma {:induction false} MergedNoMarkers(files: seq<File>, lo: nat, hi: nat, file: File, prefixLen: nat)
    requires MergeOf(files, lo, hi, file, prefixLen) && file.startBlock == 0
    ensures NoMarkers(file, prefixLen)
  {
    var stream :| MergedFrom(CursorsOf(files, lo, hi), file.startBlock, prefixLen, stream, file.items);
    forall i | 0 <= i < |file.items| && file.items[i].val == [] ensures Anchor(file.items[i], prefixLen) {
      MergedExactly(CursorsOf(files, lo, hi), file.startBlock, prefixLen, stream, file.items, file.items[i]);
      assert Holds(file.items, file.items[i]);
    }
  }

  lemma {:induction false} SwitchedOk(files: seq<File>, lo: nat, hi: nat, file: File, prefixLen: nat)
    requires FilesOk(files) && MergeOf(files, lo, hi, file, prefixLen)
    ensures FilesOk(Switched(files, lo, hi, file))
  {
    var stream :| MergedFrom(CursorsOf(files, lo, hi), file.startBlock, prefixLen, stream, file.items);
    CursorsOfOk(files, lo, hi);
    MergedAscends(CursorsOf(files, lo, hi), file.startBlock, prefixLen, stream, file.items);
    SwitchedOrder(files, lo, hi, file);
  }

  lemma SwitchedOrder(files: seq<File>, lo: nat, hi: nat, file: File)
    requires FilesOk(files) && lo < hi <= |files| && Ascending(file.items)
    requires file.startBlock == files[lo].startBlock && file.endBlock == files[hi - 1].endBlock
    ensures FilesOk(Switched(files, lo, hi, file))
  {
    var r := Switched(files, lo, hi, file);
    assert lo < hi - 1 ==> InOrder(files, lo, hi - 1);
    forall i | 0 <= i < |r| ensures r[i].startBlock <= r[i].endBlock && Ascending(r[i].items) {
    }
    forall i, j | 0 <= i < j < |r| ensures InOrder(r, i, j) {
      SwitchedPair(files, lo, hi, file, i, j);
    }
  }

  lemma SwitchedPair(files: seq<File>, lo: nat, hi: nat, file: File, i: nat, j: nat)
    requires FilesOk(files) && lo < hi <= |files| && i < j < |Switched(files, lo, hi, file)|
    requires file.startBlock == files[lo].startBlock && file.endBlock == files[hi - 1].endBlock
    ensures InOrder(Switched(files, lo, hi, file), i, j)
  {
    var a := if i < lo then i else if i == lo then hi - 1 else i + (hi - lo) - 1;
    var b := if j <= lo then j else j + (hi - lo) - 1;
    assert InOrder(files, a, b);
  }

  /** The merged file answers like the files it replaces. */
  lemma {:induction false} MergedAnswers(files: seq<File>, lo: nat, hi: nat, file: File, prefixLen: nat,
                                         stream: seq<Item>, k: Key)
    requires FilesOk(files) && lo < hi <= |files| && file.startBlock == files[lo].startBlock
    requires (prefixLen == 0 || |k| != prefixLen)
    requires MergedFrom(CursorsOf(files, lo, hi), file.startBlock, prefixLen, stream, file.items)
    ensures ValueOf(Seek(Switched(files, lo, hi, file), lo + 1, k)) == ValueOf(Seek(files, hi, k))
  {
    var r, cs := Switched(files, lo, hi, file), CursorsOf(files, lo, hi);
    SeekSame(files, r, lo, k);
    SeekNewest(files, lo, hi, hi, k);
    var i := Find(file.items, |file.items|, k);
    var read := Seek(files, hi, k);
    assert InOrder(files, 0, lo) || lo == 0;
    if read.Found? && Newest(cs, Item(k, read.val)) {
      MergedKey(cs, file.startBlock, prefixLen, stream, file.items, Item(k, read.val));
      if i == |file.items| {
        assert Skip(Item(k, read.val), file.startBlock, prefixLen);
        assert lo == 0;
      }
    } else {
      MergedNothing(files, lo, hi, file, prefixLen, stream, k);
    }
  }

  /** No key comes into being. */
  lemma {:induction false} MergedNothing(files: seq<File>, lo: nat, hi: nat, file: File, prefixLen: nat,
                                         stream: seq<Item>, k: Key)
    requires lo < hi <= |files| && (forall j :: lo <= j < hi ==> !HasKey(files[j].items, k))
    requires MergedFrom(CursorsOf(files, lo, hi), file.startBlock, prefixLen, stream, file.items)
    ensures !HasKey(file.items, k)
  {
    forall i | 0 <= i < |file.items| ensures file.items[i].key != k {
      var x := file.items[i];
      assert Holds(file.items, x);
      MergedNewest(CursorsOf(files, lo, hi), file.startBlock, prefixLen, stream, file.items, x);
      NewestIn(files, lo, hi, x);
    }
  }

  lemma NewestIn(files: seq<File>, lo: nat, hi: nat, x: Item)
    requires lo <= hi <= |files| && Newest(CursorsOf(files, lo, hi), x)
    ensures exists j :: lo <= j < hi && HasKey(files[j].items, x.key) && Holds(files[j].items, x)
  {
    var cs := CursorsOf(files, lo, hi);
    var c :| 0 <= c < |cs| && NewestAt(cs, x, c);
    var i :| 0 <= i < |cs[c].items| && cs[c].items[i] == x;
    assert HasKey(files[lo + c].items, x.key);
  }

  lemma {:induction false} SwitchAbove(files: seq<File>, lo: nat, hi: nat, file: File, k: Key, n: nat)
    requires lo < hi <= n <= |files|
    requires ValueOf(Seek(Switched(files, lo, hi, file), lo + 1, k)) == ValueOf(Seek(files, hi, k))
    ensures ValueOf(Seek(Switched(files, lo, hi, file), n - (hi - lo) + 1, k)) == ValueOf(Seek(files, n, k))
  {
    if n > hi {
      SwitchAbove(files, lo, hi, file, k, n - 1);
      assert Switched(files, lo, hi, file)[n - (hi - lo)] == files[n - 1];
    }
  }

  ghost function Stream(files: seq<File>, lo: nat, hi: nat, file: File, prefixLen: nat): (stream: seq<Item>)
    requires MergeOf(files, lo, hi, file, prefixLen)
    ensures MergedFrom(CursorsOf(files, lo, hi), file.startBlock, prefixLen, stream, file.items)
  {
    var stream :| MergedFrom(CursorsOf(files, lo, hi), file.startBlock, prefixLen, stream, file.items);
    stream
  }

  /** Merging is not seen by the readers. */
  lemma {:induction false} SwitchUnseen(files: seq<File>, lo: nat, hi: nat, file: File, prefixLen: nat, k: Key)
    requires FilesOk(files) && MergeOf(files, lo, hi, file, prefixLen) && (prefixLen == 0 || |k| != prefixLen)
    ensures var n := |files| - (hi - lo) + 1;
      ValueOf(Seek(Switched(files, lo, hi, file), n, k)) == ValueOf(Seek(files, |files|, k))
  {
    assert ValueOf(Seek(Switched(files, lo, hi, file), lo + 1, k)) == ValueOf(Seek(files, hi, k)) by {
      MergedAnswers(files, lo, hi, file, prefixLen, Stream(files, lo, hi, file, prefixLen), k);
    }
    SwitchAbove(files, lo, hi, file, k, |files|);
  }
}
