/** mergeIntoStateFile: several state files become one. */
module StateMerge {
  import opened ByteKeys
  import opened MergeCursors

  ghost predicate HasKey(items: seq<Item>, k: Key) { exists i :: 0 <= i < |items| && items[i].key == k }

  ghost predicate Holds(items: seq<Item>, x: Item) { exists i :: 0 <= i < |items| && items[i] == x }

  /** x is what the latest of the files that have its key says. */
  ghost predicate Newest(cs: seq<Cursor>, x: Item) {
    exists c :: 0 <= c < |cs| && NewestAt(cs, x, c)
  }

  ghost predicate NewestAt(cs: seq<Cursor>, x: Item, c: nat)
    requires c < |cs|
  {
    Holds(cs[c].items, x) &&
        forall d :: 0 <= d < |cs| && HasKey(cs[d].items, x.key) ==> cs[d].endBlock <= cs[c].endBlock
  }

  // ---- the merged stream

  /** The files from their start, and the cursors after some steps. */
  ghost predicate SameFiles(start: seq<Cursor>, cs: seq<Cursor>) {
    |cs| == |start| && forall c :: 0 <= c < |cs| ==>
        cs[c].items == start[c].items && cs[c].endBlock == start[c].endBlock
  }

  /** The stream so far: ascending, newest values, exactly what is behind the cursors. */
  ghost predicate Streamed(cs: seq<Cursor>, stream: seq<Item>) {
    && Ascending(stream) && (forall i {:trigger Newest(cs, stream[i])} :: 0 <= i < |stream| ==> Newest(cs, stream[i]))
    && (forall c {:trigger Split(cs[c], stream)} :: 0 <= c < |cs| ==> Split(cs[c], stream))
  }

  ghost predicate Split(c: Cursor, stream: seq<Item>) {
    && c.pos <= |c.items|
    && (forall i {:trigger HasKey(stream, c.items[i].key)} :: 0 <= i < c.pos ==> HasKey(stream, c.items[i].key))
    && forall i, s :: c.pos <= i < |c.items| && 0 <= s < |stream| ==> Less(stream[s].key, c.items[i].key)
  }

  /** A cursor that is not at the key has only later keys ahead. */
  lemma {:induction false} SplitNext(cs: seq<Cursor>, t: nat, c: nat, c': Cursor, stream: seq<Item>, x: Item)
    requires CursorsOk(cs) && IsTop(cs, t) && c < |cs| && Split(cs[c], stream) && x == Current(cs[t])
    requires PastKey(cs[c], c', x.key)
    ensures Split(c', stream + [x])
  {
    var more := stream + [x];
    forall i | 0 <= i < c'.pos ensures HasKey(more, c'.items[i].key) {
      if i < cs[c].pos {
        assert HasKey(stream, cs[c].items[i].key);
        var s :| 0 <= s < |stream| && stream[s].key == c'.items[i].key;
        assert more[s].key == c'.items[i].key;
      } else {
        assert more[|stream|].key == c'.items[i].key;
      }
    }
    forall i | c'.pos <= i < |c'.items| ensures Less(x.key, c'.items[i].key) {
      Ahead(cs, t, c, i);
    }
  }

  lemma {:induction false} Ahead(cs: seq<Cursor>, t: nat, c: nat, i: nat)
    requires CursorsOk(cs) && IsTop(cs, t) && c < |cs| && cs[c].pos <= i < |cs[c].items|
    requires i > cs[c].pos || Current(cs[c]).key != Current(cs[t]).key
    ensures Less(Current(cs[t]).key, cs[c].items[i].key)
  {
    var a, b := Current(cs[t]).key, Current(cs[c]).key;
    TopKeyLeast(cs, t, c);
    LessTotal(a, b);
    if i > cs[c].pos {
      assert Less(b, cs[c].items[i].key);
      if a != b {
        LessTransitive(a, b, cs[c].items[i].key);
      }
    }
  }

  /** The value on top of the heap is the newest of all files. */
  lemma {:induction false} TopNewest(cs: seq<Cursor>, t: nat, stream: seq<Item>)
    requires CursorsOk(cs) && IsTop(cs, t) && Streamed(cs, stream)
    ensures Newest(cs, Current(cs[t]))
  {
    var x := Current(cs[t]);
    LessIrreflexive(x.key);
    forall d | 0 <= d < |cs| && HasKey(cs[d].items, x.key) ensures cs[d].endBlock <= cs[t].endBlock {
      var i :| 0 <= i < |cs[d].items| && cs[d].items[i].key == x.key;
      assert Split(cs[d], stream) && Split(cs[t], stream);
      assert i < cs[d].pos ==> HasKey(stream, cs[d].items[i].key);
      if d != t && i >= cs[d].pos && (i > cs[d].pos || Current(cs[d]).key != x.key) {
        Ahead(cs, t, d, i);
      }
    }
    assert NewestAt(cs, x, t);
  }

  lemma {:induction false} NewestSame(cs: seq<Cursor>, cs': seq<Cursor>, x: Item)
    requires SameFiles(cs, cs') && Newest(cs, x)
    ensures Newest(cs', x)
  {
    var c :| 0 <= c < |cs| && NewestAt(cs, x, c);
    assert NewestAt(cs', x, c);
  }

  lemma {:induction false} StreamNext(cs: seq<Cursor>, t: nat, cs': seq<Cursor>, stream: seq<Item>, x: Item)
    requires CursorsOk(cs) && IsTop(cs, t) && Streamed(cs, stream) && x == Current(cs[t])
    requires |cs'| == |cs| && forall c :: 0 <= c < |cs| ==> PastKey(cs[c], cs'[c], x.key)
    ensures Streamed(cs', stream + [x]) && SameFiles(cs, cs')
  {
    var more := stream + [x];
    TopNewest(cs, t, stream);
    forall i | 0 <= i < |more| ensures Newest(cs', more[i]) {
      NewestSame(cs, cs', more[i]);
    }
    assert Split(cs[t], stream);
    forall c | 0 <= c < |cs'| ensures Split(cs'[c], more) {
      assert Split(cs[c], stream);
      SplitNext(cs, t, c, cs'[c], stream, x);
    }
  }

  // ---- what is written

  /** A marker of deletion is dropped when nothing older is left for it to hide; the anchor
      of an address is not a marker. */
  predicate Skip(x: Item, startBlock: nat, prefixLen: nat) {
    startBlock == 0 && x.val == [] && (prefixLen == 0 || |x.key| != prefixLen)
  }

  predicate Anchor(x: Item, prefixLen: nat) { prefixLen > 0 && |x.key| == prefixLen }

  function Kept(stream: seq<Item>, n: nat, startBlock: nat, prefixLen: nat): (r: seq<Item>)
    requires n <= |stream|
  {
    if n == 0 then []
    else
      Kept(stream, n - 1, startBlock, prefixLen) +
          if Skip(stream[n - 1], startBlock, prefixLen) then [] else [stream[n - 1]]
  }

  /** An anchor is written only before an item of its address. */
  predicate Emits(x: Item, next: Item, prefixLen: nat) { !Anchor(x, prefixLen) || HasPrefix(next.key, x.key) }

  /** What has been written when the first n kept items have been seen; the last of them
      is pending. */
  function Written(kept: seq<Item>, n: nat, prefixLen: nat): (r: seq<Item>)
    requires n <= |kept|
  {
    if n <= 1 then []
    else Written(kept, n - 1, prefixLen) + if Emits(kept[n - 2], kept[n - 1], prefixLen) then [kept[n - 2]] else []
  }

  function Final(kept: seq<Item>, prefixLen: nat): seq<Item> {
    Written(kept, |kept|, prefixLen) + if kept == [] then [] else [kept[|kept| - 1]]
  }

  /** The heap after some steps: t is its top, or the number of cursors when it is empty. */
  ghost predicate HeapOk(files: seq<Cursor>, cs: seq<Cursor>, t: nat, stream: seq<Item>) {
    && CursorsOk(cs) && SameFiles(files, cs) && Streamed(cs, stream)
    && if t == |cs| then forall c :: 0 <= c < |cs| ==> !Live(cs[c]) else IsTop(cs, t)
  }

  /** The next pair of the stream. */
  method NextPair(files: seq<Cursor>, cs: seq<Cursor>, t: nat, ghost stream: seq<Item>)
      returns (x: Item, cs': seq<Cursor>, t': nat)
    requires HeapOk(files, cs, t, stream) && t != |cs|
    ensures HeapOk(files, cs', t', stream + [x]) && Sums.Total(Left(cs')) < Sums.Total(Left(cs))
  {
    var lastKey, lastVal;
    lastKey, lastVal, cs' := TakeKey(cs, t);
    x := Item(lastKey, lastVal);
    StreamNext(cs, t, cs', stream, x);
    LeftLess(cs, t, cs', lastKey);
    t' := Top(cs');
  }

  /** The output, with the pending pair, after the first n pairs of the stream. */
  ghost predicate OutputOk(out: seq<Item>, keyBuf: seq<Item>, kept: seq<Item>, prefixLen: nat) {
    out == Written(kept, |kept|, prefixLen) && keyBuf == if kept == [] then [] else [kept[|kept| - 1]]
  }

  /** The pending pair is written, or not, once the next pair that is kept is known. */
  method NextOutput(out: seq<Item>, keyBuf: seq<Item>, x: Item, startBlock: nat, prefixLen: nat, ghost kept: seq<Item>)
      returns (out': seq<Item>, keyBuf': seq<Item>)
    requires OutputOk(out, keyBuf, kept, prefixLen)
    ensures OutputOk(out', keyBuf', kept + if Skip(x, startBlock, prefixLen) then [] else [x], prefixLen)
  {
    out', keyBuf' := out, keyBuf;
    if !Skip(x, startBlock, prefixLen) {
      WrittenNext(kept, x, prefixLen);
      if keyBuf != [] && Emits(keyBuf[0], x, prefixLen) {
        out' := out + keyBuf;
      }
      keyBuf' := [x];
    } else {
      assert kept + [] == kept;
    }
  }

  /** The merge loop. The pending pair is one behind the stream. */
  method MergeIntoStateFile(files: seq<Cursor>, startBlock: nat, prefixLen: nat)
      returns (out: seq<Item>, ghost stream: seq<Item>)
    requires CursorsOk(files) && forall c :: 0 <= c < |files| ==> files[c].pos == 0
    ensures Streamed(Exhausted(files), stream)
    ensures out == Final(Kept(stream, |stream|, startBlock, prefixLen), prefixLen)
    ensures forall x: Item {:trigger Holds(out, x)} :: !Anchor(x, prefixLen) ==>
        (Holds(out, x) <==> Newest(files, x) && (startBlock > 0 || x.val != []))
    ensures AnchorsLead(out, prefixLen)
  {
    var cs, keyBuf: seq<Item> := files, [];
    out, stream := [], [];
    var t := Top(cs);
    while t != |cs|
      invariant HeapOk(files, cs, t, stream)
      invariant OutputOk(out, keyBuf, Kept(stream, |stream|, startBlock, prefixLen), prefixLen)
      decreases Sums.Total(Left(cs))
    {
      var x;
      x, cs, t := NextPair(files, cs, t, stream);
      KeptNext(stream, x, startBlock, prefixLen);
      out, keyBuf := NextOutput(out, keyBuf, x, startBlock, prefixLen, Kept(stream, |stream|, startBlock, prefixLen));
      stream := stream + [x];
    }
    out := out + keyBuf;
    AllExhausted(files, cs, stream);
    forall x: Item ensures !Anchor(x, prefixLen) ==>
        (Holds(out, x) <==> Newest(files, x) && (startBlock > 0 || x.val != []))
    {
      MergedExactly(files, startBlock, prefixLen, stream, out, x);
    }
    MergedAnchors(files, startBlock, prefixLen, stream, out);
  }

  lemma {:induction false} AllExhausted(files: seq<Cursor>, cs: seq<Cursor>, stream: seq<Item>)
    requires HeapOk(files, cs, |cs|, stream)
    ensures Streamed(Exhausted(files), stream)
  {
    assert cs == Exhausted(files);
  }

  ghost function Exhausted(cs: seq<Cursor>): (r: seq<Cursor>)
    ensures |r| == |cs| && forall c :: 0 <= c < |cs| ==> r[c] == cs[c].(pos := |cs[c].items|)
  {
    seq(|cs|, c requires 0 <= c < |cs| => cs[c].(pos := |cs[c].items|))
  }

  lemma {:induction false} KeptSame(s: seq<Item>, s': seq<Item>, n: nat, startBlock: nat, prefixLen: nat)
    requires n <= |s| && s <= s'
    ensures Kept(s', n, startBlock, prefixLen) == Kept(s, n, startBlock, prefixLen)
  {
    if n > 0 {
      KeptSame(s, s', n - 1, startBlock, prefixLen);
    }
  }

  lemma {:induction false} KeptNext(stream: seq<Item>, x: Item, startBlock: nat, prefixLen: nat)
    ensures Kept(stream + [x], |stream| + 1, startBlock, prefixLen) ==
      Kept(stream, |stream|, startBlock, prefixLen) + if Skip(x, startBlock, prefixLen) then [] else [x]
  {
    KeptSame(stream, stream + [x], |stream|, startBlock, prefixLen);
  }

  lemma {:induction false} WrittenSame(s: seq<Item>, s': seq<Item>, n: nat, prefixLen: nat)
    requires n <= |s| && s <= s'
    ensures Written(s', n, prefixLen) == Written(s, n, prefixLen)
  {
    if n > 1 {
      WrittenSame(s, s', n - 1, prefixLen);
    }
  }

  lemma {:induction false} WrittenNext(kept: seq<Item>, x: Item, prefixLen: nat)
    ensures Written(kept + [x], |kept| + 1, prefixLen) ==
      Written(kept, |kept|, prefixLen) + if kept != [] &&
          Emits(kept[|kept| - 1], x, prefixLen) then [kept[|kept| - 1]] else []
  {
    WrittenSame(kept, kept + [x], |kept|, prefixLen);
  }

  lemma {:induction false} LeftLess(cs: seq<Cursor>, t: nat, cs': seq<Cursor>, key: Key)
    requires t < |cs| == |cs'| && Live(cs[t]) && Current(cs[t]).key == key
    requires forall c :: 0 <= c < |cs| ==> PastKey(cs[c], cs'[c], key)
    ensures Sums.Total(Left(cs')) < Sums.Total(Left(cs))
  {
    SumLess(Left(cs'), Left(cs), t, |cs|);
  }

  lemma {:induction false} SumLess(a: seq<nat>, b: seq<nat>, t: nat, n: nat)
    requires |a| == |b| && n <= |a| && t < |a| && a[t] < b[t] && forall i :: 0 <= i < |a| ==> a[i] <= b[i]
    ensures Sums.Sum(a, n) <= Sums.Sum(b, n) && (t < n ==> Sums.Sum(a, n) < Sums.Sum(b, n))
  {
    if n > 0 {
      SumLess(a, b, t, n - 1);
    }
  }

  // ---- what the merged file says

  /** Every key has one newest value. */
  lemma {:induction false} NewestUnique(files: seq<Cursor>, x: Item, y: Item)
    requires CursorsOk(files) && Newest(files, x) && Newest(files, y) && x.key == y.key
    ensures x == y
  {
    var c :| 0 <= c < |files| && NewestAt(files, x, c);
    var d :| 0 <= d < |files| && NewestAt(files, y, d);
    var i :| 0 <= i < |files[c].items| && files[c].items[i] == x;
    var j :| 0 <= j < |files[d].items| && files[d].items[j] == y;
    assert HasKey(files[c].items, y.key) && HasKey(files[d].items, x.key);
    assert c == d;
    LessIrreflexive(x.key);
  }

  /** The whole stream is exactly the newest values. */
  lemma {:induction false} StreamNewest(files: seq<Cursor>, stream: seq<Item>, x: Item)
    requires CursorsOk(files) && Streamed(Exhausted(files), stream)
    ensures Holds(stream, x) <==> Newest(files, x)
  {
    var cs := Exhausted(files);
    if Holds(stream, x) {
      NewestSame(cs, files, x);
    }
    if Newest(files, x) {
      var c :| 0 <= c < |files| && NewestAt(files, x, c);
      var i :| 0 <= i < |files[c].items| && files[c].items[i] == x;
      assert Split(cs[c], stream);
      assert HasKey(stream, cs[c].items[i].key);
      var s :| 0 <= s < |stream| && stream[s].key == x.key;
      NewestSame(cs, files, stream[s]);
      NewestUnique(files, x, stream[s]);
    }
  }

  lemma {:induction false} KeptHas(stream: seq<Item>, n: nat, startBlock: nat, prefixLen: nat, x: Item)
    requires n <= |stream|
    ensures Holds(Kept(stream, n, startBlock, prefixLen), x) <==>
      !Skip(x, startBlock, prefixLen) && exists i :: 0 <= i < n && stream[i] == x
  {
    if n > 0 {
      KeptHas(stream, n - 1, startBlock, prefixLen, x);
      var before, after := Kept(stream, n - 1, startBlock, prefixLen), Kept(stream, n, startBlock, prefixLen);
      if Holds(before, x) {
        var i :| 0 <= i < |before| && before[i] == x;
        assert after[i] == x;
      }
      if stream[n - 1] == x && !Skip(x, startBlock, prefixLen) {
        assert after[|after| - 1] == x;
      }
    }
  }

  lemma {:induction false} KeptAscends(stream: seq<Item>, n: nat, startBlock: nat, prefixLen: nat)
    requires n <= |stream| && Ascending(stream)
    ensures Ascending(Kept(stream, n, startBlock, prefixLen))
    ensures forall i, s :: 0 <= i < |Kept(stream, n, startBlock, prefixLen)| && n <= s < |stream| ==>
      Less(Kept(stream, n, startBlock, prefixLen)[i].key, stream[s].key)
  {
    if n > 0 {
      KeptAscends(stream, n - 1, startBlock, prefixLen);
    }
  }

  lemma {:induction false} WrittenAscends(kept: seq<Item>, n: nat, prefixLen: nat)
    requires n <= |kept| && Ascending(kept)
    ensures Ascending(Written(kept, n, prefixLen))
    ensures forall i, s :: 0 <= i < |Written(kept, n, prefixLen)| && 0 <= s < |kept| && n <= s + 1 ==>
      Less(Written(kept, n, prefixLen)[i].key, kept[s].key)
  {
    if n > 1 {
      WrittenAscends(kept, n - 1, prefixLen);
    }
  }

  lemma {:induction false} WrittenHas(kept: seq<Item>, n: nat, prefixLen: nat, x: Item)
    requires n <= |kept|
    ensures Holds(Written(kept, n, prefixLen), x) <==>
      exists i :: 0 <= i < n - 1 && kept[i] == x && Emits(x, kept[i + 1], prefixLen)
  {
    if n > 1 {
      WrittenHas(kept, n - 1, prefixLen, x);
      var before, after := Written(kept, n - 1, prefixLen), Written(kept, n, prefixLen);
      if Holds(before, x) {
        var i :| 0 <= i < |before| && before[i] == x;
        assert after[i] == x;
      }
      if kept[n - 2] == x && Emits(x, kept[n - 1], prefixLen) {
        assert after[|after| - 1] == x;
      }
    }
  }

  /** An item is in the merged file exactly if it is kept and, being an anchor, comes right
      before an item of its address or at the very end. */
  lemma {:induction false} FinalHas(kept: seq<Item>, prefixLen: nat, x: Item)
    ensures Holds(Final(kept, prefixLen), x) <==>
      exists i :: 0 <= i < |kept| && kept[i] == x && (i == |kept| - 1 || Emits(x, kept[i + 1], prefixLen))
  {
    WrittenHas(kept, |kept|, prefixLen, x);
    var w, f := Written(kept, |kept|, prefixLen), Final(kept, prefixLen);
    if Holds(w, x) {
      var i :| 0 <= i < |w| && w[i] == x;
      assert f[i] == x;
    }
    if kept != [] && kept[|kept| - 1] == x {
      assert f[|f| - 1] == x;
    }
  }

  ghost predicate MergedFrom(files: seq<Cursor>, startBlock: nat, prefixLen: nat, stream: seq<Item>, out: seq<Item>) {
    && CursorsOk(files) && Streamed(Exhausted(files), stream)
    && out == Final(Kept(stream, |stream|, startBlock, prefixLen), prefixLen)
  }

  /** The merged file is sorted. */
  lemma {:induction false} MergedAscends(files: seq<Cursor>, startBlock: nat, prefixLen: nat, stream: seq<Item>,
                                         out: seq<Item>)
    requires MergedFrom(files, startBlock, prefixLen, stream, out)
    ensures Ascending(out)
  {
    var kept := Kept(stream, |stream|, startBlock, prefixLen);
    KeptAscends(stream, |stream|, startBlock, prefixLen);
    WrittenAscends(kept, |kept|, prefixLen);
  }

  /** It holds the newest values and nothing else, without the markers that may go; of the
      anchors some may go too. */
  lemma {:induction false} MergedNewest(files: seq<Cursor>, startBlock: nat, prefixLen: nat, stream: seq<Item>,
                                        out: seq<Item>, x: Item)
    requires MergedFrom(files, startBlock, prefixLen, stream, out)
    ensures Holds(out, x) ==> Newest(files, x) && !Skip(x, startBlock, prefixLen)
    ensures Newest(files, x) && !Skip(x, startBlock, prefixLen) && !Anchor(x, prefixLen) ==> Holds(out, x)
  {
    var kept := Kept(stream, |stream|, startBlock, prefixLen);
    FinalHas(kept, prefixLen, x);
    KeptHas(stream, |stream|, startBlock, prefixLen, x);
    StreamNewest(files, stream, x);
    if Newest(files, x) && !Skip(x, startBlock, prefixLen) && !Anchor(x, prefixLen) {
      var i :| 0 <= i < |kept| && kept[i] == x;
      assert i < |kept| - 1 ==> Emits(x, kept[i + 1], prefixLen);
    }
  }

  /** Beside anchors the merged file holds exactly the newest values, and in the first file of all no markers. */
  lemma {:induction false} MergedExactly(files: seq<Cursor>, startBlock: nat, prefixLen: nat, stream: seq<Item>,
                                         out: seq<Item>, x: Item)
    requires MergedFrom(files, startBlock, prefixLen, stream, out)
    ensures !Anchor(x, prefixLen) ==> (Holds(out, x) <==> Newest(files, x) && (startBlock > 0 || x.val != []))
  {
    MergedNewest(files, startBlock, prefixLen, stream, out, x);
  }

  /** An anchor that is not the last item stands right before an item of its address. */
  ghost predicate AnchorsLead(out: seq<Item>, prefixLen: nat) {
    forall i {:trigger Anchor(out[i], prefixLen)} :: 0 <= i < |out| - 1 && Anchor(out[i], prefixLen) ==>
        HasPrefix(out[i + 1].key, out[i].key)
  }

  /** Two anchors of one length are not of one address. */
  lemma AnchorsApart(x: Item, y: Item, prefixLen: nat)
    requires Anchor(x, prefixLen) && Anchor(y, prefixLen) && Less(x.key, y.key)
    ensures !HasPrefix(y.key, x.key)
  {
    if HasPrefix(y.key, x.key) {
      assert x.key == y.key;
      LessIrreflexive(x.key);
    }
  }

  lemma {:induction false} PendingLeads(kept: seq<Item>, n: nat, prefixLen: nat)
    requires 0 < n <= |kept| && Ascending(kept)
    ensures AnchorsLead(Written(kept, n, prefixLen) + [kept[n - 1]], prefixLen)
  {
    if n > 1 {
      PendingLeads(kept, n - 1, prefixLen);
      var before, x, next := Written(kept, n - 1, prefixLen), kept[n - 2], kept[n - 1];
      var was, now := before + [x], Written(kept, n, prefixLen) + [next];
      if Emits(x, next, prefixLen) {
        assert now == was + [next];
        assert forall i :: 0 <= i < |was| ==> now[i] == was[i];
      } else {
        assert now == before + [next];
        forall i | 0 <= i < |now| - 1 && Anchor(now[i], prefixLen) ensures HasPrefix(now[i + 1].key, now[i].key) {
          assert now[i] == was[i] && Anchor(was[i], prefixLen);
          if i == |before| - 1 {
            WrittenAscends(kept, n - 1, prefixLen);
            AnchorsApart(was[i], x, prefixLen);
          } else {
            assert now[i + 1] == was[i + 1];
          }
        }
      }
    }
  }

  lemma {:induction false} MergedAnchors(files: seq<Cursor>, startBlock: nat, prefixLen: nat, stream: seq<Item>,
                                         out: seq<Item>)
    requires MergedFrom(files, startBlock, prefixLen, stream, out)
    ensures AnchorsLead(out, prefixLen)
  {
    var kept := Kept(stream, |stream|, startBlock, prefixLen);
    KeptAscends(stream, |stream|, startBlock, prefixLen);
    if kept != [] {
      PendingLeads(kept, |kept|, prefixLen);
    }
  }

  /** A key of the merged file has its newest value; a key that is not there has none, or a
      marker that may go. */
  lemma {:induction false} MergedKey(files: seq<Cursor>, startBlock: nat, prefixLen: nat, stream: seq<Item>,
                                     out: seq<Item>, x: Item)
    requires MergedFrom(files, startBlock, prefixLen, stream, out) && Newest(files, x) && !Anchor(x, prefixLen)
    ensures forall i :: 0 <= i < |out| && out[i].key == x.key ==> out[i] == x
    ensures HasKey(out, x.key) || Skip(x, startBlock, prefixLen)
  {
    MergedNewest(files, startBlock, prefixLen, stream, out, x);
    forall i | 0 <= i < |out| && out[i].key == x.key ensures out[i] == x {
      MergedNewest(files, startBlock, prefixLen, stream, out, out[i]);
      NewestUnique(files, out[i], x);
    }
    if Holds(out, x) {
      var i :| 0 <= i < |out| && out[i] == x;
      assert out[i].key == x.key;
    }
  }

  /** What follows an anchor belongs to its address, if anything of the address is there. */
  lemma {:induction false} AnchorFollowed(kept: seq<Item>, i: nat, j: nat)
    requires Ascending(kept) && i < |kept| && j < |kept| && HasPrefix(kept[j].key, kept[i].key)
    requires kept[i].key != kept[j].key
    ensures i < j && HasPrefix(kept[i + 1].key, kept[i].key)
  {
    var a, x := kept[i].key, kept[j].key;
    PrefixLess(a, x);
    LessAsymmetric(a, x);
    assert i < j;
    var b := kept[i + 1].key;
    LessAsymmetric(a, b);
    LessIrreflexive(x);
    if i + 1 < j {
      LessAsymmetric(b, x);
    }
    PrefixInterval(a, a, b, x);
  }

  /** Where an item of an address is kept, the address's anchor is kept before it. */
  lemma {:induction false} AnchorKept(files: seq<Cursor>, startBlock: nat, prefixLen: nat, stream: seq<Item>,
                                      out: seq<Item>, a: Item, x: Item)
    requires MergedFrom(files, startBlock, prefixLen, stream, out) && Anchor(a, prefixLen) && HasPrefix(x.key, a.key)
    requires x.key != a.key
    requires Newest(files, a) && Holds(out, x)
    ensures Holds(out, a)
  {
    var kept := Kept(stream, |stream|, startBlock, prefixLen);
    KeptAscends(stream, |stream|, startBlock, prefixLen);
    FinalHas(kept, prefixLen, x);
    FinalHas(kept, prefixLen, a);
    StreamNewest(files, stream, a);
    KeptHas(stream, |stream|, startBlock, prefixLen, a);
    var i :| 0 <= i < |kept| && kept[i] == a;
    var j :| 0 <= j < |kept| && kept[j] == x;
    AnchorFollowed(kept, i, j);
    assert Emits(kept[i], kept[i + 1], prefixLen);
  }
}
