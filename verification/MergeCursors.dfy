/** The cursor heap: a merge of sorted key-value lists, where of several values for a key
    the one with the latest end block wins. The heap holds the cursors that are not
    exhausted. */
module MergeCursors {
  import opened ByteKeys
  import opened Sums

  datatype Item = Item(key: Key, val: seq<nat>)

  datatype Cursor = Cursor(items: seq<Item>, endBlock: nat, pos: nat)

  ghost predicate Ascending(items: seq<Item>) {
    forall i, j :: 0 <= i < j < |items| ==> Less(items[i].key, items[j].key)
  }

  predicate Live(c: Cursor) { c.pos < |c.items| }

  function Current(c: Cursor): Item
    requires Live(c)
  {
    c.items[c.pos]
  }

  ghost predicate CursorsOk(cs: seq<Cursor>) {
    && (forall c :: 0 <= c < |cs| ==> Ascending(cs[c].items) && cs[c].pos <= |cs[c].items|)
    && forall c, d :: 0 <= c < d < |cs| ==> cs[c].endBlock != cs[d].endBlock
  }

  /** CursorHeap.Less: by key, then the later block first. */
  predicate Before(a: Cursor, b: Cursor)
    requires Live(a) && Live(b)
  {
    Less(Current(a).key, Current(b).key) || (Current(a).key == Current(b).key && a.endBlock > b.endBlock)
  }

  /** t is on top of the heap. */
  ghost predicate IsTop(cs: seq<Cursor>, t: nat) {
    t < |cs| && Live(cs[t]) && forall c :: 0 <= c < |cs| && Live(cs[c]) && c != t ==> Before(cs[t], cs[c])
  }

  lemma BeforeTransitive(a: Cursor, b: Cursor, c: Cursor)
    requires Live(a) && Live(b) && Live(c) && Before(a, b) && Before(b, c)
    ensures Before(a, c)
  {
    if Less(Current(a).key, Current(b).key) && Less(Current(b).key, Current(c).key) {
      LessTransitive(Current(a).key, Current(b).key, Current(c).key);
    }
  }

  lemma BeforeTotal(a: Cursor, b: Cursor)
    requires Live(a) && Live(b) && a.endBlock != b.endBlock
    ensures Before(a, b) || Before(b, a)
  {
    LessTotal(Current(a).key, Current(b).key);
  }

  /** The top of the heap, or the number of cursors when all are exhausted. */
  method Top(cs: seq<Cursor>) returns (t: nat)
    requires CursorsOk(cs)
    ensures t == |cs| ==> forall c :: 0 <= c < |cs| ==> !Live(cs[c])
    ensures t != |cs| ==> IsTop(cs, t)
  {
    t := |cs|;
    for i := 0 to |cs|
      invariant t == |cs| || t < i
      invariant t == |cs| ==> forall c :: 0 <= c < i ==> !Live(cs[c])
      invariant t != |cs| ==> Live(cs[t]) && forall c :: 0 <= c < i && Live(cs[c]) && c != t ==> Before(cs[t], cs[c])
    {
      if Live(cs[i]) {
        if t == |cs| {
          t := i;
        } else {
          BeforeTotal(cs[t], cs[i]);
          if Before(cs[i], cs[t]) {
            forall c | 0 <= c < i && Live(cs[c]) && c != t ensures Before(cs[i], cs[c]) {
              BeforeTransitive(cs[i], cs[t], cs[c]);
            }
            t := i;
          }
        }
      }
    }
  }

  /** A cursor has moved past the key, if it was at the key, and has not moved otherwise. */
  ghost predicate PastKey(c: Cursor, c': Cursor, key: Key) {
    && c'.items == c.items && c'.endBlock == c.endBlock
    && c'.pos == if Live(c) && Current(c).key == key then c.pos + 1 else c.pos
  }

  /** The same, as far as the merge loop has come. */
  ghost predicate MaybePast(c: Cursor, c': Cursor, key: Key) {
    && c'.items == c.items && c'.endBlock == c.endBlock
    && (c'.pos == c.pos || (Live(c) && Current(c).key == key && c'.pos == c.pos + 1))
  }

  function Left(cs: seq<Cursor>): (r: seq<nat>)
    ensures |r| == |cs|
  {
    seq(|cs|, c requires 0 <= c < |cs| => if Live(cs[c]) then |cs[c].items| - cs[c].pos else 0)
  }

  /** Take the least key with the newest of its values, and advance every cursor that is
      at this key. */
  method TakeKey(cs: seq<Cursor>, t: nat) returns (key: Key, val: seq<nat>, cs': seq<Cursor>)
    requires CursorsOk(cs) && IsTop(cs, t)
    ensures key == Current(cs[t]).key && val == Current(cs[t]).val
    ensures CursorsOk(cs') && |cs'| == |cs| && forall c :: 0 <= c < |cs| ==> PastKey(cs[c], cs'[c], key)
  {
    key, val, cs' := Current(cs[t]).key, Current(cs[t]).val, cs;
    var top := t;
    while top != |cs'| && Current(cs'[top]).key == key
      invariant CursorsOk(cs') && |cs'| == |cs| && forall c :: 0 <= c < |cs| ==> MaybePast(cs[c], cs'[c], key)
      invariant top == |cs'| ==> forall c :: 0 <= c < |cs'| ==> !Live(cs'[c])
      invariant top != |cs'| ==> IsTop(cs', top)
      decreases Total(Left(cs'))
    {
      OnePast(cs, cs', top, key);
      cs' := cs'[top := cs'[top].(pos := cs'[top].pos + 1)];
      top := Top(cs');
    }
    AllPast(cs, cs', top, t, key);
  }

  lemma OnePast(cs: seq<Cursor>, cs': seq<Cursor>, top: nat, key: Key)
    requires CursorsOk(cs) && CursorsOk(cs') && |cs'| == |cs|
    requires forall c :: 0 <= c < |cs| ==> MaybePast(cs[c], cs'[c], key)
    requires top < |cs| && Live(cs'[top]) && Current(cs'[top]).key == key
    ensures var r := cs'[top := cs'[top].(pos := cs'[top].pos + 1)];
      && CursorsOk(r) && (forall c :: 0 <= c < |cs| ==> MaybePast(cs[c], r[c], key))
      && Total(Left(r)) < Total(Left(cs'))
  {
    var r := cs'[top := cs'[top].(pos := cs'[top].pos + 1)];
    if cs'[top].pos == cs[top].pos + 1 {
      assert Less(cs[top].items[cs[top].pos].key, cs[top].items[cs'[top].pos].key);
      LessIrreflexive(key);
    }
    var l := Left(cs');
    assert Left(r) == l[top := l[top] - 1];
    SumUpdated(l, top, l[top] - 1, |l|);
  }

  lemma AllPast(cs: seq<Cursor>, cs': seq<Cursor>, top: nat, t: nat, key: Key)
    requires CursorsOk(cs) && |cs'| == |cs| && (forall c :: 0 <= c < |cs| ==> MaybePast(cs[c], cs'[c], key))
    requires IsTop(cs, t) && key == Current(cs[t]).key
    requires top == |cs'| ==> forall c :: 0 <= c < |cs'| ==> !Live(cs'[c])
    requires top != |cs'| ==> IsTop(cs', top) && Current(cs'[top]).key != key
    ensures forall c :: 0 <= c < |cs| ==> PastKey(cs[c], cs'[c], key)
  {
    forall c | 0 <= c < |cs| ensures PastKey(cs[c], cs'[c], key) {
      if Live(cs[c]) && Current(cs[c]).key == key && cs'[c].pos == cs[c].pos {
        if c != top {
          TopKeyLeast(cs', top, c);
          TopAbove(cs, cs', top, t, key);
        }
        assert false;
      }
    }
  }

  lemma TopKeyLeast(cs: seq<Cursor>, t: nat, c: nat)
    requires IsTop(cs, t) && c < |cs| && Live(cs[c])
    ensures !Less(Current(cs[c]).key, Current(cs[t]).key)
  {
    LessIrreflexive(Current(cs[t]).key);
    if c != t && Less(Current(cs[c]).key, Current(cs[t]).key) {
      if Less(Current(cs[t]).key, Current(cs[c]).key) {
        LessTransitive(Current(cs[t]).key, Current(cs[c]).key, Current(cs[t]).key);
      }
    }
  }

  /** What is on top after some cursors have moved past the least key is not below it. */
  lemma TopAbove(cs: seq<Cursor>, cs': seq<Cursor>, top: nat, t: nat, key: Key)
    requires CursorsOk(cs) && |cs'| == |cs| && (forall c :: 0 <= c < |cs| ==> MaybePast(cs[c], cs'[c], key))
    requires IsTop(cs, t) && key == Current(cs[t]).key
    requires top < |cs'| && Live(cs'[top])
    ensures !Less(Current(cs'[top]).key, key)
  {
    if cs'[top].pos == cs[top].pos {
      TopKeyLeast(cs, t, top);
    } else {
      assert Less(key, cs[top].items[cs'[top].pos].key);
      LessAsymmetric(key, cs[top].items[cs'[top].pos].key);
    }
  }
}
