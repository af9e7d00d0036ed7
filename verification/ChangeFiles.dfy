/** The change records of one type: how often and with what value a key was written last,
    the B-tree made of them, and the summary table that counts them. */
module ChangeFiles {
  import opened ByteKeys

  datatype Change = Change(key: Key, after: seq<nat>)

  /** How many of the first n records are for a key. */
  function Count(rs: seq<Change>, n: nat, k: Key): nat
    requires n <= |rs|
  {
    if n == 0 then 0 else Count(rs, n - 1, k) + if rs[n - 1].key == k then 1 else 0
  }

  /** The value of the last of them. */
  function Last(rs: seq<Change>, n: nat, k: Key): seq<nat>
    requires n <= |rs|
  {
    if n == 0 then [] else if rs[n - 1].key == k then rs[n - 1].after else Last(rs, n - 1, k)
  }

  lemma {:induction false} CountHas(rs: seq<Change>, n: nat, k: Key)
    requires n <= |rs|
    ensures Count(rs, n, k) > 0 <==> exists j :: 0 <= j < n && rs[j].key == k
  {
    if n > 0 {
      CountHas(rs, n - 1, k);
    }
  }

  lemma {:induction false} JoinedStart(a: seq<Change>, b: seq<Change>, n: nat, k: Key)
    requires n <= |a|
    ensures Count(a + b, n, k) == Count(a, n, k) && Last(a + b, n, k) == Last(a, n, k)
  {
    if n > 0 {
      JoinedStart(a, b, n - 1, k);
    }
  }

  /** Records one after the other: the counts add up, the later value wins. */
  lemma {:induction false} Joined(a: seq<Change>, b: seq<Change>, n: nat, k: Key)
    requires n <= |b|
    ensures Count(a + b, |a| + n, k) == Count(a, |a|, k) + Count(b, n, k)
    ensures Last(a + b, |a| + n, k) == if Count(b, n, k) > 0 then Last(b, n, k) else Last(a, |a|, k)
  {
    if n == 0 {
      JoinedStart(a, b, |a|, k);
    } else {
      Joined(a, b, n - 1, k);
      assert (a + b)[|a| + n - 1] == b[n - 1];
    }
  }

  // ---- the B-tree of an aggregation

  datatype AggItem = AggItem(key: Key, val: seq<nat>, count: nat)

  ghost predicate Sorted(bt: seq<AggItem>) {
    forall i, j :: 0 <= i < j < |bt| ==> Less(bt[i].key, bt[j].key)
  }

  ghost predicate HasBt(bt: seq<AggItem>, k: Key) { exists i :: 0 <= i < |bt| && bt[i].key == k }

  /** The first place whose key is not before k. */
  method Place(bt: seq<AggItem>, k: Key) returns (i: nat)
    requires Sorted(bt)
    ensures i <= |bt| && (forall j :: 0 <= j < i ==> Less(bt[j].key, k))
    ensures forall j :: i <= j < |bt| ==> (bt[j].key == k && j == i) || Less(k, bt[j].key)
  {
    i := 0;
    while i < |bt| && Less(bt[i].key, k)
      invariant i <= |bt| && forall j :: 0 <= j < i ==> Less(bt[j].key, k)
    {
      i := i + 1;
    }
    if i < |bt| {
      LessTotal(bt[i].key, k);
      forall j | i < j < |bt| ensures Less(k, bt[j].key) {
        if Less(k, bt[i].key) {
          LessTransitive(k, bt[i].key, bt[j].key);
        }
      }
    }
  }

  function InsertAt(bt: seq<AggItem>, i: nat, x: AggItem): (r: seq<AggItem>)
    requires i <= |bt|
    ensures |r| == |bt| + 1 && r[i] == x
    ensures (forall j :: 0 <= j < i ==> r[j] == bt[j]) && forall j :: i <= j < |bt| ==> r[j + 1] == bt[j]
  {
    seq(|bt| + 1, j requires 0 <= j < |bt| + 1 => if j < i then bt[j] else if j == i then x else bt[j - 1])
  }

  /** What is in the tree after an item went in. */
  ghost predicate With(bt: seq<AggItem>, bt': seq<AggItem>, x: AggItem) {
    && Sorted(bt') && HasBt(bt', x.key) && (forall i :: 0 <= i < |bt| ==> HasBt(bt', bt[i].key))
    && forall i :: 0 <= i < |bt'| ==> bt'[i] == x || (bt'[i].key != x.key && bt'[i] in bt)
  }

  method ReplaceOrInsert(bt: seq<AggItem>, x: AggItem) returns (bt': seq<AggItem>)
    requires Sorted(bt)
    ensures With(bt, bt', x)
  {
    var i := Place(bt, x.key);
    if i < |bt| && bt[i].key == x.key {
      bt' := bt[i := x];
      Replaced(bt, i, x);
    } else {
      bt' := InsertAt(bt, i, x);
      Inserted(bt, i, x);
    }
  }

  lemma Replaced(bt: seq<AggItem>, i: nat, x: AggItem)
    requires Sorted(bt) && i < |bt| && bt[i].key == x.key
    ensures With(bt, bt[i := x], x)
  {
    var bt' := bt[i := x];
    forall j | 0 <= j < |bt| ensures HasBt(bt', bt[j].key) {
      assert bt'[j].key == bt[j].key;
    }
    assert bt'[i].key == x.key;
    forall j | 0 <= j < |bt'| ensures bt'[j] == x || (bt'[j].key != x.key && bt'[j] in bt) {
      if j != i {
        LessIrreflexive(x.key);
        assert bt'[j] == bt[j];
      }
    }
  }

  lemma Inserted(bt: seq<AggItem>, i: nat, x: AggItem)
    requires Sorted(bt) && i <= |bt| && (forall j :: 0 <= j < i ==> Less(bt[j].key, x.key))
    requires forall j :: i <= j < |bt| ==> Less(x.key, bt[j].key)
    ensures With(bt, InsertAt(bt, i, x), x)
  {
    var bt' := InsertAt(bt, i, x);
    forall j | 0 <= j < |bt| ensures HasBt(bt', bt[j].key) {
      assert bt'[if j < i then j else j + 1].key == bt[j].key;
    }
    assert bt'[i].key == x.key;
    LessIrreflexive(x.key);
    forall j | 0 <= j < |bt'| ensures (j == i && bt'[j] == x) || (bt'[j].key != x.key && bt'[j] in bt) {
      assert j != i ==> bt'[j] == bt[if j < i then j else j - 1];
    }
    forall a, b | 0 <= a < b < |bt'| ensures Less(bt'[a].key, bt'[b].key) {
      assert bt'[a] == if a < i then bt[a] else if a == i then x else bt[a - 1];
      assert bt'[b] == if b < i then bt[b] else if b == i then x else bt[b - 1];
      if a < i < b {
        LessTransitive(bt[a].key, x.key, bt[b - 1].key);
      }
    }
  }

  /** The keys of a type with addresses are longer than an address. */
  predicate KeyOk(k: Key, prefixLen: nat) { prefixLen == 0 || prefixLen < |k| }

  /** An item of the tree after n records: the anchor of an address, or the sum of the
      records of a key. */
  ghost predicate EntryOk(a: AggItem, rs: seq<Change>, n: nat, prefixLen: nat)
    requires n <= |rs|
  {
    if a.count == 0 then prefixLen > 0 && |a.key| == prefixLen && a.val == []
    else KeyOk(a.key, prefixLen) && a.count == Count(rs, n, a.key) && a.val == Last(rs, n, a.key)
  }

  ghost predicate RecordsOk(rs: seq<Change>, prefixLen: nat) {
    forall j :: 0 <= j < |rs| ==> KeyOk(rs[j].key, prefixLen)
  }

  /** The tree has the key of each record and the anchor of its address, and nothing else. */
  ghost predicate TreeOf(bt: seq<AggItem>, rs: seq<Change>, n: nat, prefixLen: nat)
    requires n <= |rs|
  {
    && Sorted(bt) && (forall i :: 0 <= i < |bt| ==> EntryOk(bt[i], rs, n, prefixLen))
    && forall j :: 0 <= j < n ==> InTree(bt, rs[j].key, prefixLen)
  }

  ghost predicate InTree(bt: seq<AggItem>, k: Key, prefixLen: nat) {
    HasBt(bt, k) && (0 < prefixLen <= |k| ==> HasBt(bt, k[..prefixLen]))
  }

  /** aggregateToBtree: every key once, with its last value, below the anchor of its address. */
  method AggregateToBtree(rs: seq<Change>, prefixLen: nat) returns (bt: seq<AggItem>)
    requires RecordsOk(rs, prefixLen)
    ensures TreeOf(bt, rs, |rs|, prefixLen)
  {
    bt := [];
    var prefix: Key := [];
    for n := 0 to |rs|
      invariant TreeOf(bt, rs, n, prefixLen) && (|prefix| == prefixLen > 0 ==> HasBt(bt, prefix))
    {
      var r := rs[n];
      if prefixLen > 0 && prefix != r.key[..prefixLen] {
        prefix := r.key[..prefixLen];
        bt := AddAnchor(bt, rs, n, prefixLen, prefix);
      }
      bt := AddRecord(bt, rs, n, prefixLen);
    }
  }

  method AddAnchor(bt: seq<AggItem>, ghost rs: seq<Change>, ghost n: nat, prefixLen: nat, prefix: Key)
      returns (bt': seq<AggItem>)
    requires n <= |rs| && TreeOf(bt, rs, n, prefixLen) && |prefix| == prefixLen > 0
    ensures TreeOf(bt', rs, n, prefixLen) && HasBt(bt', prefix)
  {
    bt' := ReplaceOrInsert(bt, AggItem(prefix, [], 0));
    WithKeeps(bt, bt', AggItem(prefix, [], 0));
  }

  method AddRecord(bt: seq<AggItem>, rs: seq<Change>, n: nat, prefixLen: nat) returns (bt': seq<AggItem>)
    requires n < |rs| && TreeOf(bt, rs, n, prefixLen) && KeyOk(rs[n].key, prefixLen)
    requires prefixLen > 0 ==> HasBt(bt, rs[n].key[..prefixLen])
    ensures TreeOf(bt', rs, n + 1, prefixLen)
    ensures prefixLen > 0 ==> HasBt(bt', rs[n].key[..prefixLen])
  {
    var r := rs[n];
    var i := Place(bt, r.key);
    var x;
    if i < |bt| && bt[i].key == r.key {
      x := AggItem(r.key, r.after, bt[i].count + 1);
    } else {
      x := AggItem(r.key, r.after, 1);
      NotYet(bt, rs, n, prefixLen, i);
    }
    bt' := ReplaceOrInsert(bt, x);
    Recorded(bt, bt', rs, n, prefixLen, x);
  }

  lemma {:induction false} NotYet(bt: seq<AggItem>, rs: seq<Change>, n: nat, prefixLen: nat, i: nat)
    requires n < |rs| && TreeOf(bt, rs, n, prefixLen) && i <= |bt| && (i < |bt| ==> bt[i].key != rs[n].key)
    requires (forall j :: 0 <= j < i ==> Less(bt[j].key, rs[n].key))
    requires forall j :: i < j < |bt| ==> Less(rs[n].key, bt[j].key)
    ensures Count(rs, n, rs[n].key) == 0
  {
    CountHas(rs, n, rs[n].key);
    if Count(rs, n, rs[n].key) > 0 {
      var j :| 0 <= j < n && rs[j].key == rs[n].key;
      assert InTree(bt, rs[j].key, prefixLen);
      var m :| 0 <= m < |bt| && bt[m].key == rs[n].key;
      LessIrreflexive(rs[n].key);
      assert false;
    }
  }

  lemma WithKeeps(bt: seq<AggItem>, bt': seq<AggItem>, x: AggItem)
    requires With(bt, bt', x)
    ensures forall k, p :: InTree(bt, k, p) ==> InTree(bt', k, p)
    ensures forall k :: HasBt(bt, k) ==> HasBt(bt', k)
  {
    forall k | HasBt(bt, k) ensures HasBt(bt', k) {
      var i :| 0 <= i < |bt| && bt[i].key == k;
      assert HasBt(bt', bt[i].key);
    }
  }

  lemma {:induction false} Recorded(bt: seq<AggItem>, bt': seq<AggItem>, rs: seq<Change>, n: nat, prefixLen: nat,
                                    x: AggItem)
    requires n < |rs| && TreeOf(bt, rs, n, prefixLen) && With(bt, bt', x) && KeyOk(rs[n].key, prefixLen)
    requires prefixLen > 0 ==> HasBt(bt, rs[n].key[..prefixLen])
    requires x == AggItem(rs[n].key, rs[n].after, Count(rs, n, rs[n].key) + 1)
    ensures TreeOf(bt', rs, n + 1, prefixLen)
    ensures prefixLen > 0 ==> HasBt(bt', rs[n].key[..prefixLen])
  {
    WithKeeps(bt, bt', x);
    forall j | 0 <= j < n + 1 ensures InTree(bt', rs[j].key, prefixLen) {
      if j < n {
        assert InTree(bt, rs[j].key, prefixLen);
      }
    }
    forall i | 0 <= i < |bt'| ensures EntryOk(bt'[i], rs, n + 1, prefixLen) {
      if bt'[i] != x {
        var m :| 0 <= m < |bt| && bt[m] == bt'[i];
        assert EntryOk(bt[m], rs, n, prefixLen);
      }
    }
  }

  // ---- the summary table

  /** A value of the summary table: how many change records there are, and the last value. */
  datatype Entry = Entry(count: nat, val: seq<nat>)

  /** The table sums up the records that are not aggregated yet. */
  ghost predicate TableOk(table: map<Key, Entry>, rs: seq<Change>) {
    forall k :: SumsUp(table, rs, k)
  }

  ghost predicate SumsUp(table: map<Key, Entry>, rs: seq<Change>, k: Key) {
    if Count(rs, |rs|, k) == 0 then k !in table
    else k in table && table[k] == Entry(Count(rs, |rs|, k), Last(rs, |rs|, k))
  }

  /** What is left of an entry after c records. */
  ghost predicate Reduced(table: map<Key, Entry>, table': map<Key, Entry>, k: Key, c: nat) {
    if k in table && c < table[k].count then k in table' && table'[k] == Entry(table[k].count - c, table[k].val)
    else k !in table'
  }

  /** The count of a key among the first n items. */
  function CountOf(bt: seq<AggItem>, n: nat, k: Key): nat
    requires n <= |bt|
  {
    if n == 0 then 0 else if bt[n - 1].key == k then bt[n - 1].count else CountOf(bt, n - 1, k)
  }

  lemma {:induction false} CountOfItem(bt: seq<AggItem>, n: nat, i: nat)
    requires Sorted(bt) && i < n <= |bt|
    ensures CountOf(bt, n, bt[i].key) == bt[i].count
  {
    LessIrreflexive(bt[i].key);
    if i < n - 1 {
      CountOfItem(bt, n - 1, i);
    }
  }

  lemma {:induction false} CountOfNone(bt: seq<AggItem>, n: nat, k: Key)
    requires n <= |bt| && forall i :: 0 <= i < n ==> bt[i].key != k
    ensures CountOf(bt, n, k) == 0
  {
    if n > 0 {
      CountOfNone(bt, n - 1, k);
    }
  }

  /** The table has at least the records of an item. */
  predicate Covered(table: map<Key, Entry>, a: AggItem) {
    a.count > 0 ==> a.key in table && table[a.key].count >= a.count
  }

  /** The clean-up of aggregate: it fails exactly if the table does not cover the tree. */
  method CleanTable(table: map<Key, Entry>, bt: seq<AggItem>) returns (ok: bool, table': map<Key, Entry>)
    requires Sorted(bt) && forall k :: k in table ==> table[k].count > 0
    ensures ok <==> forall i :: 0 <= i < |bt| ==> Covered(table, bt[i])
    ensures ok ==> forall k :: Reduced(table, table', k, CountOf(bt, |bt|, k))
  {
    table', ok := table, true;
    for n := 0 to |bt|
      invariant ok && (forall i :: 0 <= i < n ==> Covered(table, bt[i]))
      invariant forall k :: Reduced(table, table', k, CountOf(bt, n, k))
    {
      var a := bt[n];
      if a.count > 0 {
        Untouched(table, table', bt, n);
        if a.key !in table' || table'[a.key].count < a.count {
          return false, table';
        }
        if table'[a.key].count == a.count {
          table' := table' - {a.key};
        } else {
          table' := table'[a.key := Entry(table'[a.key].count - a.count, table'[a.key].val)];
        }
      } else {
        Untouched(table, table', bt, n);
      }
    }
  }

  lemma {:induction false} Untouched(table: map<Key, Entry>, table': map<Key, Entry>, bt: seq<AggItem>, n: nat)
    requires Sorted(bt) && n < |bt| && (forall k :: Reduced(table, table', k, CountOf(bt, n, k)))
    requires forall k :: k in table ==> table[k].count > 0
    ensures CountOf(bt, n, bt[n].key) == 0
    ensures bt[n].key in table <==> bt[n].key in table'
    ensures bt[n].key in table ==> table'[bt[n].key] == table[bt[n].key]
  {
    var k := bt[n].key;
    LessIrreflexive(k);
    CountOfNone(bt, n, k);
    assert Reduced(table, table', k, CountOf(bt, n, k));
  }

  /** The tree of the oldest records counts them. */
  lemma {:induction false} TreeCounts(bt: seq<AggItem>, rs: seq<Change>, prefixLen: nat, k: Key)
    requires TreeOf(bt, rs, |rs|, prefixLen) && RecordsOk(rs, prefixLen)
    ensures CountOf(bt, |bt|, k) == Count(rs, |rs|, k)
  {
    CountHas(rs, |rs|, k);
    if i :| 0 <= i < |bt| && bt[i].key == k {
      CountOfItem(bt, |bt|, i);
      assert EntryOk(bt[i], rs, |rs|, prefixLen);
    } else {
      CountOfNone(bt, |bt|, k);
      if j :| 0 <= j < |rs| && rs[j].key == k {
        assert InTree(bt, rs[j].key, prefixLen);
      }
    }
  }

  /** The clean-up succeeds, and what is left of the table sums up what is left of the records. */
  lemma {:induction false} CleanedUp(table: map<Key, Entry>, table': map<Key, Entry>, bt: seq<AggItem>, rs: seq<Change>,
                                     rest: seq<Change>, prefixLen: nat)
    requires TreeOf(bt, rs, |rs|, prefixLen) && RecordsOk(rs, prefixLen) && TableOk(table, rs + rest)
    ensures forall i :: 0 <= i < |bt| ==> Covered(table, bt[i])
    ensures (forall k :: Reduced(table, table', k, CountOf(bt, |bt|, k))) ==> TableOk(table', rest)
  {
    forall i | 0 <= i < |bt| ensures Covered(table, bt[i]) {
      var k := bt[i].key;
      CountOfItem(bt, |bt|, i);
      TreeCounts(bt, rs, prefixLen, k);
      Joined(rs, rest, |rest|, k);
      assert SumsUp(table, rs + rest, k);
    }
    if forall k :: Reduced(table, table', k, CountOf(bt, |bt|, k)) {
      forall k ensures SumsUp(table', rest, k) {
        assert Reduced(table, table', k, CountOf(bt, |bt|, k));
        TreeCounts(bt, rs, prefixLen, k);
        Joined(rs, rest, |rest|, k);
        assert SumsUp(table, rs + rest, k);
      }
    }
  }
}
