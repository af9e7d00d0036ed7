/** What Load leaves in a table: pairs behind its end are appended, others are put, and empty values delete. */
module EtlTable {
  import opened Options
  import opened ByteKeys
  import opened EtlMerge

  type Table = map<Key, Value>

  predicate AllBelow(t: Table, k: Key) { forall j {:trigger j in t} :: j in t ==> Less(j, k) }

  /** cursor.Last. */
  ghost predicate IsLast(t: Table, last: Option<Key>) {
    if last.None? then t == map[] else last.value in t && forall j {:trigger j in t} :: j in t ==> !Less(last.value, j)
  }

  function PutPair(t: Table, p: Pair): Table { if p.val == [] then t - {p.key} else t[p.key := p.val] }

  /** The table with the first n pairs put one after the other. */
  function PutAll(t: Table, ps: seq<Pair>, n: nat): Table
    requires n <= |ps|
  {
    if n == 0 then t else PutPair(PutAll(t, ps, n - 1), ps[n - 1])
  }

  /** One pair of loadNextFunc: in append mode an empty value is passed over, and a key that does not come last is
      refused. */
  function Store(t: Table, p: Pair, append: bool): Option<Table> {
    if p.val == [] then Some(if append then t else PutPair(t, p))
    else if append && !AllBelow(t, p.key) then None
    else Some(PutPair(t, p))
  }

  function StoreAll(t: Table, ps: seq<Pair>, append: bool, n: nat): Option<Table>
    requires n <= |ps|
  {
    if n == 0 then Some(t)
    else
      var s := StoreAll(t, ps, append, n - 1);
      if s.None? then None else Store(s.value, ps[n - 1], append)
  }

  method StorePairs(t: Table, ps: seq<Pair>, append: bool) returns (r: Option<Table>)
    ensures r == StoreAll(t, ps, append, |ps|)
  {
    r := Some(t);
    for n := 0 to |ps|
      invariant r == StoreAll(t, ps, append, n)
    {
      r := if r.None? then None else Store(r.value, ps[n], append);
    }
  }

  lemma {:induction false} PutIsPut(t: Table, ps: seq<Pair>, n: nat)
    requires n <= |ps|
    ensures StoreAll(t, ps, false, n) == Some(PutAll(t, ps, n))
  {
    if n > 0 {
      PutIsPut(t, ps, n - 1);
    }
  }

  // ---- what a table holds afterwards

  /** Pair i is the last of the first n with the key. */
  ghost predicate LastOf(ps: seq<Pair>, n: nat, i: nat, k: Key) {
    i < n <= |ps| && ps[i].key == k && forall j {:trigger ps[j]} :: i < j < n ==> ps[j].key != k
  }

  ghost predicate SameAt(t: Table, u: Table, k: Key) { (k in u <==> k in t) && (k in u ==> u[k] == t[k]) }

  ghost predicate HasValue(u: Table, k: Key, v: Value) { (k in u <==> v != []) && (k in u ==> u[k] == v) }

  /** A table holds for a key what the last of the first n pairs says of it, or else what it held before. */
  ghost predicate Holds(t: Table, u: Table, ps: seq<Pair>, n: nat, k: Key)
    requires n <= |ps|
  {
    && (forall i: nat {:trigger LastOf(ps, n, i, k)} :: LastOf(ps, n, i, k) ==> HasValue(u, k, ps[i].val))
    && ((forall i {:trigger ps[i]} :: 0 <= i < n ==> ps[i].key != k) ==> SameAt(t, u, k))
  }

  lemma {:induction false} FindLast(ps: seq<Pair>, n: nat, k: Key, j: nat) returns (i: nat)
    requires j < n <= |ps| && ps[j].key == k
    ensures j <= i && LastOf(ps, n, i, k)
  {
    if ps[n - 1].key == k {
      i := n - 1;
    } else {
      i := FindLast(ps, n - 1, k, j);
    }
  }

  /** Putting: the last pair of every key decides. */
  lemma {:induction false} PutHolds(t: Table, ps: seq<Pair>, n: nat, k: Key)
    requires n <= |ps|
    ensures Holds(t, PutAll(t, ps, n), ps, n, k)
  {
    if n > 0 {
      PutHolds(t, ps, n - 1, k);
      forall i: nat | LastOf(ps, n, i, k) ensures HasValue(PutAll(t, ps, n), k, ps[i].val) {
        if ps[n - 1].key != k {
          assert LastOf(ps, n - 1, i, k);
        } else {
          assert i == n - 1;
        }
      }
    }
  }

  /** Some key has two values. */
  ghost predicate Repeats(ps: seq<Pair>, n: nat)
    requires n <= |ps|
  {
    exists i, j {:trigger ps[i], ps[j]} ::
      0 <= i < j < n && ps[i].key == ps[j].key && ps[i].val != [] && ps[j].val != []
  }

  /** A table holds for a key its value among the first n pairs, or else what it held before. */
  ghost predicate Added(t: Table, u: Table, ps: seq<Pair>, n: nat, k: Key)
    requires n <= |ps|
  {
    && (forall i {:trigger ps[i]} :: 0 <= i < n && ps[i].key == k && ps[i].val != [] ==> HasValue(u, k, ps[i].val))
    && ((forall i {:trigger ps[i]} :: 0 <= i < n && ps[i].key == k ==> ps[i].val == []) ==> SameAt(t, u, k))
  }

  /** A key of the table is not behind the next pair's, and is the same only if it has a value already. */
  lemma {:induction false} Refused(t: Table, u: Table, ps: seq<Pair>, n: nat)
    requires Sorted(ps) && n < |ps| && AllBelow(t, ps[0].key)
    requires forall k: Key {:trigger Added(t, u, ps, n, k)} :: Added(t, u, ps, n, k)
    ensures AllBelow(u, ps[n].key) <==> forall i {:trigger ps[i]} :: 0 <= i < n && ps[i].key == ps[n].key ==>
        ps[i].val == []
  {
    var key := ps[n].key;
    if i :| 0 <= i < n && ps[i].key == key && ps[i].val != [] {
      assert Added(t, u, ps, n, key);
      assert key in u;
      LessIrreflexive(key);
    } else {
      forall j | j in u ensures Less(j, key) {
        InTable(t, u, ps, n, j);
      }
    }
  }

  lemma {:induction false} InTable(t: Table, u: Table, ps: seq<Pair>, n: nat, j: Key)
    requires Sorted(ps) && n < |ps| && AllBelow(t, ps[0].key) && Added(t, u, ps, n, j) && j in u
    requires forall i {:trigger ps[i]} :: 0 <= i < n && ps[i].key == ps[n].key ==> ps[i].val == []
    ensures Less(j, ps[n].key)
  {
    var key := ps[n].key;
    if i :| 0 <= i < n && ps[i].key == j && ps[i].val != [] {
      assert !Less(key, ps[i].key);
      LessTotal(j, key);
    } else {
      assert Less(j, ps[0].key);
      FirstBelow(ps, n);
      LessTotal(ps[0].key, key);
      if ps[0].key != key {
        LessTransitive(j, ps[0].key, key);
      }
    }
  }

  lemma FirstBelow(ps: seq<Pair>, n: nat)
    requires Sorted(ps) && n < |ps|
    ensures !Less(ps[n].key, ps[0].key)
  {
    LessIrreflexive(ps[0].key);
  }

  lemma {:induction false} AddedNext(t: Table, u: Table, ps: seq<Pair>, n: nat, k: Key)
    requires 0 < n <= |ps| && Added(t, u, ps, n - 1, k)
    requires ps[n - 1].val != [] ==> forall i {:trigger ps[i]} :: 0 <= i < n - 1 && ps[i].key == ps[n - 1].key ==>
        ps[i].val == []
    ensures Added(t, if ps[n - 1].val == [] then u else PutPair(u, ps[n - 1]), ps, n, k)
  {
  }

  /** Appending sorted pairs behind the end of the table: refused exactly if a key has two values, and otherwise the
      values are added and nothing is deleted. */
  lemma {:induction false} AppendOutcome(t: Table, ps: seq<Pair>, n: nat)
    requires Sorted(ps) && n <= |ps| && (ps != [] ==> AllBelow(t, ps[0].key))
    ensures StoreAll(t, ps, true, n).None? <==> Repeats(ps, n)
    ensures var u := StoreAll(t, ps, true, n);
      u.Some? ==> forall k: Key {:trigger Added(t, u.value, ps, n, k)} :: Added(t, u.value, ps, n, k)
  {
    if n > 0 {
      AppendOutcome(t, ps, n - 1);
      var s, p := StoreAll(t, ps, true, n - 1), ps[n - 1];
      if s.Some? {
        Refused(t, s.value, ps, n - 1);
        if p.val == [] || AllBelow(s.value, p.key) {
          var u := if p.val == [] then s.value else PutPair(s.value, p);
          forall k: Key ensures Added(t, u, ps, n, k) {
            AddedNext(t, s.value, ps, n, k);
          }
        }
      }
    }
  }

  /** Only the last pair of a key may have a value. */
  ghost predicate LastOnly(ps: seq<Pair>, n: nat)
    requires n <= |ps|
  {
    forall i, j {:trigger ps[i], ps[j]} :: 0 <= i < j < n && ps[i].key == ps[j].key ==> ps[i].val == []
  }

  /** Behind the end of the table appending does what putting does, and is not refused, exactly if only the last pair
      of every key has a value. */
  lemma {:induction false} AppendIsPut(t: Table, ps: seq<Pair>, n: nat)
    requires Sorted(ps) && n <= |ps| && (ps != [] ==> AllBelow(t, ps[0].key))
    ensures StoreAll(t, ps, true, n) == Some(PutAll(t, ps, n)) <==> LastOnly(ps, n)
  {
    AppendOutcome(t, ps, n);
    var s, u := StoreAll(t, ps, true, n), PutAll(t, ps, n);
    if LastOnly(ps, n) {
      assert s.Some?;
      forall k: Key ensures SameAt(s.value, u, k) {
        SameForKey(t, s.value, ps, n, k);
      }
      SameTables(s.value, u);
    } else {
      var i, j :| 0 <= i < j < n && ps[i].key == ps[j].key && ps[i].val != [];
      if s.Some? {
        PutDeletes(t, s.value, ps, n, i, j);
      }
    }
  }

  lemma SameTables(t: Table, u: Table)
    requires forall k: Key {:trigger SameAt(t, u, k)} :: SameAt(t, u, k)
    ensures t == u
  {
    forall k: Key ensures (k in t <==> k in u) && (k in t ==> t[k] == u[k]) {
      assert SameAt(t, u, k);
    }
  }

  lemma {:induction false} SameForKey(t: Table, u: Table, ps: seq<Pair>, n: nat, k: Key)
    requires Sorted(ps) && n <= |ps| && (ps != [] ==>
        AllBelow(t, ps[0].key)) && LastOnly(ps, n) && Added(t, u, ps, n, k)
    ensures SameAt(u, PutAll(t, ps, n), k)
  {
    PutHolds(t, ps, n, k);
    if j :| 0 <= j < n && ps[j].key == k {
      var i := FindLast(ps, n, k, j);
      if ps[i].val == [] {
        FirstBelow(ps, i);
        assert k !in t;
      }
    }
  }

  /** A value that is not the last word on its key: put and overruled, appended and kept. */
  lemma {:induction false} PutDeletes(t: Table, u: Table, ps: seq<Pair>, n: nat, i: nat, j: nat)
    requires i < j < n <= |ps| && ps[i].key == ps[j].key && ps[i].val != [] && !Repeats(ps, n)
    requires Added(t, u, ps, n, ps[i].key)
    ensures u != PutAll(t, ps, n)
  {
    var k := ps[i].key;
    PutHolds(t, ps, n, k);
    var l := FindLast(ps, n, k, j);
    assert ps[l].val == [];
    assert k in u;
  }

  /** A key collected with a value and then with an empty one: put and deleted, but appended and kept. */
  lemma AppendKeepsDeleted(k: Key, v: Value)
    requires v != []
    ensures var ps := [Pair(k, v), Pair(k, [])];
      StoreAll(map[], ps, true, 2) == Some(map[k := v]) && PutAll(map[], ps, 2) == map[]
  {
    var ps := [Pair(k, v), Pair(k, [])];
    assert StoreAll(map[], ps, true, 1) == Some(map[k := v]);
    assert PutAll(map[], ps, 1) == map[k := v];
  }

  /** A key collected twice with values: the second append is refused. */
  lemma AppendRefusesRepeated(k: Key, v: Value, w: Value)
    requires v != [] && w != []
    ensures StoreAll(map[], [Pair(k, v), Pair(k, w)], true, 2) == None
  {
    var ps := [Pair(k, v), Pair(k, w)];
    assert StoreAll(map[], ps, true, 1) == Some(map[k := v]);
    LessIrreflexive(k);
    assert k in map[k := v];
  }
}
