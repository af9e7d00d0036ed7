/** Updating and deleting a key keeps that the rows stand for the keys of the tree, with the key or without it. */
module HexChanged {
  import opened Options
  import opened ByteKeys
  import opened BranchBytes
  import opened HexCursor
  import opened HexRun
  import opened HexReach
  import opened HexStore
  import opened HexHeld
  import opened HexKept
  import opened HexGrown

  // ---- the keys after a change

  ghost function After(E: iset<Key>, key: Key, deleted: bool): iset<Key> {
    if deleted then iset k: Key | k in E && !(key <= k) else E + iset{key}
  }

  /** A change that the tree can make: a storage item is updated only if its account is there, and no two accounts
      come to agree in all but the last nibble. */
  ghost predicate RegularAt(E: iset<Key>, key: Key, deleted: bool) {
    (|key| == STORAGE_NIBBLES && !deleted ==> key[..ACCOUNT_NIBBLES] in E) && Apart(After(E, key, deleted))
  }

  // ---- what a key changes elsewhere

  ghost predicate Alike(E: iset<Key>, F: iset<Key>, q: Key) {
    forall k: Key {:trigger k in E} {:trigger k in F} :: q <= k ==> (k in E <==> k in F)
  }

  lemma AlikeBeside(E: iset<Key>, key: Key, deleted: bool, q: Key)
    requires !(q <= key) && !(key <= q)
    ensures Alike(E, After(E, key, deleted), q)
  {
    forall k: Key | q <= k ensures k in E <==> k in After(E, key, deleted) {
      assert q == k[..|q|];
      assert |key| <= |k| && key == k[..|key|] ==> q <= key || key <= q;
    }
  }

  lemma AlikeOff(job: Job, n: nat, E: iset<Key>, F: iset<Key>, S: Key -> BranchNode, q: Key, c: Cell)
    requires Off(job, n, E, S, q, c) && Alike(E, F, q)
    ensures Off(job, n + 1, F, S, q, c)
  {
    if q + c.down != Tip(q, c) {
      var r :| SteersAt(job.keys, n, q, c, r);
      assert SteersAt(job.keys, n + 1, q, c, r);
    }
  }

  lemma DeadLater(job: Job, n: nat, q: Key)
    requires Dead(job, n, q)
    ensures Dead(job, n + 1, q)
  {
  }

  /** Key n and the keys that are there before it. */
  ghost predicate Step(job: Job, n: nat, E: iset<Key>) {
    && n < |job.keys| == |job.deleted| && Ascending(job.keys) && Whose(E) && Apart(E) && DeadFree(job, n, E)
    && RegularAt(E, job.keys[n], job.deleted[n])
  }

  ghost function Then(job: Job, n: nat, E: iset<Key>): iset<Key>
    requires n < |job.keys| == |job.deleted|
  {
    After(E, job.keys[n], job.deleted[n])
  }

  lemma WhoseThen(job: Job, n: nat, E: iset<Key>)
    requires Step(job, n, E)
    ensures Whose(Then(job, n, E))
  {
    var key := job.keys[n];
    assert KeyOk(key);
    forall k: Key | k in Then(job, n, E) ensures Account(k) || (Item(k) && k[..ACCOUNT_NIBBLES] in Then(job, n, E)) {
      if k in E && Item(k) && job.deleted[n] {
        assert key <= k[..ACCOUNT_NIBBLES] ==> key <= k;
      }
    }
  }

  /** A key below a deleted one is not updated. */
  lemma UpdateLives(job: Job, n: nat, E: iset<Key>)
    requires Step(job, n, E) && !job.deleted[n]
    ensures !Dead(job, n, job.keys[n])
  {
    var key := job.keys[n];
    forall i | 0 <= i < n && job.deleted[i] ensures !(job.keys[i] <= key) {
      assert KeyOk(key) && KeyOk(job.keys[i]) && Less(job.keys[i], key);
      LessIrreflexive(key);
      if job.keys[i] <= key {
        assert job.keys[i] != key && job.keys[i] == key[..ACCOUNT_NIBBLES];
        assert Dead(job, n, job.keys[i]) && Occupied(E, job.keys[i]);
      }
    }
  }

  lemma DeadThen(job: Job, n: nat, E: iset<Key>)
    requires Step(job, n, E)
    ensures DeadFree(job, n + 1, Then(job, n, E))
  {
    var key, F := job.keys[n], Then(job, n, E);
    if !job.deleted[n] {
      UpdateLives(job, n, E);
    }
    forall q: Key | Dead(job, n + 1, q) ensures !Occupied(F, q) {
      if Dead(job, n, q) && q <= key && !job.deleted[n] {
        DeadBelow(job, n, q, key);
      }
    }
  }

  // ---- rows that the key goes through

  /** A row, the next one, and the key that goes through both. */
  predicate GoesOn(row: Row, below: Key, key: Key) {
    |row.path| < |below| && below <= key && |below| < |key|
  }

  lemma OverThen(job: Job, n: nat, E: iset<Key>, q: Key, c: Cell, P: Key)
    requires Step(job, n, E) && Over(E, q, c, P) && P <= job.keys[n] && |P| < |job.keys[n]|
    ensures Over(Then(job, n, E), q, c, P)
  {
    assert KeyOk(job.keys[n]);
  }

  /** A storage item that was written in this run is not written again. */
  lemma NotAgain(job: Job, n: nat, k: Key)
    requires n < |job.keys| && Ascending(job.keys) && Behind(job, n, k) && |k| == STORAGE_NIBBLES
    ensures k != job.keys[n]
  {
    var j :| 0 <= j < n && k <= job.keys[j];
    assert KeyOk(job.keys[j]) && k == job.keys[j] && Less(job.keys[j], job.keys[n]);
    LessAsymmetric(job.keys[j], job.keys[n]);
  }

  lemma BehindLater(job: Job, n: nat, k: Key)
    requires Behind(job, n, k)
    ensures Behind(job, n + 1, k)
  {
  }

  lemma RecentThen(job: Job, n: nat, E: iset<Key>, q: Key)
    requires Step(job, n, E) && Recent(job, n, E, q)
    ensures Recent(job, n + 1, Then(job, n, E), q)
  {
    forall k: Key | k in Then(job, n, E) && q <= k && |q| < |k| ensures Behind(job, n + 1, k) {
      if k in E {
        BehindLater(job, n, k);
      } else {
        assert k <= job.keys[n];
      }
    }
  }

  /** An account whose storage was written in this run keeps it. */
  lemma ItemThen(job: Job, n: nat, E: iset<Key>, q: Key)
    requires Step(job, n, E) && Recent(job, n, E, q) && HasItem(E, q) && |q| == ACCOUNT_NIBBLES < |job.keys[n]|
    ensures HasItem(Then(job, n, E), q)
  {
    var k: Key :| k in E && q <= k && |q| < |k|;
    assert KeyOk(job.keys[n]) && Item(k);
    NotAgain(job, n, k);
    assert k in Then(job, n, E);
  }

  lemma SureThen(job: Job, n: nat, E: iset<Key>, q: Key, goes: bool, kept: Option<Key>)
    requires Step(job, n, E) && Sure(job, n, E, q, goes, kept) && |q| == ACCOUNT_NIBBLES
    requires goes ==> |q| < |job.keys[n]|
    ensures Sure(job, n + 1, Then(job, n, E), q, goes, kept)
  {
    if kept != Some(q) {
      RecentThen(job, n, E, q);
      if goes {
        ItemThen(job, n, E, q);
      }
    }
  }

  /** A row at the end of accounts above the last row. */
  lemma SureRowThen(job: Job, n: nat, E: iset<Key>, row: Row, below: Key, kept: Option<Key>)
    requires Step(job, n, E) && SureRow(job, n, E, row, below, kept) && GoesOn(row, below, job.keys[n])
    ensures SureRow(job, n + 1, Then(job, n, E), row, below, kept)
  {
    var F, m := Then(job, n, E), n + 1;
    if EndsAccounts(row) {
      forall x: nat | x < 16 && row.after[x] ensures Sure(job, m, F, row.path + [x], Goes(row, below, x), kept) {
        SureThen(job, n, E, row.path + [x], Goes(row, below, x), kept);
      }
    }
  }

  lemma SureLastThen(job: Job, n: nat, E: iset<Key>, row: Row, other: Row, x: nat, kept: Option<Key>)
    requires Step(job, n, E) && SureRow(job, n, E, row, row.path, kept) && x < 16 && other.path == row.path
    requires forall y :: 0 <= y < 16 && y != x ==> row.after[y] == other.after[y]
    requires EndsAccounts(row) && !row.after[x] && other.after[x] ==>
      !Occupied(E, row.path + [x]) && job.keys[n] == row.path + [x]
    ensures SureRow(job, n + 1, Then(job, n, E), other, row.path, kept)
  {
    var F, m := Then(job, n, E), n + 1;
    if EndsAccounts(row) {
      forall y: nat | y < 16 && other.after[y] ensures Sure(job, m, F, row.path + [y], Goes(other, row.path, y), kept) {
        if row.after[y] {
          SureThen(job, n, E, row.path + [y], false, kept);
        }
      }
    }
  }

  lemma ChildThen(job: Job, n: nat, E: iset<Key>, S: Key -> BranchNode, row: Row, x: nat, below: Key)
    requires Step(job, n, E) && x < 16 && |row.cells| == 16 && ChildOk(job, n, E, S, row, x, below)
    requires if Goes(row, below, x) then GoesOn(row, below, job.keys[n])
             else |row.path| < |job.keys[n]| && !(row.path + [x] <= job.keys[n])
    ensures ChildOk(job, n + 1, Then(job, n, E), S, row, x, below)
  {
    var q, c, F := row.path + [x], row.cells[x], Then(job, n, E);
    DeadThen(job, n, E);
    if Dead(job, n, q) {
      DeadLater(job, n, q);
    }
    if Goes(row, below, x) {
      if row.after[x] {
        OverThen(job, n, E, q, c, below);
      }
    } else {
      AlikeBeside(E, job.keys[n], job.deleted[n], q);
      if row.after[x] {
        AlikeOff(job, n, E, F, S, q, c);
      }
    }
  }

  /** A row above the last one. */
  lemma RowThen(job: Job, n: nat, E: iset<Key>, S: Key -> BranchNode, row: Row, below: Key)
    requires Step(job, n, E) && RowHeld(job, n, E, S, row, below) && GoesOn(row, below, job.keys[n])
    ensures RowHeld(job, n + 1, Then(job, n, E), S, row, below)
  {
    var F, m := Then(job, n, E), n + 1;
    if !Dead(job, m, row.path) {
      forall x: nat | x < 16 ensures ChildOk(job, m, F, S, row, x, below) {
        assert ChildOk(job, n, E, S, row, x, below);
        if !Goes(row, below, x) {
          Aside(row.path, x, below);
        }
        ChildThen(job, n, E, S, row, x, below);
      }
    }
  }

  // ---- the cell at the cursor

  lemma KeyedNew(job: Job, n: nat, E: iset<Key>, S: Key -> BranchNode, q: Key)
    requires Step(job, n, E) && !job.deleted[n] && q <= job.keys[n] && !Occupied(E, q)
    ensures Off(job, n + 1, Then(job, n, E), S, q, Keyed(EMPTY, |q|, job.keys[n]))
  {
    var key := job.keys[n];
    var c := Keyed(EMPTY, |q|, key);
    assert KeyOk(key);
    assert q + key[|q|..] == key;
    assert |key| == STORAGE_NIBBLES ==> !(q <= key[..ACCOUNT_NIBBLES]);
    assert Shape(q, c);
  }

  /** The cursor has arrived at a cell that is there. */
  ghost predicate Here(job: Job, n: nat, E: iset<Key>, S: Key -> BranchNode, q: Key, c: Cell) {
    Step(job, n, E) && Off(job, n, E, S, q, c) && q <= job.keys[n] && (|q| == |job.keys[n]| || IsEmpty(c))
  }

  /** It is the cell of the key, or the account of a storage item. */
  lemma HereIs(job: Job, n: nat, E: iset<Key>, S: Key -> BranchNode, q: Key, c: Cell)
    requires Here(job, n, E, S, q, c)
    ensures q in E && Holds(S, q, c, q) && (|q| == |job.keys[n]| ==> q == job.keys[n])
    ensures |q| < |job.keys[n]| ==> |q| == ACCOUNT_NIBBLES && c == Cell([], false, [], Some(q), None)
    ensures |q| == STORAGE_NIBBLES ==> c.storage == Some(q)
    ensures |q| == ACCOUNT_NIBBLES ==> c.account == Some(q)
  {
    var key := job.keys[n];
    assert KeyOk(key);
    DerivedTip(q, c);
    if |q| == ACCOUNT_NIBBLES {
      AccountHere(S, E, q, c);
    }
    if IsEmpty(c) {
      assert q + c.down == q;
      assert Tip(q, c) == q;
    }
  }

  lemma KeyedHere(job: Job, n: nat, E: iset<Key>, S: Key -> BranchNode, q: Key, c: Cell)
    requires Here(job, n, E, S, q, c) && !job.deleted[n]
    ensures Off(job, n + 1, Then(job, n, E), S, q, Keyed(c, |q|, job.keys[n]))
  {
    var key, F := job.keys[n], Then(job, n, E);
    HereIs(job, n, E, S, q, c);
    var d := Keyed(c, |q|, key);
    if |q| == |key| {
      assert d == c;
      assert F == E;
      AlikeOff(job, n, E, F, S, q, c);
    } else {
      assert KeyOk(key) && q + key[|q|..] == key && key[..ACCOUNT_NIBBLES] == q;
      assert Shape(q, d);
    }
  }

  // ---- the row that the cell is in

  predicate SameChild(row: Row, other: Row, y: nat) {
    && |row.cells| == 16 == |other.cells| && y < 16
    && other.cells[y] == row.cells[y] && other.after[y] == row.after[y] && other.touch[y] == row.touch[y]
  }

  /** The rows differ in the child x only, which is touched or not there. */
  predicate Differs(row: Row, other: Row, x: nat) {
    && x < 16 && |row.cells| == 16 == |other.cells| && row.path == other.path && row.before == other.before
    && (forall y: nat {:trigger SameChild(row, other, y)} :: y < 16 && y != x ==> SameChild(row, other, y))
    && (other.touch[x] || (!row.after[x] && !other.after[x] && !row.touch[x]))
  }

  lemma DiffersThen(job: Job, n: nat, E: iset<Key>, S: Key -> BranchNode, row: Row, other: Row, x: nat)
    requires Step(job, n, E) && RowHeld(job, n, E, S, row, row.path) && Differs(row, other, x)
    requires row.path <= job.keys[n] && |row.path| < |job.keys[n]| && job.keys[n][|row.path|] == x
    requires if Dead(job, n, row.path) then NoneLeft(other)
             else ChildOk(job, n + 1, Then(job, n, E), S, other, x, row.path)
    ensures RowHeld(job, n + 1, Then(job, n, E), S, other, row.path)
  {
    var F, m, P := Then(job, n, E), n + 1, row.path;
    if Dead(job, n, P) {
      DeadLater(job, n, P);
    } else {
      forall y: nat | y < 16 ensures ChildOk(job, m, F, S, other, y, P) {
        if y != x {
          assert ChildOk(job, n, E, S, row, y, P) && SameChild(row, other, y);
          Aside(P, y, job.keys[n]);
          ChildThen(job, n, E, S, row, y, P);
        }
      }
      var b := job.branchFn(P);
      forall y: nat | y < 16 && row.before ensures LoadedAt(b, other, y) {
        assert LoadedAt(b, row, y) && (y == x || SameChild(row, other, y));
      }
    }
  }

  lemma SameThen(job: Job, n: nat, E: iset<Key>, S: Key -> BranchNode, row: Row, x: nat)
    requires Step(job, n, E) && RowHeld(job, n, E, S, row, row.path) && x < 16
    requires row.path <= job.keys[n] && |row.path| < |job.keys[n]| && job.keys[n][|row.path|] == x
    requires !Dead(job, n, row.path) ==> ChildOk(job, n + 1, Then(job, n, E), S, row, x, row.path)
    ensures RowHeld(job, n + 1, Then(job, n, E), S, row, row.path)
  {
    var F, m, P := Then(job, n, E), n + 1, row.path;
    if Dead(job, n, P) {
      DeadLater(job, n, P);
    } else {
      forall y: nat | y < 16 ensures ChildOk(job, m, F, S, row, y, P) {
        if y != x {
          assert ChildOk(job, n, E, S, row, y, P);
          Aside(P, y, job.keys[n]);
          ChildThen(job, n, E, S, row, y, P);
        }
      }
    }
  }

  lemma DiffersFolds(up: Row, row: Row, other: Row, x: nat)
    requires Pristine(up, row) && Differs(row, other, x)
    ensures Pristine(up, other)
  {
    if other.touch == Nothing() {
      forall y: nat | y < 16 ensures row.after[y] == other.after[y] && row.touch[y] == other.touch[y] &&
          (row.after[y] ==> row.cells[y] == other.cells[y])
      {
        assert y == x || SameChild(row, other, y);
        assert !other.touch[x];
      }
      assert row.after == other.after && row.touch == other.touch;
      SomeOne(row.after, 16);
    }
  }

  // ---- one change

  /** The cursor has arrived for key n. */
  ghost predicate Arrives(job: Job, n: nat, E: iset<Key>, t: Tree) {
    Good(job, n, E, t) && Step(job, n, E) && Done(t, job.keys[n])
  }

  ghost function Changed(job: Job, n: nat, t: Tree): Tree
    requires n < |job.keys| == |job.deleted| && Arrived(t, job.keys[n])
  {
    Change(t, job.keys[n], job.deleted[n])
  }

  lemma PlaceAt(t: Tree, key: Key)
    requires TreeOk(t) && Ahead(t, key) && t.rows != []
    ensures var q, x := Place(t, key), key[|Current(t)|];
      q <= key && q == Current(t) + [x] && |q| == Depth(t) && x < 16
  {
    PlaceOk(t, key);
  }

  lemma LastAt(job: Job, n: nat, E: iset<Key>, t: Tree)
    requires RowsHeld(job, n, E, t) && t.rows != []
    ensures |Last(t).cells| == 16 && HeldAt(job, n, E, t, |t.rows| - 1)
  {
    assert RowAt(job, n, E, t, |t.rows| - 1);
  }

  lemma ArrivesAt(job: Job, n: nat, E: iset<Key>, t: Tree)
    requires Arrives(job, n, E, t) && t.rows != []
    ensures var key := job.keys[n];
      var q, x := Place(t, key), key[|Current(t)|];
      q <= key && q == Current(t) + [x] && |q| == Depth(t) && x < 16
    ensures |Last(t).cells| == 16 && HeldAt(job, n, E, t, |t.rows| - 1)
  {
    PlaceAt(t, job.keys[n]);
    LastAt(job, n, E, t);
  }

  /** The cursor has arrived at the child x. */
  ghost predicate AtChild(job: Job, n: nat, E: iset<Key>, S: Key -> BranchNode, row: Row, x: nat) {
    && Step(job, n, E) && x < 16 && |row.cells| == 16 && row.path + [x] <= job.keys[n]
    && ChildOk(job, n, E, S, row, x, row.path) && (|row.path| + 1 == |job.keys[n]| || IsEmpty(row.cells[x]))
  }

  lemma UpdatedCell(job: Job, n: nat, E: iset<Key>, S: Key -> BranchNode, row: Row, x: nat)
    requires AtChild(job, n, E, S, row, x) && !job.deleted[n]
    ensures Off(job, n + 1, Then(job, n, E), S, row.path + [x], Keyed(row.cells[x], |row.path| + 1, job.keys[n]))
  {
    var key, q := job.keys[n], row.path + [x];
    if row.after[x] {
      KeyedHere(job, n, E, S, q, row.cells[x]);
    } else {
      UpdateLives(job, n, E);
      if Dead(job, n, q) {
        DeadBelow(job, n, q, key);
      }
      KeyedNew(job, n, E, S, q);
    }
  }

  /** A child that is deleted is not there afterwards, and everything below it is gone. */
  lemma DeletedCell(job: Job, n: nat, E: iset<Key>, S: Key -> BranchNode, row: Row, x: nat)
    requires AtChild(job, n, E, S, row, x) && job.deleted[n]
    ensures var q, c, F := row.path + [x], row.cells[x], Then(job, n, E);
      if row.after[x] && |q| < |job.keys[n]| then Off(job, n + 1, F, S, q, c)
      else !Occupied(F, q) && (Dead(job, n + 1, q) || c == EMPTY)
  {
    var key, q, c := job.keys[n], row.path + [x], row.cells[x];
    if row.after[x] {
      HereIs(job, n, E, S, q, c);
      if |q| == |key| {
        assert Dead(job, n + 1, q);
      } else {
        AlikeOff(job, n, E, Then(job, n, E), S, q, c);
      }
    } else if Dead(job, n, q) {
      DeadLater(job, n, q);
    }
  }

  lemma ArrivesAtChild(job: Job, n: nat, E: iset<Key>, t: Tree)
    requires Arrives(job, n, E, t) && t.rows != [] && !Dead(job, n, Current(t))
    ensures |Last(t).cells| == 16
    ensures AtChild(job, n, E, Nodes(job, t), WholeRow(t, |t.rows| - 1), job.keys[n][|Current(t)|])
  {
    var k, x := |t.rows| - 1, job.keys[n][|Current(t)|];
    ArrivesAt(job, n, E, t);
    assert ChildOk(job, n, E, Nodes(job, t), WholeRow(t, k), x, Current(t));
    assert IsEmpty(WholeRow(t, k).cells[x]) == IsEmpty(t.rows[k].cells[x]);
  }

  /** What a change leaves in the last row at the child x. */
  lemma ChangeLeaves(t: Tree, key: Key, deleted: bool, x: nat)
    requires Arrived(t, key) && t.rows != [] && x == key[|Current(t)|]
    ensures x < 16 && |Last(t).cells| == 16 && Target(t, key) == Last(t).cells[x]
    ensures var was, row := Last(t), Last(Change(t, key, deleted));
      row.path == Current(t) && |row.cells| == 16 && row.after[x] == (!deleted || (was.after[x] && Depth(t) < |key|)) &&
      if !deleted then row.cells[x] == Keyed(was.cells[x], Depth(t), key)
      else (Depth(t) < |key| || was.cells[x] == EMPTY ==> row.cells[x] == was.cells[x])
  {
    PlaceOk(t, key);
  }

  /** Updating the cell commutes with taking the account from above. */
  lemma KeyedWhole(q: Key, c: Cell, present: bool, kept: Option<Key>, key: Key)
    requires q <= key && KeyOk(key)
    requires var d := Keyed(RestoredCell(q, c, present, kept), |q|, key); Shape(q, d)
    ensures |q| == ACCOUNT_NIBBLES ==>
      RestoredCell(q, Keyed(c, |q|, key), true, kept) == Keyed(RestoredCell(q, c, present, kept), |q|, key)
  {
    var d := Keyed(RestoredCell(q, c, present, kept), |q|, key);
    if |q| == ACCOUNT_NIBBLES {
      DerivedTip(q, d);
    }
  }

  /** The last row before and after the change, with the account that is kept above it. */
  lemma ChangedWhole(job: Job, n: nat, E: iset<Key>, S: Key -> BranchNode, t: Tree, x: nat, kept: Option<Key>)
    requires n < |job.keys| && Arrived(t, job.keys[n]) && t.rows != [] && x == job.keys[n][|Current(t)|]
    requires |Last(t).cells| == 16 && AtChild(job, n, E, S, Restored(Last(t), kept), x) && !job.deleted[n]
    ensures |Last(Changed(job, n, t)).cells| == 16
    ensures Restored(Last(Changed(job, n, t)), kept).cells[x] ==
      Keyed(Restored(Last(t), kept).cells[x], |Current(t)| + 1, job.keys[n])
  {
    var key, q := job.keys[n], Current(t) + [x];
    ChangeLeaves(t, key, false, x);
    UpdatedCell(job, n, E, S, Restored(Last(t), kept), x);
    assert KeyOk(key) && |q| == Depth(t);
    if EndsAccounts(Last(t)) {
      KeyedWhole(q, Last(t).cells[x], Last(t).after[x], kept, key);
    }
  }

  lemma DeletedWhole(t: Tree, key: Key, x: nat, kept: Option<Key>)
    requires Arrived(t, key) && t.rows != [] && x == key[|Current(t)|]
    ensures x < 16 && |Last(t).cells| == 16 == |Last(Change(t, key, true)).cells|
    ensures var was, row := Restored(Last(t), kept), Restored(Last(Change(t, key, true)), kept);
      row.path == was.path && row.after[x] == (was.after[x] && Depth(t) < |key|) &&
      (row.after[x] || (!was.after[x] && was.cells[x] == EMPTY) ==> row.cells[x] == was.cells[x]) &&
      (row.touch[x] || (!was.after[x] && row.touch[x] == was.touch[x] && IsEmpty(row.cells[x]) == IsEmpty(was.cells[x]))
       || row.after[x])
  {
    PlaceOk(t, key);
  }

  lemma DeletedChild(job: Job, n: nat, E: iset<Key>, S: Key -> BranchNode, t: Tree, x: nat, kept: Option<Key>)
    requires n < |job.keys| && Arrived(t, job.keys[n]) && t.rows != [] && x == job.keys[n][|Current(t)|]
    requires |Last(t).cells| == 16 && AtChild(job, n, E, S, Restored(Last(t), kept), x) && job.deleted[n]
    ensures |Last(Changed(job, n, t)).cells| == 16
    ensures ChildOk(job, n + 1, Then(job, n, E), S, Restored(Last(Changed(job, n, t)), kept), x, Current(t))
  {
    DeletedWhole(t, job.keys[n], x, kept);
    DeletedCell(job, n, E, S, Restored(Last(t), kept), x);
  }

  lemma OffChild(job: Job, n: nat, E: iset<Key>, S: Key -> BranchNode, row: Row, x: nat)
    requires x < 16 && |row.cells| == 16 && row.after[x] && Off(job, n, E, S, row.path + [x], row.cells[x])
    ensures ChildOk(job, n, E, S, row, x, row.path)
  {
  }

  lemma UpdatedChild(job: Job, n: nat, E: iset<Key>, S: Key -> BranchNode, t: Tree, x: nat, kept: Option<Key>)
    requires n < |job.keys| && Arrived(t, job.keys[n]) && t.rows != [] && x == job.keys[n][|Current(t)|]
    requires |Last(t).cells| == 16 && AtChild(job, n, E, S, Restored(Last(t), kept), x) && !job.deleted[n]
    ensures |Last(Changed(job, n, t)).cells| == 16
    ensures ChildOk(job, n + 1, Then(job, n, E), S, Restored(Last(Changed(job, n, t)), kept), x, Current(t))
  {
    ChangeLeaves(t, job.keys[n], false, x);
    UpdatedCell(job, n, E, S, Restored(Last(t), kept), x);
    ChangedWhole(job, n, E, S, t, x, kept);
    OffChild(job, n + 1, Then(job, n, E), S, Restored(Last(Changed(job, n, t)), kept), x);
  }

  lemma ChangedChild(job: Job, n: nat, E: iset<Key>, S: Key -> BranchNode, t: Tree, x: nat, kept: Option<Key>)
    requires n < |job.keys| && Arrived(t, job.keys[n]) && t.rows != [] && x == job.keys[n][|Current(t)|]
    requires |Last(t).cells| == 16 && AtChild(job, n, E, S, Restored(Last(t), kept), x)
    ensures |Last(Changed(job, n, t)).cells| == 16
    ensures ChildOk(job, n + 1, Then(job, n, E), S, Restored(Last(Changed(job, n, t)), kept), x, Current(t))
  {
    if job.deleted[n] {
      DeletedChild(job, n, E, S, t, x, kept);
    } else {
      UpdatedChild(job, n, E, S, t, x, kept);
    }
  }

  /** The trees differ in the cell at the cursor only. */
  predicate DiffersLast(t: Tree, u: Tree, x: nat) {
    && t.rows != [] && |u.rows| == |t.rows| && u == t.(rows := u.rows) && Differs(Last(t), Last(u), x)
    && forall r {:trigger u.rows[r]} :: 0 <= r < |t.rows| - 1 ==> u.rows[r] == t.rows[r]
  }

  lemma RowDiffers(row: Row, x: nat, cell: Cell, touch: ChildMap, after: ChildMap)
    requires |row.cells| == 16 && x < 16
    requires forall y :: 0 <= y < 16 && y != x ==> touch[y] == row.touch[y] && after[y] == row.after[y]
    requires touch[x] || (!row.after[x] && !after[x] && !row.touch[x])
    ensures Differs(row, row.(cells := row.cells[x := cell], touch := touch, after := after), x)
  {
  }

  lemma PutDiffers(t: Tree, key: Key, cell: Cell, present: bool)
    requires TreeOk(t) && Ahead(t, key) && t.rows != []
    ensures DiffersLast(t, Put(t, key, cell, present), key[|Current(t)|])
  {
    var row, x := Last(t), key[|Current(t)|];
    RowDiffers(row, x, cell, Or(row.touch, Only(x)), row.after[x := present]);
  }

  lemma SetDiffers(t: Tree, key: Key, cell: Cell)
    requires TreeOk(t) && Ahead(t, key) && t.rows != [] && !Last(t).after[key[|Current(t)|]]
    ensures DiffersLast(t, SetCell(t, key, cell), key[|Current(t)|])
  {
    var row, x := Last(t), key[|Current(t)|];
    RowDiffers(row, x, cell, row.touch, row.after);
  }

  lemma ChangeDiffers(t: Tree, key: Key, deleted: bool)
    requires Arrived(t, key) && t.rows != []
    ensures var u := Change(t, key, deleted); u == t || DiffersLast(t, u, key[|Current(t)|])
  {
    var cell := Target(t, key);
    PlaceOk(t, key);
    PutDiffers(t, key, cell.(ext := []), false);
    PutDiffers(t, key, Keyed(cell, Depth(t), key), true);
    if !Last(t).after[key[|Current(t)|]] {
      SetDiffers(t, key, cell.(ext := []));
    }
  }

  lemma NoneChanged(t: Tree, key: Key)
    requires Arrived(t, key) && t.rows != [] && NoneLeft(Last(t))
    ensures NoneLeft(Last(Change(t, key, true)))
  {
    var row, x := Last(t), key[|Current(t)|];
    PlaceOk(t, key);
    assert IsEmpty(row.cells[x]) == IsEmpty(row.cells[x].(ext := []));
  }

  /** Below a deleted key nothing is updated. */
  lemma DeadDeletes(job: Job, n: nat, E: iset<Key>, P: Key)
    requires Step(job, n, E) && Dead(job, n, P) && P <= job.keys[n]
    ensures job.deleted[n]
  {
    DeadBelow(job, n, P, job.keys[n]);
    if !job.deleted[n] {
      UpdateLives(job, n, E);
    }
  }

  lemma DiffersWhole(row: Row, other: Row, x: nat, kept: Option<Key>)
    requires Differs(row, other, x)
    ensures Differs(Restored(row, kept), Restored(other, kept), x)
  {
    var r, o := Restored(row, kept), Restored(other, kept);
    forall y: nat | y < 16 && y != x ensures SameChild(r, o, y) {
      assert SameChild(row, other, y);
    }
  }

  lemma NoneWhole(row: Row, kept: Option<Key>)
    requires |row.cells| == 16
    ensures NoneLeft(Restored(row, kept)) <==> NoneLeft(row)
  {
    if row.after == Nothing() {
      assert Restored(row, kept).cells == row.cells;
    }
  }

  /** The last row. */
  lemma ChangedRow(job: Job, n: nat, E: iset<Key>, t: Tree)
    requires Arrives(job, n, E, t) && t.rows != []
    ensures var u, kept := Changed(job, n, t), UpAccount(t, |t.rows| - 1);
      |Last(u).cells| == 16 == |Last(t).cells| &&
      RowHeld(job, n + 1, Then(job, n, E), Nodes(job, t), Restored(Last(u), kept), Current(t))
  {
    var key, u, x := job.keys[n], Changed(job, n, t), job.keys[n][|Current(t)|];
    var kept := UpAccount(t, |t.rows| - 1);
    ArrivesAt(job, n, E, t);
    ChangeLeaves(t, key, job.deleted[n], x);
    if Dead(job, n, Current(t)) {
      DeadDeletes(job, n, E, Current(t));
      NoneWhole(Last(t), kept);
      NoneChanged(t, key);
      NoneWhole(Last(u), kept);
    } else {
      ArrivesAtChild(job, n, E, t);
      ChangedChild(job, n, E, Nodes(job, t), t, x, kept);
    }
    ChangeDiffers(t, key, job.deleted[n]);
    if u == t {
      SameThen(job, n, E, Nodes(job, t), Restored(Last(t), kept), x);
    } else {
      DiffersWhole(Last(t), Last(u), x, kept);
      DiffersThen(job, n, E, Nodes(job, t), Restored(Last(t), kept), Restored(Last(u), kept), x);
    }
  }

  lemma ChangedSure(job: Job, n: nat, E: iset<Key>, t: Tree)
    requires Arrives(job, n, E, t) && t.rows != []
    ensures var u, kept := Changed(job, n, t), UpAccount(t, |t.rows| - 1);
      SureRow(job, n + 1, Then(job, n, E), Last(u), Current(t), kept)
  {
    var key, u, x := job.keys[n], Changed(job, n, t), job.keys[n][|Current(t)|];
    var k := |t.rows| - 1;
    var kept := UpAccount(t, k);
    ArrivesAt(job, n, E, t);
    ChangeLeaves(t, key, job.deleted[n], x);
    ChangeDiffers(t, key, job.deleted[n]);
    forall y | 0 <= y < 16 && y != x ensures Last(t).after[y] == Last(u).after[y] {
      assert u == t || SameChild(Last(t), Last(u), y);
    }
    if EndsAccounts(Last(t)) && !Last(t).after[x] && Last(u).after[x] {
      NewAccount(job, n, E, t);
    }
    SureLastThen(job, n, E, Last(t), Last(u), x, kept);
  }

  /** A child at the end of an account that comes to be there is an account. */
  lemma NewAccount(job: Job, n: nat, E: iset<Key>, t: Tree)
    requires Arrives(job, n, E, t) && t.rows != [] && EndsAccounts(Last(t)) && !job.deleted[n]
    requires !Last(t).after[job.keys[n][|Current(t)|]]
    ensures var q := Current(t) + [job.keys[n][|Current(t)|]]; !Occupied(E, q) && job.keys[n] == q
  {
    var key, x := job.keys[n], job.keys[n][|Current(t)|];
    var q := Current(t) + [x];
    ArrivesAt(job, n, E, t);
    assert KeyOk(key) && q == key[..ACCOUNT_NIBBLES];
    UpdateLives(job, n, E);
    if Dead(job, n, Current(t)) {
      DeadBelow(job, n, Current(t), key);
    }
    ArrivesAtChild(job, n, E, t);
  }

  lemma ChangedAbove(job: Job, n: nat, E: iset<Key>, t: Tree, r: nat)
    requires Arrives(job, n, E, t) && r < |t.rows| - 1
    ensures |t.rows[r].cells| == 16
    ensures RowHeld(job, n + 1, Then(job, n, E), Nodes(job, t), WholeRow(t, r), BelowPath(t, r))
    ensures SureRow(job, n + 1, Then(job, n, E), t.rows[r], BelowPath(t, r), UpAccount(t, r))
  {
    BelowLast(t, r);
    assert RowAt(job, n, E, t, r);
    RowThen(job, n, E, Nodes(job, t), WholeRow(t, r), BelowPath(t, r));
    SureRowThen(job, n, E, t.rows[r], BelowPath(t, r), UpAccount(t, r));
  }

  /** The trees have the same rows but for the last one, with the same path. */
  predicate SameRows(t: Tree, u: Tree) {
    && |u.rows| == |t.rows| && u.updates == t.updates && Current(u) == Current(t) && (t.rows != [] ==> u.root == t.root)
    && forall i {:trigger u.rows[i]} {:trigger t.rows[i]} :: 0 <= i < |t.rows| - 1 ==> u.rows[i] == t.rows[i]
  }

  lemma SameUp(t: Tree, u: Tree, r: nat)
    requires SameRows(t, u) && r < |t.rows|
    ensures UpAccount(u, r) == UpAccount(t, r) && BelowPath(u, r) == BelowPath(t, r) && u.rows[r].path == t.rows[r].path
  {
  }

  lemma HeldAtThen(job: Job, n: nat, E: iset<Key>, t: Tree, r: nat)
    requires Arrives(job, n, E, t) && r < |t.rows| && SameRows(t, Changed(job, n, t))
    ensures HeldAt(job, n + 1, Then(job, n, E), Changed(job, n, t), r)
  {
    var u := Changed(job, n, t);
    SameUp(t, u, r);
    assert Nodes(job, u) == Nodes(job, t);
    if r < |t.rows| - 1 {
      ChangedAbove(job, n, E, t, r);
    } else {
      ChangedRow(job, n, E, t);
      ChangedSure(job, n, E, t);
    }
  }

  lemma PristineAtThen(job: Job, n: nat, E: iset<Key>, t: Tree, r: nat)
    requires Arrives(job, n, E, t) && r < |t.rows| && SameRows(t, Changed(job, n, t))
    ensures |Changed(job, n, t).rows[r].cells| == 16 && PristineAt(job, n + 1, Changed(job, n, t), r)
  {
    var u, x := Changed(job, n, t), job.keys[n][|Current(t)|];
    assert RowAt(job, n, E, t, r);
    SameUp(t, u, r);
    if Dead(job, n, t.rows[r].path) {
      DeadLater(job, n, t.rows[r].path);
    }
    if r > 0 {
      SameUp(t, u, r - 1);
    }
    if r == |t.rows| - 1 {
      ChangeDiffers(t, job.keys[n], job.deleted[n]);
      ArrivesAt(job, n, E, t);
      if u != t {
        DiffersWhole(Last(t), Last(u), x, UpAccount(t, r));
        if r > 0 && !Dead(job, n, t.rows[r].path) {
          DiffersFolds(WholeRow(t, r - 1), WholeRow(t, r), WholeRow(u, r), x);
        }
      }
    }
  }

  lemma ChangedSame(t: Tree, key: Key, deleted: bool)
    requires Arrived(t, key)
    ensures SameRows(t, Change(t, key, deleted))
  {
    if t.rows != [] {
      ChangeDiffers(t, key, deleted);
    }
  }

  lemma ChangedRows(job: Job, n: nat, E: iset<Key>, t: Tree)
    requires Arrives(job, n, E, t)
    ensures RowsHeld(job, n + 1, Then(job, n, E), Changed(job, n, t))
  {
    var u, F, m := Changed(job, n, t), Then(job, n, E), n + 1;
    ChangedSame(t, job.keys[n], job.deleted[n]);
    forall r: nat | r < |u.rows| ensures RowAt(job, m, F, u, r) {
      HeldAtThen(job, n, E, t, r);
      PristineAtThen(job, n, E, t, r);
    }
  }

  // ---- the root

  lemma ChangedBelowRoot(job: Job, n: nat, E: iset<Key>, t: Tree)
    requires Arrives(job, n, E, t) && t.rows != []
    ensures RootHeld(job, n + 1, Then(job, n, E), Changed(job, n, t))
  {
    var u, k := Changed(job, n, t), |t.rows| - 1;
    ChangeDiffers(t, job.keys[n], job.deleted[n]);
    assert k > 0 ==> Longer(t.rows[0].path, t.rows[k].path);
    OverThen(job, n, E, [], t.root, t.rows[0].path);
  }

  /** The cursor stays at the root only if there is no tree. */
  lemma AtRoot(job: Job, n: nat, E: iset<Key>, t: Tree)
    requires Arrives(job, n, E, t) && t.rows == []
    ensures t.root == EMPTY && t.rootChecked && !Occupied(E, [])
  {
    var key := job.keys[n];
    assert KeyOk(key) && RootOf(job.branchFn, t) == t.root;
    if t.root != EMPTY {
      HereIs(job, n, E, Nodes(job, t), [], t.root);
    }
  }

  lemma ChangedRoot(job: Job, n: nat, E: iset<Key>, t: Tree)
    requires Arrives(job, n, E, t) && t.rows == []
    ensures RootHeld(job, n + 1, Then(job, n, E), Changed(job, n, t))
  {
    AtRoot(job, n, E, t);
    if !job.deleted[n] {
      KeyedNew(job, n, E, Nodes(job, t), []);
    }
  }

  // ---- the updates

  /** A key does not go through a place that the keys have passed, and is not above it. */
  lemma BehindApart(job: Job, n: nat, p: Key, x: nat)
    requires n < |job.keys| && Ascending(job.keys) && Behind(job, n, p) && NoKey(job.keys, n, p)
    ensures !(p + [x] <= job.keys[n]) && !(job.keys[n] <= p + [x])
  {
    var key := job.keys[n];
    var j :| 0 <= j < n && p <= job.keys[j];
    assert !(p <= key) && Less(job.keys[j], key);
    if key <= p {
      LessIrreflexive(key);
      PrefixLess(key, job.keys[j]);
      LessAsymmetric(job.keys[j], key);
    }
    assert |key| == |p| + 1 && key <= p + [x] ==> key == p + [x];
  }

  lemma UpdatesThen(job: Job, n: nat, E: iset<Key>, updates: map<Key, BranchUpdate>)
    requires Step(job, n, E) && UpdatesStand(job, n, E, updates)
    requires forall p {:trigger p in updates} :: p in updates ==> NoKey(job.keys, n, p)
    ensures UpdatesStand(job, n + 1, Then(job, n, E), updates)
  {
    var F, m := Then(job, n, E), n + 1;
    forall p: Key | p in updates ensures UpdateStands(job, m, F, p, updates[p]) {
      assert UpdateStands(job, n, E, p, updates[p]);
      forall x: nat | x < 16 ensures Occupied(E, p + [x]) <==> Occupied(F, p + [x]) {
        BehindApart(job, n, p, x);
        AlikeBeside(E, job.keys[n], job.deleted[n], p + [x]);
      }
      assert Lists(F, p, updates[p].after);
    }
  }

  /** One key. */
  lemma ChangeGood(job: Job, n: nat, E: iset<Key>, t: Tree)
    requires Arrives(job, n, E, t)
    ensures Good(job, n + 1, Then(job, n, E), Changed(job, n, t))
  {
    ChangeKeeps(job, n, t, job.keys[n], job.deleted[n]);
    NextKeeps(job, n, Changed(job, n, t));
    WhoseThen(job, n, E);
    DeadThen(job, n, E);
    ChangedRows(job, n, E, t);
    ChangedSame(t, job.keys[n], job.deleted[n]);
    UpdatesThen(job, n, E, t.updates);
    if t.rows == [] {
      ChangedRoot(job, n, E, t);
    } else {
      ChangedBelowRoot(job, n, E, t);
    }
  }
}
