/**
 * What every step of the cursor keeps: the cells of the rows stand for the keys that the tree holds, together with the
 * branch nodes as the updates so far leave them.
 */
module HexHeld {
  import opened Options
  import opened ByteKeys
  import opened BranchBytes
  import opened HexCursor
  import opened HexRun
  import opened HexStore

  // ---- sets of keys

  ghost predicate Occupied(E: iset<Key>, q: Key) { exists k: Key {:trigger k in E} :: k in E && q <= k }

  /** A storage item of the account is in the set. */
  ghost predicate HasItem(E: iset<Key>, a: Key) { exists k: Key {:trigger k in E} :: k in E && a <= k && |a| < |k| }

  /** Two accounts below p. */
  ghost predicate Two(E: iset<Key>, p: Key) {
    exists a: Key, b: Key {:trigger a in E, b in E} :: a in E && b in E && a != b && p <= a && p <= b &&
        |a| == |b| == ACCOUNT_NIBBLES
  }

  /** Accounts, and storage items of accounts in the set. */
  ghost predicate Whose(E: iset<Key>) {
    forall k: Key {:trigger k in E} :: k in E ==> Account(k) || (Item(k) && k[..ACCOUNT_NIBBLES] in E)
  }

  /** No two accounts agree in all but the last nibble. */
  ghost predicate Apart(E: iset<Key>) {
    forall p: Key {:trigger Two(E, p)} :: |p| == ACCOUNT_NIBBLES - 1 ==> !Two(E, p)
  }

  /** The place is at or below a key that was deleted in this run. */
  predicate Dead(job: Job, n: nat, q: Key) {
    exists i {:trigger job.keys[i]} :: 0 <= i < n && i < |job.keys| && i < |job.deleted| && job.deleted[i] &&
        job.keys[i] <= q
  }

  lemma DeadBelow(job: Job, n: nat, q: Key, P: Key)
    requires Dead(job, n, q) && q <= P
    ensures Dead(job, n, P)
  {
    var i :| 0 <= i < n && i < |job.keys| && i < |job.deleted| && job.deleted[i] && job.keys[i] <= q;
    assert job.keys[i] <= P;
  }

  ghost predicate DeadFree(job: Job, n: nat, E: iset<Key>) {
    forall q: Key {:trigger Dead(job, n, q)} :: Dead(job, n, q) ==> !Occupied(E, q)
  }

  // ---- cells

  /** The nibbles of a cell lead to what is in it, at least as far as the keys to come. */
  ghost predicate Steers(keys: seq<Key>, n: nat, q: Key, c: Cell) {
    q + c.down == Tip(q, c) || exists r: Key :: SteersAt(keys, n, q, c, r)
  }

  predicate SteersAt(keys: seq<Key>, n: nat, q: Key, c: Cell, r: Key) {
    q <= r <= q + c.down && r <= Tip(q, c) && NoKey(keys, n, r)
  }

  /** A cell with no row below it. */
  ghost predicate Off(job: Job, n: nat, E: iset<Key>, S: Key -> BranchNode, q: Key, c: Cell) {
    Kept(S, E, q, c) && Steers(job.keys, n, q, c)
  }

  /** A cell with a row at P below it. */
  ghost predicate Over(E: iset<Key>, q: Key, c: Cell, P: Key) {
    Hangs(q, c, P) && Cover(E, q, P) && (|q| == ACCOUNT_NIBBLES ==> q in E)
  }

  /** The next row goes through the child x. */
  predicate Goes(row: Row, below: Key, x: nat) { |row.path| < |below| && below[|row.path|] == x }

  ghost predicate ChildOk(job: Job, n: nat, E: iset<Key>, S: Key -> BranchNode, row: Row, x: nat, below: Key)
    requires x < 16 && |row.cells| == 16
  {
    var q, c := row.path + [x], row.cells[x];
    if !row.after[x] then
      !Occupied(E, q) && ((Dead(job, n, q) && (row.touch[x] || IsEmpty(c))) || (c == EMPTY && !Goes(row, below, x)))
    else if Goes(row, below, x) then Over(E, q, c, below) && c != EMPTY
    else Off(job, n, E, S, q, c)
  }

  predicate AsRead(q: Key, c: Cell, d: Cell) { c == d && q + c.down == Tip(q, c) }

  /** A child that is not touched is as it was loaded. */
  predicate LoadedAt(b: BranchNode, row: Row, x: nat) {
    && b.BranchNode? && |b.cells| == 16 == |row.cells| && x < 16
    && (row.touch[x] || (row.after[x] == b.bitmap[x] && (row.after[x] ==>
        AsRead(row.path + [x], row.cells[x], b.cells[x]))))
  }

  /** The row of a branch node. */
  predicate AsLoaded(branchFn: Key -> BranchNode, row: Row) {
    row.before ==> forall x: nat {:trigger LoadedAt(branchFn(row.path), row, x)} :: x < 16 ==>
        LoadedAt(branchFn(row.path), row, x)
  }

  /** A row below a deleted key: its children come as deleted. */
  predicate NoneLeft(row: Row) {
    |row.cells| == 16 && row.after == Nothing() && forall x: nat {:trigger row.cells[x]} :: x < 16 ==>
        row.touch[x] || IsEmpty(row.cells[x])
  }

  ghost predicate RowHeld(job: Job, n: nat, E: iset<Key>, S: Key -> BranchNode, row: Row, below: Key) {
    |row.cells| == 16 &&
    if Dead(job, n, row.path) then NoneLeft(row)
    else AsLoaded(job.branchFn, row) && forall x: nat {:trigger ChildOk(job, n, E, S, row, x, below)} :: x < 16 ==>
        ChildOk(job, n, E, S, row, x, below)
  }

  lemma NoneFolded(up: Cell, at: nat, row: Row)
    requires NoneLeft(row) && at <= |row.path|
    ensures Ones16(row.after, 16) == 0 && FoldedInto(up, at, row) == EMPTY
  {
    SomeOne(row.after, 16);
  }

  // ---- folding

  /** The children of a row that is no longer under the cursor. */
  ghost predicate RowStands(E: iset<Key>, S: Key -> BranchNode, row: Row) {
    |row.cells| == 16 && forall x: nat {:trigger row.cells[x]} :: x < 16 ==>
      if row.after[x] then Kept(S, E, row.path + [x], row.cells[x]) else !Occupied(E, row.path + [x])
  }

  lemma LastStands(job: Job, n: nat, E: iset<Key>, S: Key -> BranchNode, row: Row)
    requires RowHeld(job, n, E, S, row, row.path) && !Dead(job, n, row.path)
    ensures RowStands(E, S, row)
  {
    forall x: nat | x < 16
      ensures if row.after[x] then Kept(S, E, row.path + [x], row.cells[x]) else !Occupied(E, row.path + [x])
    {
      assert ChildOk(job, n, E, S, row, x, row.path);
    }
  }

  /** A key below a row is below a child that is present. */
  lemma Through16(E: iset<Key>, S: Key -> BranchNode, row: Row, k: Key)
    requires RowStands(E, S, row) && Whose(E) && k in E && row.path <= k && |row.path| < |k|
    ensures k[|row.path|] < 16 && row.after[k[|row.path|]] && row.path + [k[|row.path|]] <= k
  {
    var x := k[|row.path|];
    assert Nibbles(k);
    assert row.path + [x] <= k;
    assert row.cells[x] == row.cells[x];
  }

  /** The node that the update of a row leaves. */
  lemma RowNode(job: Job, E: iset<Key>, S: Key -> BranchNode, S': Key -> BranchNode, row: Row, u: BranchUpdate)
    requires RowStands(E, S, row) && AsLoaded(job.branchFn, row) && Whose(E) && SameBut(S, S', row.path)
    requires Ones16(row.after, 16) >= 2 && FoldedUpdate(row) == Some(u)
    requires S'(row.path) == BranchNode(u.after, StoredCells(job.branchFn(row.path), u, row.path))
    ensures NodeKept(S', E, row.path)
  {
    var P, b := row.path, S'(row.path);
    forall x: nat | x < 16 && b.bitmap[x]
      ensures Kept(S', E, P + [x], b.cells[x]) && P + [x] + b.cells[x].down == Tip(P + [x], b.cells[x])
    {
      assert Kept(S, E, P + [x], row.cells[x]);
      assert row.before ==> LoadedAt(job.branchFn(P), row, x);
      KeptFrame(S, S', E, P, P + [x], row.cells[x]);
      KeptRead(S', E, P + [x], row.cells[x]);
    }
    forall k: Key | k in E && P <= k && |P| < |k| ensures k[|P|] < 16 && b.bitmap[k[|P|]] {
      Through16(E, S, row, k);
    }
  }

  /** An account without storage. */
  function AccountCell(q: Key): Cell { Cell([], false, [], Some(q), None) }

  ghost predicate NoneBelow(job: Job, n: nat, E: iset<Key>, S: Key -> BranchNode, q: Key) {
    if |q| == ACCOUNT_NIBBLES then !HasItem(E, q) && Off(job, n, E, S, q, AccountCell(q)) else !Occupied(E, q)
  }

  /** Nothing is left below the cell, but perhaps the account at its place. */
  lemma FoldedNone(job: Job, n: nat, E: iset<Key>, S: Key -> BranchNode, S': Key -> BranchNode, row: Row, q: Key)
    requires RowStands(E, S, row) && Whose(E) && Ones16(row.after, 16) == 0
    requires Cover(E, q, row.path) && q <= row.path && (|q| == ACCOUNT_NIBBLES ==> q in E)
    requires |row.path| < STORAGE_NIBBLES
    ensures NoneBelow(job, n, E, S', q)
  {
    SomeOne(row.after, 16);
    forall k: Key | k in E && q <= k ensures k == q && |q| == ACCOUNT_NIBBLES {
      if k != q {
        Through16(E, S, row, k);
      }
    }
    assert q + [] == q;
  }

  /** One child is left. */
  lemma FoldedOne(job: Job, n: nat, E: iset<Key>, S: Key -> BranchNode, S': Key -> BranchNode, row: Row, q: Key,
      up: Cell)
    requires RowStands(E, S, row) && Whose(E) && Ones16(row.after, 16) == 1 && SameBut(S, S', row.path)
    requires Over(E, q, up, row.path) && row.path <= q + up.down && NoKey(job.keys, n, row.path)
    ensures Off(job, n, E, S', q, FoldedInto(up, |q|, row))
  {
    var P, c := row.path, FoldedInto(up, |q|, row);
    SomeOne(row.after, 16);
    var x := FirstFrom(row.after, 0);
    var w, low := P + [x], row.cells[x];
    assert Kept(S, E, w, low);
    KeptFrame(S, S', E, P, w, low);
    LiftedCarries(q, up, P, x, low);
    forall k: Key | k in E && q <= k ensures w <= k || (c.account == Some(q) && k == q) {
      if k != q {
        Through16(E, S, row, k);
        OnlyOne(row.after, 16, x, k[|P|]);
      }
    }
    KeptAbove(S', E, q, c, w, low);
    assert SteersAt(job.keys, n, q, c, P);
  }

  lemma {:induction false} OnlyOne(m: ChildMap, n: nat, x: nat, y: nat)
    requires n <= 16 && Ones16(m, n) == 1 && x < n && y < n && m[x] && m[y]
    ensures x == y
  {
    if m[n - 1] {
      SomeOne(m, n - 1);
    } else {
      OnlyOne(m, n - 1, x, y);
    }
  }

  lemma {:induction false} OtherOne(m: ChildMap, n: nat) returns (x: nat, y: nat)
    requires n <= 16 && Ones16(m, n) >= 2
    ensures x < y < n && m[x] && m[y]
  {
    if m[n - 1] {
      SomeOne(m, n - 1);
      x :| 0 <= x < n - 1 && m[x];
      y := n - 1;
    } else {
      x, y := OtherOne(m, n - 1);
    }
  }

  /** A place as long as an account is occupied by that account. */
  lemma AccountAt(E: iset<Key>, q: Key)
    requires Whose(E) && Occupied(E, q) && |q| == ACCOUNT_NIBBLES
    ensures q in E
  {
    var k: Key :| k in E && q <= k;
    assert k[..ACCOUNT_NIBBLES] == q && (|k| == |q| ==> k == q);
  }

  lemma KeptOccupied(S: Key -> BranchNode, E: iset<Key>, q: Key, c: Cell)
    requires Kept(S, E, q, c) && |q| <= STORAGE_NIBBLES
    ensures Occupied(E, q)
  {
    var k := Inhabited(S, q, c);
    assert k in E;
  }

  lemma TwoAccounts(E: iset<Key>, S: Key -> BranchNode, row: Row)
    requires RowStands(E, S, row) && Whose(E) && Ones16(row.after, 16) >= 2 && |row.path| == ACCOUNT_NIBBLES - 1
    ensures Two(E, row.path)
  {
    var x, y := OtherOne(row.after, 16);
    var a, b := row.path + [x], row.path + [y];
    assert Kept(S, E, a, row.cells[x]) && Kept(S, E, b, row.cells[y]);
    KeptOccupied(S, E, a, row.cells[x]);
    KeptOccupied(S, E, b, row.cells[y]);
    AccountAt(E, a);
    AccountAt(E, b);
    assert a[|row.path|] != b[|row.path|];
  }

  lemma FewAccounts(E: iset<Key>, S: Key -> BranchNode, row: Row)
    requires RowStands(E, S, row) && Whose(E) && Apart(E) && Ones16(row.after, 16) >= 2
    ensures |row.path| != ACCOUNT_NIBBLES - 1
  {
    if |row.path| == ACCOUNT_NIBBLES - 1 {
      TwoAccounts(E, S, row);
    }
  }

  /** More are left: the node is in S'. */
  lemma FoldedMore(job: Job, n: nat, E: iset<Key>, S: Key -> BranchNode, S': Key -> BranchNode, row: Row, q: Key,
      up: Cell)
    requires RowStands(E, S, row) && Whose(E) && Ones16(row.after, 16) >= 2 && NodeKept(S', E, row.path)
    requires Over(E, q, up, row.path) && |row.path| != ACCOUNT_NIBBLES - 1
    ensures Off(job, n, E, S', q, FoldedInto(up, |q|, row))
  {
    if q in E {
      assert |q| == ACCOUNT_NIBBLES;
    }
    AboveKept(S', E, q, up, row.path);
  }

  /** The nodes before and after the update of a row. */
  ghost predicate Records(job: Job, S: Key -> BranchNode, S': Key -> BranchNode, row: Row) {
    SameBut(S, S', row.path) && var u := FoldedUpdate(row);
      u.Some? && u.value.after != Nothing() && |u.value.cells| == 16 ==>
        S'(row.path) == BranchNode(u.value.after, StoredCells(job.branchFn(row.path), u.value, row.path))
  }

  /** What folding leaves in the cell above stands for all keys there. */
  lemma FoldedHeld(job: Job, n: nat, E: iset<Key>, S: Key -> BranchNode, S': Key -> BranchNode, row: Row, q: Key,
      up: Cell)
    requires RowHeld(job, n, E, S, row, row.path) && !Dead(job, n, row.path) && Whose(E) && Apart(E)
    requires Over(E, q, up, row.path) && row.path <= q + up.down && NoKey(job.keys, n, row.path)
    requires Records(job, S, S', row)
    ensures var c := FoldedInto(up, |q|, row);
      if Ones16(row.after, 16) > 0 then Off(job, n, E, S', q, c) else c == EMPTY && NoneBelow(job, n, E, S', q)
  {
    LastStands(job, n, E, S, row);
    if Ones16(row.after, 16) == 0 {
      FoldedNone(job, n, E, S, S', row, q);
    } else if Ones16(row.after, 16) == 1 {
      FoldedOne(job, n, E, S, S', row, q, up);
    } else {
      SomeOne(row.after, 16);
      assert row.after != Nothing();
      FewAccounts(E, S, row);
      RowNode(job, E, S, S', row, FoldedUpdate(row).value);
      FoldedMore(job, n, E, S, S', row, q, up);
    }
  }

  // ---- accounts that are kept in the row above

  /** A cell at the end of an account, with the account that the cell above its row keeps for it. */
  function RestoredCell(q: Key, c: Cell, present: bool, kept: Option<Key>): Cell {
    if present && c.account == None && kept == Some(q) then c.(account := kept) else c
  }

  /** The row whose children are at the end of accounts. */
  predicate EndsAccounts(row: Row) { |row.path| == ACCOUNT_NIBBLES - 1 }

  function Restored(row: Row, kept: Option<Key>): (r: Row)
    requires |row.cells| == 16
    ensures |r.cells| == 16 && r == row.(cells := r.cells)
    ensures EndsAccounts(row) ==> forall x: nat {:trigger r.cells[x]} {:trigger row.cells[x]} :: x < 16 ==>
        r.cells[x] == RestoredCell(row.path + [x], row.cells[x], row.after[x], kept)
    ensures !EndsAccounts(row) ==> r == row
  {
    if EndsAccounts(row) then
      row.(cells := seq(16, x requires 0 <= x < 16 => RestoredCell(row.path + [x], row.cells[x], row.after[x], kept)))
    else row
  }

  /** Folding takes the account from the cell above. */
  lemma RestoredFolds(up: Cell, at: nat, row: Row)
    requires |row.cells| == 16 && at <= |row.path|
    ensures FoldedInto(up, at, Restored(row, up.account)) == FoldedInto(up, at, row)
  {
    SomeOne(row.after, 16);
  }

  /** The update does not depend on it either. */
  lemma RestoredUpdate(job: Job, n: nat, E: iset<Key>, S: Key -> BranchNode, row: Row, kept: Option<Key>)
    requires |row.cells| == 16 && RowHeld(job, n, E, S, Restored(row, kept), row.path) && Whose(E) && Apart(E)
    ensures FoldedUpdate(Restored(row, kept)) == FoldedUpdate(row)
  {
    var whole := Restored(row, kept);
    if Dead(job, n, row.path) {
      NoneFolded(EMPTY, 0, whole);
    } else if Ones16(row.after, 16) >= 2 {
      LastStands(job, n, E, S, whole);
      FewAccounts(E, S, whole);
    }
  }

  /** All storage items of the account were written in this run. */
  ghost predicate Recent(job: Job, n: nat, E: iset<Key>, q: Key) {
    forall k: Key {:trigger k in E} :: k in E && q <= k && |q| < |k| ==> Behind(job, n, k)
  }

  /** An account is kept above its row, or does not lose its storage in this run. */
  ghost predicate Sure(job: Job, n: nat, E: iset<Key>, q: Key, goes: bool, kept: Option<Key>) {
    kept == Some(q) || (Recent(job, n, E, q) && (goes ==> HasItem(E, q)))
  }

  ghost predicate SureRow(job: Job, n: nat, E: iset<Key>, row: Row, below: Key, kept: Option<Key>) {
    EndsAccounts(row) ==> forall x: nat {:trigger row.after[x]} :: x < 16 && row.after[x] ==>
        Sure(job, n, E, row.path + [x], Goes(row, below, x), kept)
  }

  // ---- the updates

  ghost predicate OtherHeld(E: iset<Key>, p: Key, x: nat) { exists y: nat :: y < 16 && y != x && Occupied(E, p + [y]) }

  /** A child is listed exactly if there is a key below it, and one below another child. */
  ghost predicate Lists(E: iset<Key>, p: Key, after: ChildMap) {
    forall x: nat {:trigger after[x]} :: x < 16 ==> (after[x] <==> Occupied(E, p + [x]) && OtherHeld(E, p, x))
  }

  /** The place is on the way to an earlier key. */
  predicate Behind(job: Job, n: nat, p: Key) {
    exists j {:trigger job.keys[j]} :: 0 <= j < n && j < |job.keys| && p <= job.keys[j]
  }

  /** The cells that are written can be read again. */
  predicate CellsRead(p: Key, u: BranchUpdate) {
    |u.cells| == 16 && forall x: nat {:trigger u.bitmap[x]} :: x < 16 && u.bitmap[x] ==>
        Fits(ReadBack(p + [x], u.cells[x]), |p| + 1)
  }

  ghost predicate UpdateStands(job: Job, n: nat, E: iset<Key>, p: Key, u: BranchUpdate) {
    Behind(job, n, p) && |p| < STORAGE_NIBBLES && Lists(E, p, u.after) && CellsRead(p, u)
  }

  ghost predicate UpdatesStand(job: Job, n: nat, E: iset<Key>, updates: map<Key, BranchUpdate>) {
    forall p: Key {:trigger p in updates} :: p in updates ==> UpdateStands(job, n, E, p, updates[p])
  }

  lemma ReadFits(q: Key, c: Cell)
    requires Shape(q, c) && |q| <= STORAGE_NIBBLES
    ensures Fits(ReadBack(q, c), |q|)
  {
    var d := ReadBack(q, c);
    DerivedTip(q, d);
    assert d.down == Tip(q, d)[|q|..];
    forall i | 0 <= i < |d.down| ensures d.down[i] < 16 {
      assert d.down[i] == Tip(q, d)[|q| + i];
    }
  }

  lemma RowLists(E: iset<Key>, S: Key -> BranchNode, row: Row)
    requires RowStands(E, S, row) && |row.path| < STORAGE_NIBBLES
    ensures Lists(E, row.path, if Ones16(row.after, 16) <= 1 then Nothing() else row.after)
  {
    var P := row.path;
    forall x: nat | x < 16 ensures row.after[x] <==> Occupied(E, P + [x]) {
      if row.after[x] {
        assert Kept(S, E, P + [x], row.cells[x]);
        KeptOccupied(S, E, P + [x], row.cells[x]);
      } else {
        assert row.cells[x] == row.cells[x];
      }
    }
    forall x: nat | x < 16 && row.after[x] ensures OtherHeld(E, P, x) <==> Ones16(row.after, 16) >= 2 {
      if Ones16(row.after, 16) >= 2 {
        var y, z := OtherOne(row.after, 16);
        assert Occupied(E, P + [y]) && Occupied(E, P + [z]);
      } else if OtherHeld(E, P, x) {
        var y: nat :| y < 16 && y != x && Occupied(E, P + [y]);
        SomeOne(row.after, 16);
        OnlyOne(row.after, 16, x, y);
      }
    }
  }

  /** The update of a row. */
  lemma RowRecorded(job: Job, n: nat, E: iset<Key>, S: Key -> BranchNode, row: Row)
    requires RowHeld(job, n, E, S, row, row.path) && |row.path| < STORAGE_NIBBLES && DeadFree(job, n, E)
    requires Behind(job, n, row.path) && Whose(E) && Apart(E)
    ensures FoldedUpdate(row).Some? ==> UpdateStands(job, n, E, row.path, FoldedUpdate(row).value)
  {
    var P := row.path;
    if Dead(job, n, P) {
      NoneFolded(EMPTY, 0, row);
      forall x: nat | x < 16 ensures !Occupied(E, P + [x]) {
        DeadBelow(job, n, P, P + [x]);
      }
    } else {
      LastStands(job, n, E, S, row);
      RowLists(E, S, row);
      forall x: nat | x < 16 && row.after[x] ensures Fits(ReadBack(P + [x], row.cells[x]), |P| + 1) {
        assert Kept(S, E, P + [x], row.cells[x]);
        ReadFits(P + [x], row.cells[x]);
      }
    }
  }
}
