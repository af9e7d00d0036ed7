/**
 * The rows of the cursor and the root: folding, unfolding and changing a cell keep that together with the branch nodes
 * they stand for the keys that the tree holds.
 */
module HexKept {
  import opened Options
  import opened ByteKeys
  import opened HexCursor
  import opened HexRun
  import opened HexReach
  import opened HexStore
  import opened HexHeld

  /** The branch nodes as the updates so far leave them. */
  function Nodes(job: Job, t: Tree): Key -> BranchNode { Stored(job.branchFn, t.updates) }

  /** The path of the next row; of the last row its own. */
  function BelowPath(t: Tree, r: nat): Key
    requires r < |t.rows|
  {
    if r + 1 < |t.rows| then t.rows[r + 1].path else t.rows[r].path
  }

  /** A row in which nothing was touched folds to the cell it came from. */
  predicate Pristine(up: Row, row: Row) {
    && |up.cells| == 16 == |row.cells| && Longer(up.path, row.path) && row.path[|up.path|] < 16
    && var c := up.cells[row.path[|up.path|]];
       row.touch == Nothing() ==> FoldedInto(c, |up.path| + 1, row) == c
  }

  /** The account in the cell above a row. */
  function UpAccount(t: Tree, r: nat): Option<Key>
    requires r < |t.rows|
  {
    if r == 0 then t.root.account else
      var up, P := t.rows[r - 1], t.rows[r].path;
      if |up.path| < |P| && P[|up.path|] < |up.cells| then up.cells[P[|up.path|]].account else None
  }

  /** A row with the account that is kept above it. */
  function WholeRow(t: Tree, r: nat): Row
    requires r < |t.rows| && |t.rows[r].cells| == 16
  {
    Restored(t.rows[r], UpAccount(t, r))
  }

  ghost predicate HeldAt(job: Job, n: nat, E: iset<Key>, t: Tree, r: nat)
    requires r < |t.rows|
  {
    && |t.rows[r].cells| == 16 && RowHeld(job, n, E, Nodes(job, t), WholeRow(t, r), BelowPath(t, r))
    && SureRow(job, n, E, t.rows[r], BelowPath(t, r), UpAccount(t, r))
  }

  ghost predicate PristineAt(job: Job, n: nat, t: Tree, r: nat)
    requires r < |t.rows| && |t.rows[r].cells| == 16
  {
    r > 0 && !Dead(job, n, t.rows[r].path) ==>
      |t.rows[r - 1].cells| == 16 && Pristine(WholeRow(t, r - 1), WholeRow(t, r))
  }

  ghost predicate RowAt(job: Job, n: nat, E: iset<Key>, t: Tree, r: nat)
    requires r < |t.rows|
  {
    HeldAt(job, n, E, t, r) && PristineAt(job, n, t, r)
  }

  ghost predicate RowsHeld(job: Job, n: nat, E: iset<Key>, t: Tree) {
    forall r: nat {:trigger RowAt(job, n, E, t, r)} :: r < |t.rows| ==> RowAt(job, n, E, t, r)
  }

  // ---- folding a row into the row above

  lemma FoldRecords(job: Job, t: Tree)
    requires TreeOk(t) && t.rows != [] && Current(t) !in t.updates
    ensures Records(job, Nodes(job, t), Nodes(job, Fold(t)), Last(t))
  {
  }

  /** A row further up. */
  lemma RowFrame(job: Job, n: nat, E: iset<Key>, S: Key -> BranchNode, S': Key -> BranchNode, row: Row, below: Key,
      P: Key)
    requires RowHeld(job, n, E, S, row, below) && SameBut(S, S', P) && Longer(row.path, below) && below <= P
    ensures RowHeld(job, n, E, S', row, below)
  {
    if !Dead(job, n, row.path) {
      forall x: nat | x < 16 ensures ChildOk(job, n, E, S', row, x, below) {
        assert ChildOk(job, n, E, S, row, x, below);
        if row.after[x] && !Goes(row, below, x) {
          Aside(row.path, x, P);
          KeptFrame(S, S', E, P, row.path + [x], row.cells[x]);
        }
      }
    }
  }

  lemma Aside(path: Key, x: nat, P: Key)
    requires |path| < |P| && P[|path|] != x
    ensures !(path + [x] <= P)
  {
    assert (path + [x])[|path|] == x;
  }

  /** Deleted keys end where accounts or storage items end. */
  lemma DeadUp(job: Job, n: nat, path: Key, x: nat, c: Cell, P: Key)
    requires Ascending(job.keys) && Hangs(path + [x], c, P) && Dead(job, n, P)
    ensures Dead(job, n, path) || (Dead(job, n, path + [x]) && |path| + 1 == ACCOUNT_NIBBLES)
  {
    var i :| 0 <= i < n && i < |job.keys| && i < |job.deleted| && job.deleted[i] && job.keys[i] <= P;
    assert KeyOk(job.keys[i]) && job.keys[i] == P[..|job.keys[i]|];
    assert path == P[..|path|] && path + [x] == P[..|path| + 1];
  }

  lemma DeadAt(job: Job, n: nat, E: iset<Key>, path: Key, x: nat, c: Cell, P: Key)
    requires Ascending(job.keys) && DeadFree(job, n, E) && !Dead(job, n, path) && Over(E, path + [x], c, P)
    ensures !Dead(job, n, P)
  {
    assert |path| + 1 == ACCOUNT_NIBBLES ==> Occupied(E, path + [x]);
    if Dead(job, n, P) {
      DeadUp(job, n, path, x, c, P);
    }
  }

  /** The row above with what is left of the row below it. */
  function Up(up: Row, row: Row): Row
    requires |up.cells| == 16 == |row.cells| && Longer(up.path, row.path) && row.path[|up.path|] < 16
  {
    FoldedRow(up, row, FoldedInto(up.cells[row.path[|up.path|]], |up.path| + 1, row))
  }

  /** The same with the account that is left when all its storage is gone. */
  function Merged(up: Row, row: Row): (r: Row)
    requires |up.cells| == 16 == |row.cells| && Longer(up.path, row.path) && row.path[|up.path|] < 16
    ensures |r.cells| == 16
  {
    var r, x := Up(up, row), row.path[|up.path|];
    if EndsAccounts(up) && up.after[x] && Ones16(row.after, 16) == 0 then
      r.(cells := r.cells[x := AccountCell(up.path + [x])])
    else r
  }

  lemma Untouched(up: Row, row: Row)
    requires Pristine(up, row) && row.touch == Nothing() && up.cells[row.path[|up.path|]] != EMPTY
    ensures Merged(up, row) == up && Ones16(row.after, 16) > 0
  {
    var x := row.path[|up.path|];
    assert up.cells[x := up.cells[x]] == up.cells;
  }

  /** Folding an active row into the row above. */
  ghost predicate Folds(job: Job, n: nat, E: iset<Key>, S: Key -> BranchNode, S': Key -> BranchNode, up: Row,
      row: Row) {
    && RowHeld(job, n, E, S, up, row.path) && RowHeld(job, n, E, S, row, row.path)
    && Along(up, row) && Records(job, S, S', row) && NoKey(job.keys, n, row.path)
    && Whose(E) && Apart(E) && Ascending(job.keys) && DeadFree(job, n, E)
    && (Dead(job, n, row.path) || Pristine(up, row))
  }

  /** The child that the row came from. */
  lemma FoldedPresent(job: Job, n: nat, E: iset<Key>, S: Key -> BranchNode, S': Key -> BranchNode, up: Row, row: Row,
      x: nat)
    requires Folds(job, n, E, S, S', up, row) && x == row.path[|up.path|] && up.after[x]
    requires Over(E, up.path + [x], up.cells[x], row.path) && up.cells[x] != EMPTY && !Dead(job, n, row.path)
    ensures ChildOk(job, n, E, S', Merged(up, row), x, up.path)
  {
    var q := up.path + [x];
    assert q == row.path[..|up.path| + 1];
    FoldedHeld(job, n, E, S, S', row, q, up.cells[x]);
    if row.touch == Nothing() {
      Untouched(up, row);
    }
    var up' := Merged(up, row);
    if Ones16(row.after, 16) > 0 {
      assert up'.after[x] && up'.cells[x] == FoldedInto(up.cells[x], |q|, row);
    } else if EndsAccounts(up) {
      assert up'.after[x] && up'.cells[x] == AccountCell(q);
    } else {
      assert !up'.after[x] && up'.cells[x] == EMPTY;
    }
  }

  lemma FoldedChild(job: Job, n: nat, E: iset<Key>, S: Key -> BranchNode, S': Key -> BranchNode, up: Row, row: Row)
    requires Folds(job, n, E, S, S', up, row) && !Dead(job, n, up.path)
    ensures ChildOk(job, n, E, S', Merged(up, row), row.path[|up.path|], up.path)
  {
    var x := row.path[|up.path|];
    assert ChildOk(job, n, E, S, up, x, row.path);
    assert up.path + [x] == row.path[..|up.path| + 1];
    if up.after[x] {
      DeadAt(job, n, E, up.path, x, up.cells[x], row.path);
      FoldedPresent(job, n, E, S, S', up, row, x);
    } else {
      DeadBelow(job, n, up.path + [x], row.path);
      NoneFolded(up.cells[x], |up.path| + 1, row);
    }
  }

  lemma MergedOther(up: Row, row: Row, y: nat)
    requires Along(up, row) && |row.cells| == 16 && y < 16 && y != row.path[|up.path|]
    ensures var r := Merged(up, row);
      r.path == up.path && r.cells[y] == up.cells[y] && r.after[y] == up.after[y] && r.touch[y] == up.touch[y]
  {
  }

  lemma OtherChild(job: Job, n: nat, E: iset<Key>, S: Key -> BranchNode, S': Key -> BranchNode, up: Row, row: Row,
      y: nat)
    requires Folds(job, n, E, S, S', up, row) && !Dead(job, n, up.path) && y < 16 && y != row.path[|up.path|]
    ensures ChildOk(job, n, E, S', Merged(up, row), y, up.path)
  {
    MergedOther(up, row, y);
    assert ChildOk(job, n, E, S, up, y, row.path);
    if up.after[y] {
      Aside(up.path, y, row.path);
      KeptFrame(S, S', E, row.path, up.path + [y], up.cells[y]);
    }
  }

  lemma FoldedLoaded(job: Job, n: nat, E: iset<Key>, S: Key -> BranchNode, S': Key -> BranchNode, up: Row, row: Row)
    requires Folds(job, n, E, S, S', up, row) && !Dead(job, n, up.path)
    ensures AsLoaded(job.branchFn, Merged(up, row))
  {
    var up', x := Merged(up, row), row.path[|up.path|];
    if up.before {
      var b := job.branchFn(up.path);
      forall y: nat | y < 16 ensures LoadedAt(b, up', y) {
        assert LoadedAt(b, up, y);
        if y == x && up.after[x] && row.touch == Nothing() {
          assert ChildOk(job, n, E, S, up, x, row.path);
          DeadAt(job, n, E, up.path, x, up.cells[x], row.path);
          Untouched(up, row);
        }
      }
    }
  }

  lemma FoldedRowHeld(job: Job, n: nat, E: iset<Key>, S: Key -> BranchNode, S': Key -> BranchNode, up: Row, row: Row)
    requires Folds(job, n, E, S, S', up, row)
    ensures RowHeld(job, n, E, S', Merged(up, row), up.path)
  {
    var up', x := Merged(up, row), row.path[|up.path|];
    if Dead(job, n, up.path) {
      DeadBelow(job, n, up.path, row.path);
      NoneFolded(up.cells[x], |up.path| + 1, row);
      assert forall y: nat {:trigger up'.cells[y]} :: y < 16 ==> up'.touch[y] || IsEmpty(up'.cells[y]) by {
        assert forall y: nat {:trigger up'.cells[y]} :: y < 16 && y != x ==> up'.cells[y] == up.cells[y];
      }
    } else {
      FoldedLoaded(job, n, E, S, S', up, row);
      forall y: nat | y < 16 ensures ChildOk(job, n, E, S', up', y, up.path) {
        if y == x {
          FoldedChild(job, n, E, S, S', up, row);
        } else {
          OtherChild(job, n, E, S, S', up, row, y);
        }
      }
    }
  }

  lemma FoldedPristine(job: Job, n: nat, E: iset<Key>, S: Key -> BranchNode, S': Key -> BranchNode, top: Row, up: Row,
      row: Row)
    requires Folds(job, n, E, S, S', up, row) && !Dead(job, n, up.path) && Pristine(top, up)
    ensures Pristine(top, Merged(up, row))
  {
    var up', x := Merged(up, row), row.path[|up.path|];
    assert row.touch != Nothing() ==> up'.touch[x];
    if up'.touch == Nothing() {
      assert ChildOk(job, n, E, S, up, x, row.path);
      if up.after[x] {
        DeadAt(job, n, E, up.path, x, up.cells[x], row.path);
        Untouched(up, row);
      } else {
        SomeOne(up.after, 16);
      }
    }
  }

  // ---- the root

  /** There is no branch node to look up for an empty root. */
  predicate NoNode(job: Job, t: Tree) { t.rootChecked || job.branchFn([]).NoBranch? }

  /** The root, or the branch node that is yet to be looked up. */
  function RootOf(S: Key -> BranchNode, t: Tree): Cell {
    if IsEmpty(t.root) && !t.rootChecked && S([]).BranchNode? then BRANCH else t.root
  }

  /** The root can be unfolded. */
  predicate Live(job: Job, t: Tree) {
    if t.root == EMPTY then !t.rootTouched || t.rootPresent else t.rootPresent && (NoNode(job, t) || t.root.down == [])
  }

  ghost predicate RootHeld(job: Job, n: nat, E: iset<Key>, t: Tree) {
    [] !in t.updates &&
    if t.rows != [] then
      var P := t.rows[0].path;
      Over(E, [], t.root, P) && (P == [] || t.rootPresent) && (NoNode(job, t) || (P == [] && t.rows[0].before))
    else
      var c := RootOf(job.branchFn, t);
      if c == EMPTY then !Occupied(E, []) else Off(job, n, E, Nodes(job, t), [], c) && Live(job, t)
  }

  /** The tree stands for the keys. */
  ghost predicate Good(job: Job, n: nat, E: iset<Key>, t: Tree) {
    && Inv(job, n, t) && Ascending(job.keys) && Whose(E) && DeadFree(job, n, E)
    && RowsHeld(job, n, E, t) && RootHeld(job, n, E, t) && UpdatesStand(job, n, E, t.updates) && Apart(E)
  }

  /** The root with the branch nodes stands for the keys. */
  ghost predicate RootStands(job: Job, n: nat, E: iset<Key>, t: Tree) {
    var c := RootOf(Nodes(job, t), t);
    Rooted(Nodes(job, t), t) && if c == EMPTY then !Occupied(E, []) else Off(job, n, E, Nodes(job, t), [], c)
  }

  lemma WholeRecords(job: Job, n: nat, E: iset<Key>, t: Tree)
    requires Good(job, n, E, t) && t.rows != [] && NoKey(job.keys, n, Current(t))
    ensures var row := WholeRow(t, |t.rows| - 1);
      Records(job, Nodes(job, t), Nodes(job, Fold(t)), row) && RowHeld(job, n, E, Nodes(job, t), row, row.path) &&
      FoldedUpdate(row) == FoldedUpdate(Last(t))
  {
    var k := |t.rows| - 1;
    FoldKeepsSettled(job, n, t);
    FoldRecords(job, t);
    assert RowAt(job, n, E, t, k);
    RestoredUpdate(job, n, E, Nodes(job, t), t.rows[k], UpAccount(t, k));
  }

  lemma FoldedToRoot(job: Job, n: nat, E: iset<Key>, t: Tree)
    requires Good(job, n, E, t) && |t.rows| == 1 && NoKey(job.keys, n, Current(t))
    ensures var c := Fold(t).root;
      if Ones16(Last(t).after, 16) > 0 then Off(job, n, E, Nodes(job, Fold(t)), [], c)
      else c == EMPTY && !Occupied(E, [])
  {
    var u, row := Fold(t), WholeRow(t, 0);
    WholeRecords(job, n, E, t);
    assert !Dead(job, n, row.path) by {
      assert forall i :: 0 <= i < |job.keys| ==> KeyOk(job.keys[i]);
    }
    RestoredFolds(t.root, 0, t.rows[0]);
    FoldedHeld(job, n, E, Nodes(job, t), Nodes(job, u), row, [], t.root);
  }

  /** The last row becomes the root. */
  lemma FoldToRoot(job: Job, n: nat, E: iset<Key>, t: Tree)
    requires Good(job, n, E, t) && |t.rows| == 1 && NoKey(job.keys, n, Current(t))
    ensures Fold(t).rows == [] && RootOf(Nodes(job, Fold(t)), Fold(t)) == Fold(t).root && RootStands(job, n, E, Fold(t))
    ensures Current(t) != [] ==> RootHeld(job, n, E, Fold(t))
  {
    var u, row := Fold(t), Last(t);
    FoldedToRoot(job, n, E, t);
    if Ones16(row.after, 16) > 0 {
      assert Shape([], u.root);
    }
  }

  lemma FoldsLast(job: Job, n: nat, E: iset<Key>, t: Tree)
    requires Good(job, n, E, t) && |t.rows| > 1 && NoKey(job.keys, n, Current(t))
    ensures |t.rows[|t.rows| - 2].cells| == 16 == |Last(t).cells|
    ensures var k := |t.rows| - 1;
      Folds(job, n, E, Nodes(job, t), Nodes(job, Fold(t)), WholeRow(t, k - 1), WholeRow(t, k))
  {
    var k := |t.rows| - 1;
    WholeRecords(job, n, E, t);
    assert RowAt(job, n, E, t, k) && RowAt(job, n, E, t, k - 1) && Along(t.rows[k - 1], t.rows[k]);
    AlongWhole(t.rows[k - 1], UpAccount(t, k - 1), t.rows[k]);
  }

  lemma AlongWhole(up: Row, kept: Option<Key>, row: Row)
    requires Along(up, row)
    ensures Along(Restored(up, kept), row)
  {
    var x := row.path[|up.path|];
    assert Restored(up, kept).cells[x].down == up.cells[x].down;
  }

  /** The storage of an account has no accounts. */
  predicate NoAccounts(row: Row) {
    |row.cells| == 16 && forall x: nat {:trigger row.cells[x]} :: x < 16 && row.after[x] ==>
        row.cells[x].account == None
  }

  /** Folding a row commutes with taking the account from above. */
  lemma MergedWhole(up: Row, kept: Option<Key>, row: Row)
    requires Along(up, row) && |row.cells| == 16
    requires EndsAccounts(up) ==> NoAccounts(row)
    requires EndsAccounts(up) && up.after[row.path[|up.path|]] && Ones16(row.after, 16) == 0 ==>
      kept == Some(row.path[..|up.path| + 1])
    ensures var c := up.cells[row.path[|up.path|]];
      Restored(Up(up, row), kept) == Merged(Restored(up, kept), Restored(row, c.account))
  {
    var x := row.path[|up.path|];
    var c, q := up.cells[x], up.path + [x];
    assert q == row.path[..|up.path| + 1];
    RestoredFolds(c, |q|, row);
    var r, m := Restored(Up(up, row), kept), Merged(Restored(up, kept), Restored(row, c.account));
    if EndsAccounts(up) {
      SomeOne(row.after, 16);
      forall y: nat | y < 16 ensures r.cells[y] == m.cells[y] {
      }
    }
    assert r.cells == m.cells;
  }

  lemma StorageOnly(job: Job, n: nat, E: iset<Key>, S: Key -> BranchNode, row: Row)
    requires RowHeld(job, n, E, S, row, row.path) && |row.path| >= ACCOUNT_NIBBLES
    ensures NoAccounts(row)
  {
    forall x: nat | x < 16 && row.after[x] ensures row.cells[x].account == None {
      if !Dead(job, n, row.path) {
        assert ChildOk(job, n, E, S, row, x, row.path);
      }
    }
  }

  /** An account that lost all its storage is kept above its row. */
  lemma LeftAbove(job: Job, n: nat, E: iset<Key>, t: Tree)
    requires Good(job, n, E, t) && |t.rows| > 1 && NoKey(job.keys, n, Current(t))
    requires EndsAccounts(t.rows[|t.rows| - 2]) && Ones16(Last(t).after, 16) == 0
    requires Longer(t.rows[|t.rows| - 2].path, Current(t)) && Current(t)[ACCOUNT_NIBBLES - 1] < 16
    requires t.rows[|t.rows| - 2].after[Current(t)[ACCOUNT_NIBBLES - 1]]
    ensures UpAccount(t, |t.rows| - 2) == Some(Current(t)[..ACCOUNT_NIBBLES])
  {
    var k := |t.rows| - 1;
    var up, row, x := WholeRow(t, k - 1), WholeRow(t, k), Current(t)[ACCOUNT_NIBBLES - 1];
    var q := up.path + [x];
    assert q == Current(t)[..ACCOUNT_NIBBLES];
    FoldsLast(job, n, E, t);
    assert ChildOk(job, n, E, Nodes(job, t), up, x, row.path) by {
      assert !Dead(job, n, up.path) by {
        assert forall i :: 0 <= i < |job.keys| ==> KeyOk(job.keys[i]);
      }
    }
    DeadAt(job, n, E, up.path, x, up.cells[x], row.path);
    FoldedHeld(job, n, E, Nodes(job, t), Nodes(job, Fold(t)), row, q, up.cells[x]);
    assert RowAt(job, n, E, t, k - 1);
    assert Sure(job, n, E, q, true, UpAccount(t, k - 1));
  }

  /** What is needed to merge the last row. */
  lemma Merges(job: Job, n: nat, E: iset<Key>, t: Tree)
    requires Good(job, n, E, t) && |t.rows| > 1 && NoKey(job.keys, n, Current(t)) && EndsAccounts(t.rows[|t.rows| - 2])
    ensures NoAccounts(Last(t)) && Longer(t.rows[|t.rows| - 2].path, Current(t)) && Current(t)[ACCOUNT_NIBBLES - 1] < 16
    ensures t.rows[|t.rows| - 2].after[Current(t)[ACCOUNT_NIBBLES - 1]] && Ones16(Last(t).after, 16) == 0 ==>
      UpAccount(t, |t.rows| - 2) == Some(Current(t)[..ACCOUNT_NIBBLES])
  {
    var k := |t.rows| - 1;
    FoldsLast(job, n, E, t);
    StorageOnly(job, n, E, Nodes(job, t), WholeRow(t, k));
    if t.rows[k - 1].after[Current(t)[ACCOUNT_NIBBLES - 1]] && Ones16(Last(t).after, 16) == 0 {
      LeftAbove(job, n, E, t);
    }
  }

  lemma FoldUp(t: Tree)
    requires TreeOk(t) && |t.rows| > 1 && AllAlong(t)
    ensures var u, k := Fold(t), |t.rows| - 1;
      |u.rows| == k && |t.rows[k - 1].cells| == 16 == |t.rows[k].cells| && Along(t.rows[k - 1], t.rows[k]) &&
      u.rows[k - 1] == Up(t.rows[k - 1], t.rows[k]) && UpAccount(u, k - 1) == UpAccount(t, k - 1)
  {
    var k := |t.rows| - 1;
    FoldOk(t);
    FoldsDown(t);
    assert Along(t.rows[k - 1], t.rows[k]) && RowOk(t.rows[k]);
  }

  /** The row above the last one, whole. */
  lemma FoldedWhole(job: Job, n: nat, E: iset<Key>, t: Tree)
    requires Good(job, n, E, t) && |t.rows| > 1 && NoKey(job.keys, n, Current(t))
    ensures var u, k := Fold(t), |t.rows| - 1;
      |u.rows| == k && |u.rows[k - 1].cells| == 16 && |t.rows[k - 1].cells| == 16 == |t.rows[k].cells| &&
      Along(t.rows[k - 1], t.rows[k]) && u.rows[k - 1] == Up(t.rows[k - 1], t.rows[k]) &&
      WholeRow(u, k - 1) == Merged(WholeRow(t, k - 1), WholeRow(t, k)) && UpAccount(u, k - 1) == UpAccount(t, k - 1)
  {
    var k := |t.rows| - 1;
    FoldUp(t);
    if EndsAccounts(t.rows[k - 1]) {
      Merges(job, n, E, t);
    }
    MergedWhole(t.rows[k - 1], UpAccount(t, k - 1), t.rows[k]);
  }

  lemma FoldedLastHeld(job: Job, n: nat, E: iset<Key>, t: Tree)
    requires Good(job, n, E, t) && |t.rows| > 1 && NoKey(job.keys, n, Current(t))
    ensures |Fold(t).rows| == |t.rows| - 1 && HeldAt(job, n, E, Fold(t), |t.rows| - 2)
  {
    var u, k := Fold(t), |t.rows| - 1;
    FoldsLast(job, n, E, t);
    FoldedWhole(job, n, E, t);
    FoldedRowHeld(job, n, E, Nodes(job, t), Nodes(job, u), WholeRow(t, k - 1), WholeRow(t, k));
    assert RowAt(job, n, E, t, k - 1);
    FoldedSure(job, n, E, t.rows[k - 1], t.rows[k], UpAccount(t, k - 1));
  }

  lemma FoldedLastPristine(job: Job, n: nat, E: iset<Key>, t: Tree)
    requires Good(job, n, E, t) && |t.rows| > 2 && NoKey(job.keys, n, Current(t))
    ensures |Fold(t).rows| == |t.rows| - 1 && |Last(Fold(t)).cells| == 16 && PristineAt(job, n, Fold(t), |t.rows| - 2)
  {
    var u, k := Fold(t), |t.rows| - 1;
    FoldsLast(job, n, E, t);
    FoldedWhole(job, n, E, t);
    assert RowAt(job, n, E, t, k - 1) && RowAt(job, n, E, t, k - 2);
    assert WholeRow(u, k - 2) == WholeRow(t, k - 2);
    if !Dead(job, n, t.rows[k - 1].path) {
      FoldedPristine(job, n, E, Nodes(job, t), Nodes(job, u), WholeRow(t, k - 2), WholeRow(t, k - 1), WholeRow(t, k));
    }
  }

  lemma FoldedLast(job: Job, n: nat, E: iset<Key>, t: Tree)
    requires Good(job, n, E, t) && |t.rows| > 1 && NoKey(job.keys, n, Current(t))
    ensures |Fold(t).rows| == |t.rows| - 1 && RowAt(job, n, E, Fold(t), |t.rows| - 2)
  {
    FoldedLastHeld(job, n, E, t);
    if |t.rows| > 2 {
      FoldedLastPristine(job, n, E, t);
    }
  }

  lemma FoldedSure(job: Job, n: nat, E: iset<Key>, up: Row, row: Row, kept: Option<Key>)
    requires Along(up, row) && |row.cells| == 16 && SureRow(job, n, E, up, row.path, kept)
    ensures SureRow(job, n, E, Up(up, row), up.path, kept)
  {
    var up' := Up(up, row);
    if EndsAccounts(up) {
      forall x: nat | x < 16 && up'.after[x] ensures Sure(job, n, E, up.path + [x], Goes(up', up.path, x), kept) {
        assert up.after[x];
      }
    }
  }

  /** The first rows of two trees, and what is kept above them, are the same. */
  predicate SameFirst(t: Tree, u: Tree, r: nat) {
    r < |t.rows| && r < |u.rows| && t.root == u.root && t.rows[..r + 1] == u.rows[..r + 1]
  }

  lemma SameWhole(t: Tree, u: Tree, r: nat, i: nat)
    requires SameFirst(t, u, r) && i <= r
    ensures t.rows[i] == u.rows[i] && UpAccount(t, i) == UpAccount(u, i)
  {
    assert t.rows[i] == t.rows[..r + 1][i] && u.rows[i] == u.rows[..r + 1][i];
    if i > 0 {
      assert t.rows[i - 1] == t.rows[..r + 1][i - 1] && u.rows[i - 1] == u.rows[..r + 1][i - 1];
    }
  }

  lemma SamePristine(job: Job, n: nat, t: Tree, u: Tree, r: nat)
    requires SameFirst(t, u, r) && |t.rows[r].cells| == 16 && PristineAt(job, n, t, r)
    ensures |u.rows[r].cells| == 16 && PristineAt(job, n, u, r)
  {
    SameWhole(t, u, r, r);
    if r > 0 {
      SameWhole(t, u, r, r - 1);
    }
  }

  lemma FoldFirst(t: Tree, r: nat)
    requires TreeOk(t) && r < |t.rows| - 2
    ensures SameFirst(t, Fold(t), r) && Fold(t).rows[r + 1].path == t.rows[r + 1].path && |Fold(t).rows| == |t.rows| - 1
  {
    FoldOk(t);
    FoldsDown(t);
  }

  lemma SameHeld(job: Job, n: nat, E: iset<Key>, t: Tree, u: Tree, r: nat, P: Key)
    requires SameFirst(t, u, r) && HeldAt(job, n, E, t, r) && BelowPath(u, r) == BelowPath(t, r)
    requires SameBut(Nodes(job, t), Nodes(job, u), P) && Longer(t.rows[r].path, BelowPath(t, r)) && BelowPath(t, r) <= P
    ensures HeldAt(job, n, E, u, r)
  {
    SameWhole(t, u, r, r);
    RowFrame(job, n, E, Nodes(job, t), Nodes(job, u), WholeRow(t, r), BelowPath(t, r), P);
  }

  lemma SameAt(job: Job, n: nat, E: iset<Key>, t: Tree, u: Tree, r: nat, P: Key)
    requires SameFirst(t, u, r) && RowAt(job, n, E, t, r) && BelowPath(u, r) == BelowPath(t, r)
    requires SameBut(Nodes(job, t), Nodes(job, u), P) && Longer(t.rows[r].path, BelowPath(t, r)) && BelowPath(t, r) <= P
    ensures RowAt(job, n, E, u, r)
  {
    SamePristine(job, n, t, u, r);
    SameHeld(job, n, E, t, u, r, P);
  }

  lemma BelowLast(t: Tree, r: nat)
    requires TreeOk(t) && r < |t.rows| - 1
    ensures Longer(t.rows[r].path, BelowPath(t, r)) && BelowPath(t, r) <= Current(t)
  {
    var k := |t.rows| - 1;
    assert Longer(t.rows[r].path, t.rows[r + 1].path) && (r + 1 < k ==> Longer(t.rows[r + 1].path, t.rows[k].path));
  }

  lemma FoldedHigher(job: Job, n: nat, E: iset<Key>, t: Tree, r: nat)
    requires TreeOk(t) && r < |t.rows| - 2 && RowAt(job, n, E, t, r) && Current(t) !in t.updates
    ensures |Fold(t).rows| == |t.rows| - 1 && RowAt(job, n, E, Fold(t), r)
  {
    FoldFirst(t, r);
    FoldRecords(job, t);
    BelowLast(t, r);
    SameAt(job, n, E, t, Fold(t), r, Current(t));
  }

  lemma FoldedAt(job: Job, n: nat, E: iset<Key>, t: Tree, r: nat)
    requires Good(job, n, E, t) && r < |t.rows| - 1 && NoKey(job.keys, n, Current(t))
    ensures |Fold(t).rows| == |t.rows| - 1 && RowAt(job, n, E, Fold(t), r)
  {
    if r < |t.rows| - 2 {
      FoldKeepsSettled(job, n, t);
      assert RowAt(job, n, E, t, r);
      FoldedHigher(job, n, E, t, r);
    } else {
      FoldedLast(job, n, E, t);
    }
  }

  lemma FoldRows(job: Job, n: nat, E: iset<Key>, t: Tree)
    requires Good(job, n, E, t) && |t.rows| > 1 && NoKey(job.keys, n, Current(t))
    ensures RowsHeld(job, n, E, Fold(t))
  {
    var u := Fold(t);
    FoldOk(t);
    forall r: nat | r < |u.rows| ensures RowAt(job, n, E, u, r) {
      FoldedAt(job, n, E, t, r);
    }
  }

  lemma FoldRoot(job: Job, n: nat, E: iset<Key>, t: Tree)
    requires TreeOk(t) && |t.rows| > 1 && RootHeld(job, n, E, t)
    ensures RootHeld(job, n, E, Fold(t))
  {
    FoldOk(t);
    FoldsDown(t);
    assert Fold(t).rows[0].path == t.rows[0].path;
  }

  lemma FoldUpdates(job: Job, n: nat, E: iset<Key>, t: Tree)
    requires Good(job, n, E, t) && t.rows != [] && Behind(job, n, Current(t)) && NoKey(job.keys, n, Current(t))
    ensures UpdatesStand(job, n, E, Fold(t).updates)
  {
    var u, k := Fold(t), |t.rows| - 1;
    WholeRecords(job, n, E, t);
    assert RowOk(t.rows[k]);
    RowRecorded(job, n, E, Nodes(job, t), WholeRow(t, k));
    forall p: Key | p in u.updates ensures UpdateStands(job, n, E, p, u.updates[p]) {
      assert p != Current(t) ==> p in t.updates;
    }
  }

  lemma FoldGood(job: Job, n: nat, E: iset<Key>, t: Tree)
    requires Good(job, n, E, t) && t.rows != [] && NoKey(job.keys, n, Current(t)) && (|t.rows| == 1 ==>
        Current(t) != [])
    requires Behind(job, n, Current(t))
    ensures Good(job, n, E, Fold(t))
  {
    FoldKeeps(job, n, t);
    FoldUpdates(job, n, E, t);
    if |t.rows| == 1 {
      FoldToRoot(job, n, E, t);
    } else {
      FoldRows(job, n, E, t);
      FoldRoot(job, n, E, t);
    }
  }
}
