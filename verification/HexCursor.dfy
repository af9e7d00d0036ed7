/**
 * The cursor of the hex Patricia tree as a value: a stack of rows that is unfolded towards the next key and
 * folded when the keys move on. Hashes are left out; a cell is what steers the cursor.
 */
module HexCursor {
  import opened Options
  import opened ByteKeys
  import opened BranchBytes

  const ROWS: nat := 128
  const ACCOUNT_NIBBLES: nat := 64
  const STORAGE_NIBBLES: nat := 128

  /** A cell: the nibbles below it by which the cursor is steered, whether it has the hash of a branch node, the
      extension that leads to that node, and the account and the storage item in it. A plain key is named by its
      hashed key. */
  datatype Cell = Cell(down: Key, hashed: bool, ext: Key, account: Option<Key>, storage: Option<Key>)

  const EMPTY: Cell := Cell([], false, [], None, None)

  /** A cell right above a branch node. */
  const BRANCH: Cell := Cell([], true, [], None, None)

  /** A cell from which the cursor does not go on. */
  predicate IsEmpty(c: Cell) { c.down == [] && !c.hashed }

  /** A branch node as branchFn returns it, without its hashes. */
  datatype BranchNode = NoBranch | BranchNode(bitmap: ChildMap, cells: seq<Cell>)

  /** An update of a branch node: the children whose cells are written, those that are touched, those that are present
      afterwards, and the cells. */
  datatype BranchUpdate = BranchUpdate(bitmap: ChildMap, touch: ChildMap, after: ChildMap, cells: seq<Cell>)

  /** A row of the grid: the children of the node at the end of path, and whether that is a branch node of the data. */
  datatype Row = Row(path: Key, before: bool, touch: ChildMap, after: ChildMap, cells: seq<Cell>)

  /** The root with its flags, the active rows, and the updates so far. */
  datatype Tree = Tree(root: Cell, rootChecked: bool, rootTouched: bool, rootPresent: bool, rows: seq<Row>,
      updates: map<Key, BranchUpdate>)

  /** Keys of accounts and of storage items. */
  predicate KeyOk(key: Key) {
    (|key| == ACCOUNT_NIBBLES || |key| == STORAGE_NIBBLES) &&
        forall i {:trigger key[i]} :: 0 <= i < |key| ==> key[i] < 16
  }

  predicate Nibbles(s: Key) { forall i {:trigger s[i]} :: 0 <= i < |s| ==> s[i] < 16 }

  /** What is below a cell of the given depth stays within the tree. */
  predicate Fits(c: Cell, depth: nat) { depth + |c.down| <= STORAGE_NIBBLES && Nibbles(c.down) }

  predicate CellsFit(cells: seq<Cell>, depth: nat) {
    |cells| == 16 && forall n {:trigger cells[n]} :: 0 <= n < 16 ==> Fits(cells[n], depth)
  }

  ghost predicate BranchesOk(branchFn: Key -> BranchNode) {
    forall p {:trigger branchFn(p)} :: branchFn(p).BranchNode? ==> CellsFit(branchFn(p).cells, |p| + 1)
  }

  function Nothing(): (m: ChildMap)
    ensures forall i :: 0 <= i < 16 ==> !m[i]
  {
    seq(16, _ => false)
  }

  function Only(n: nat): (m: ChildMap)
    requires n < 16
    ensures forall i :: 0 <= i < 16 ==> m[i] == (i == n)
  {
    seq(16, i => i == n)
  }

  function Ones16(m: ChildMap, n: nat): nat
    requires n <= 16
  {
    if n == 0 then 0 else Ones16(m, n - 1) + if m[n - 1] then 1 else 0
  }

  /** bits.TrailingZeros16 from n on. */
  function FirstFrom(m: ChildMap, n: nat): (r: nat)
    requires n <= 16
    ensures n <= r <= 16 && (r < 16 ==> m[r]) && forall i :: n <= i < r ==> !m[i]
    decreases 16 - n
  {
    if n == 16 || m[n] then n else FirstFrom(m, n + 1)
  }

  lemma {:induction false} SomeOne(m: ChildMap, n: nat)
    requires n <= 16
    ensures Ones16(m, n) > 0 <==> exists i :: 0 <= i < n && m[i]
  {
    if n > 0 {
      SomeOne(m, n - 1);
    }
  }

  // ---- rows

  predicate RowOk(row: Row) { |row.path| < STORAGE_NIBBLES && Nibbles(row.path) && CellsFit(row.cells, |row.path| + 1) }

  predicate Longer(a: Key, b: Key) { |a| < |b| && a <= b }

  /** Every row hangs below the one before. */
  predicate TreeOk(t: Tree) {
    && Fits(t.root, 0)
    && (forall r {:trigger t.rows[r]} :: 0 <= r < |t.rows| ==> RowOk(t.rows[r]))
    && forall r, s {:trigger Longer(t.rows[r].path, t.rows[s].path)} :: 0 <= r < s < |t.rows| ==>
        Longer(t.rows[r].path, t.rows[s].path)
  }

  function Last(t: Tree): Row
    requires t.rows != []
  {
    t.rows[|t.rows| - 1]
  }

  /** currentKey[:currentKeyLen]. */
  function Current(t: Tree): Key { if t.rows == [] then [] else Last(t).path }

  /** The depth of the last row. */
  function Depth(t: Tree): nat { if t.rows == [] then 0 else |Last(t).path| + 1 }

  lemma {:induction false} RowsBound(t: Tree, r: nat)
    requires TreeOk(t) && r < |t.rows|
    ensures r <= |t.rows[r].path|
  {
    if r > 0 {
      RowsBound(t, r - 1);
      assert Longer(t.rows[r - 1].path, t.rows[r].path);
    }
  }

  /** The cursor can move on towards a key. */
  predicate Ahead(t: Tree, key: Key) {
    KeyOk(key) && Current(t) <= key && (t.rows != [] ==> |Current(t)| < |key|)
  }

  /** The cell that the cursor is at, for a key, and its place. */
  function Target(t: Tree, key: Key): Cell
    requires TreeOk(t) && Ahead(t, key)
  {
    if t.rows == [] then t.root else Last(t).cells[key[|Current(t)|]]
  }

  function Place(t: Tree, key: Key): Key
    requires Ahead(t, key)
  {
    if t.rows == [] then [] else key[..|Current(t)| + 1]
  }

  predicate NeedFolding(t: Tree, key: Key) { !(Current(t) <= key) }

  /** commonPrefixLen: how many of the first n nibbles of down agree with the key from depth on. */
  function CommonPrefixLen(key: Key, depth: nat, down: Key, n: nat, i: nat): (r: nat)
    requires depth <= |key| && i <= n <= |down| && depth + i <= |key|
    ensures i <= r <= n && depth + r <= |key|
    decreases n - i
  {
    if i < n && depth + i < |key| && key[depth + i] == down[i] then CommonPrefixLen(key, depth, down, n, i + 1) else i
  }

  lemma {:induction false} CommonPrefix(key: Key, depth: nat, down: Key, n: nat, i: nat)
    requires depth <= |key| && i <= n <= |down| && depth + i <= |key|
    ensures forall j :: i <= j < CommonPrefixLen(key, depth, down, n, i) ==> key[depth + j] == down[j]
    decreases n - i
  {
    if i < n && depth + i < |key| && key[depth + i] == down[i] {
      CommonPrefix(key, depth, down, n, i + 1);
    }
  }

  /** How many nibbles to unfold. */
  function NeedUnfolding(t: Tree, key: Key): nat
    requires TreeOk(t) && Ahead(t, key)
  {
    var cell, depth := Target(t, key), Depth(t);
    if t.rows == [] && IsEmpty(cell) then (if t.rootChecked then 0 else 1)
    else if |key| <= depth then 0
    else if cell.down == [] then (if cell.hashed then 1 else 0)
    else
      var unfolding := CommonPrefixLen(key, depth, cell.down, |cell.down| - 1, 0) + 1;
      if depth < 64 && depth + unfolding > 64 then 64 - depth else unfolding
  }

  /** An unfolding stays within the key, and goes along the cell as far as cell and key agree. */
  predicate Unfolds(t: Tree, key: Key, n: nat)
    requires TreeOk(t) && Ahead(t, key)
  {
    var cell, depth := Target(t, key), Depth(t);
    && 0 < n && depth + n <= |key|
    && if cell.down == [] then n == 1 && (cell.hashed || (t.rows == [] && !t.rootChecked))
       else n <= |cell.down| && cell.down[..n - 1] <= key[depth..]
  }

  /** None: the cursor has come to the key, or to an empty cell. */
  lemma UnfoldingOk(t: Tree, key: Key)
    requires TreeOk(t) && Ahead(t, key)
    ensures NeedUnfolding(t, key) > 0 ==> Unfolds(t, key, NeedUnfolding(t, key))
    ensures NeedUnfolding(t, key) == 0 ==> Depth(t) == |key| || IsEmpty(Target(t, key))
  {
    var cell, depth := Target(t, key), Depth(t);
    if cell.down != [] && |key| > depth {
      var c := CommonPrefixLen(key, depth, cell.down, |cell.down| - 1, 0);
      CommonPrefix(key, depth, cell.down, |cell.down| - 1, 0);
      var n := NeedUnfolding(t, key);
      assert n <= c + 1;
      assert forall j :: 0 <= j < n - 1 ==> cell.down[j] == key[depth + j];
    }
  }

  function EmptyCells(): (r: seq<Cell>)
    ensures |r| == 16 && forall n :: 0 <= n < 16 ==> r[n] == EMPTY
  {
    seq(16, _ => EMPTY)
  }

  /** The children of a branch node. */
  function Loaded(b: BranchNode): (r: seq<Cell>)
    requires b.BranchNode? && |b.cells| == 16
    ensures |r| == 16 && forall n :: 0 <= n < 16 ==> r[n] == if b.bitmap[n] then b.cells[n] else EMPTY
  {
    seq(16, n requires 0 <= n < 16 => if b.bitmap[n] then b.cells[n] else EMPTY)
  }

  /** Whether the cell at the cursor is touched, and present. */
  function Touched(t: Tree, key: Key): bool
    requires Ahead(t, key)
  {
    if t.rows == [] then t.rootTouched else Last(t).touch[key[|Current(t)|]]
  }

  function Present(t: Tree, key: Key): bool
    requires Ahead(t, key)
  {
    if t.rows == [] then t.rootPresent else Last(t).after[key[|Current(t)|]]
  }

  /** unfoldBranchNode: the children become a row; under a deleted cell they come as deleted. */
  function BranchRow(path: Key, b: BranchNode, deleted: bool): Row
    requires b.BranchNode? && |b.cells| == 16
  {
    Row(path, true, if deleted then b.bitmap else Nothing(), if deleted then Nothing() else b.bitmap, Loaded(b))
  }

  /** fillFromUpperCell: what a cell becomes n nibbles further down, at a depth. The extension of an account belongs
      to its storage. */
  function Lowered(c: Cell, depth: nat, n: nat): Cell
    requires n <= |c.down|
  {
    Cell(c.down[n..], c.hashed,
         if depth <= ACCOUNT_NIBBLES && c.account.Some? then c.ext else if n <= |c.ext| then c.ext[n..] else [],
         if depth <= ACCOUNT_NIBBLES then c.account else None, c.storage)
  }

  /** A cell with nibbles below it moves down n nibbles, to a row of its own. */
  function CellRow(place: Key, cell: Cell, n: nat, touched: bool, present: bool): Row
    requires 0 < n <= |cell.down| && cell.down[n - 1] < 16
  {
    var nibble := cell.down[n - 1];
    Row(place + cell.down[..n - 1], false, if touched then Only(nibble) else Nothing(),
        if present then Only(nibble) else Nothing(),
        EmptyCells()[nibble := Lowered(cell, |place| + n, n)])
  }

  function Pushed(t: Tree, row: Row): Tree { t.(rows := t.rows + [row]) }

  /**
   * unfold: one more row. Without a branch node at the root there is no tree yet; elsewhere a branch node that is
   * missing ends the run.
   */
  function Unfold(t: Tree, key: Key, n: nat, branchFn: Key -> BranchNode): Option<Tree>
    requires TreeOk(t) && Ahead(t, key) && Unfolds(t, key, n) && BranchesOk(branchFn)
  {
    var cell, place := Target(t, key), Place(t, key);
    if cell.down != [] then Some(Pushed(t, CellRow(place, cell, n, Touched(t, key), Present(t, key))))
    else if branchFn(place).BranchNode? then
      Some(Pushed(t, BranchRow(place, branchFn(place), Touched(t, key) && !Present(t, key))))
    else if !t.rootChecked && place == [] then Some(t.(rootChecked := true))
    else None
  }

  lemma PushedOk(t: Tree, row: Row)
    requires TreeOk(t) && RowOk(row) && (t.rows != [] ==> Longer(Current(t), row.path))
    ensures TreeOk(Pushed(t, row))
  {
    var t' := Pushed(t, row);
    forall r, s | 0 <= r < s < |t'.rows| ensures Longer(t'.rows[r].path, t'.rows[s].path) {
      if s < |t.rows| {
        assert Longer(t.rows[r].path, t.rows[s].path);
      } else if r < |t.rows| - 1 {
        assert Longer(t.rows[r].path, t.rows[|t.rows| - 1].path);
      }
    }
  }

  lemma PlaceOk(t: Tree, key: Key)
    requires TreeOk(t) && Ahead(t, key)
    ensures |Place(t, key)| == Depth(t) <= |key| && Place(t, key) <= key && Nibbles(Place(t, key))
    ensures Fits(Target(t, key), Depth(t))
    ensures t.rows != [] ==> Longer(Current(t), Place(t, key))
  {
    if t.rows != [] {
      assert RowOk(Last(t));
    }
  }

  lemma CellRowOk(place: Key, cell: Cell, n: nat, touched: bool, present: bool, key: Key)
    requires Nibbles(place) && place <= key && Fits(cell, |place|) && 0 < n <= |cell.down|
    requires |place| + n <= |key| <= STORAGE_NIBBLES
    requires cell.down[..n - 1] <= key[|place|..]
    ensures var row := CellRow(place, cell, n, touched, present);
      RowOk(row) && row.path <= key && |row.path| == |place| + n - 1
  {
    var row := CellRow(place, cell, n, touched, present);
    forall i | 0 <= i < |row.path| ensures row.path[i] == key[i] && row.path[i] < 16 {
      if i >= |place| {
        assert row.path[i] == cell.down[..n - 1][i - |place|] == key[|place|..][i - |place|];
      }
    }
  }

  /** What a step of unfolding leaves. */
  predicate Moved(t: Tree, u: Tree, key: Key) {
    && TreeOk(u) && Ahead(u, key)
    && if u.rows == t.rows then u == t.(rootChecked := true) && !t.rootChecked && t.rows == []
       else |u.rows| == |t.rows| + 1 && u == Pushed(t, Last(u)) && Depth(u) > Depth(t)
  }

  lemma PushedMoves(t: Tree, row: Row, key: Key)
    requires TreeOk(t) && KeyOk(key) && RowOk(row) && row.path <= key && Depth(t) <= |row.path| < |key|
    requires t.rows != [] ==> Longer(Current(t), row.path)
    ensures Moved(t, Pushed(t, row), key)
  {
    PushedOk(t, row);
  }

  /** Unfolding goes on towards the key. */
  lemma UnfoldOk(t: Tree, key: Key, n: nat, branchFn: Key -> BranchNode)
    requires TreeOk(t) && Ahead(t, key) && Unfolds(t, key, n) && BranchesOk(branchFn)
    ensures var u := Unfold(t, key, n, branchFn); u.Some? ==> Moved(t, u.value, key)
  {
    var cell, place := Target(t, key), Place(t, key);
    PlaceOk(t, key);
    if cell.down != [] {
      CellRowOk(place, cell, n, Touched(t, key), Present(t, key), key);
      PushedMoves(t, CellRow(place, cell, n, Touched(t, key), Present(t, key)), key);
    } else if branchFn(place).BranchNode? {
      PushedMoves(t, BranchRow(place, branchFn(place), Touched(t, key) && !Present(t, key)), key);
    }
  }

  /** The loop that unfolds until the cursor has come to the key or to an empty cell. */
  function UnfoldTo(t: Tree, key: Key, branchFn: Key -> BranchNode): Option<Tree>
    requires TreeOk(t) && Ahead(t, key) && BranchesOk(branchFn)
    decreases STORAGE_NIBBLES - Depth(t), !t.rootChecked
  {
    var n := NeedUnfolding(t, key);
    UnfoldingOk(t, key);
    if n == 0 then Some(t)
    else
      UnfoldOk(t, key, n, branchFn);
      var u := Unfold(t, key, n, branchFn);
      if u.None? then None else UnfoldTo(u.value, key, branchFn)
  }

  // ---- folding

  /** The cell above the last row. */
  function UpDepth(t: Tree): nat
    requires t.rows != []
  {
    if |t.rows| == 1 then 0 else |t.rows[|t.rows| - 2].path| + 1
  }

  function UpCell(t: Tree): Cell
    requires TreeOk(t) && t.rows != []
  {
    if |t.rows| == 1 then t.root else
      assert Longer(t.rows[|t.rows| - 2].path, Last(t).path);
      t.rows[|t.rows| - 2].cells[Last(t).path[UpDepth(t) - 1]]
  }

  /** fillFromLowerCell: the cell above a row with one child left takes over what is in that child, at a depth and
      behind the nibbles pre; the nibbles by which the cursor is steered stay. */
  function Lifted(up: Cell, low: Cell, depth: nat, pre: Key, nibble: nat): Cell {
    Cell(up.down, low.hashed,
         if !low.hashed then []
         else if (low.account.None? && depth < ACCOUNT_NIBBLES) || (low.storage.None? && depth > ACCOUNT_NIBBLES) then
           pre + [nibble] + low.ext
         else low.ext,
         if low.account.Some? || depth < ACCOUNT_NIBBLES then low.account else up.account, low.storage)
  }

  /** The cell above a branch node, at a depth and behind the nibbles pre. */
  function Above(up: Cell, depth: nat, pre: Key): Cell {
    Cell(pre, true, pre, if depth < ACCOUNT_NIBBLES then None else up.account, None)
  }

  /** What is left of a row for the cell above it, which is at the depth at. */
  function FoldedInto(up: Cell, at: nat, row: Row): Cell
    requires at <= |row.path| && |row.cells| == 16
  {
    var parts := Ones16(row.after, 16);
    if parts == 0 then EMPTY
    else if parts == 1 then
      SomeOne(row.after, 16);
      var n := FirstFrom(row.after, 0);
      Lifted(up, row.cells[n], |row.path| + 1, row.path[at..], n)
    else Above(up, |row.path| + 1, row.path[at..])
  }

  function FoldedCell(t: Tree): Cell
    requires TreeOk(t) && t.rows != []
  {
    assert |t.rows| > 1 ==> Longer(t.rows[|t.rows| - 2].path, Last(t).path);
    FoldedInto(UpCell(t), UpDepth(t), Last(t))
  }

  /** The update of the node at the last row's path, if it is recorded: a row with at most one child left has no node
      any more. */
  function FoldedUpdate(row: Row): Option<BranchUpdate> {
    if Ones16(row.after, 16) <= 1 then
      (if row.before then Some(BranchUpdate(Nothing(), row.touch, Nothing(), EmptyCells())) else None)
    else
      var touch := if row.before then row.touch else Or(row.touch, row.after);
      Some(BranchUpdate(And(touch, row.after), touch, row.after, row.cells))
  }

  /** The row above, with the cell that the last row came from. */
  function FoldedRow(up: Row, row: Row, cell: Cell): Row
    requires |up.cells| == 16 && Longer(up.path, row.path) && row.path[|up.path|] < 16
  {
    var col := row.path[|up.path|];
    var deleted := Ones16(row.after, 16) == 0 && |up.path| + 1 != 64;
    up.(cells := up.cells[col := cell],
        touch := if row.touch != Nothing() then Or(up.touch, Only(col)) else up.touch,
        after := if row.touch != Nothing() && deleted then up.after[col := false] else up.after)
  }

  /** The row above can take the last one in. */
  predicate CanFold(rows: seq<Row>) {
    rows != [] && (|rows| > 1 ==>
      (var up, row := rows[|rows| - 2], rows[|rows| - 1];
       |up.cells| == 16 && Longer(up.path, row.path) && row.path[|up.path|] < 16))
  }

  /** The row above becomes the last one. */
  function FoldedRows(rows: seq<Row>, cell: Cell): (r: seq<Row>)
    requires CanFold(rows)
    ensures |r| == |rows| - 1 && forall k {:trigger r[k]} :: 0 <= k < |rows| - 2 ==> r[k] == rows[k]
    ensures |rows| > 1 ==> r[|rows| - 2] == FoldedRow(rows[|rows| - 2], rows[|rows| - 1], cell)
  {
    var k := |rows| - 1;
    if k == 0 then [] else rows[..k - 1] + [FoldedRow(rows[k - 1], rows[k], cell)]
  }

  lemma FoldsDown(t: Tree)
    requires TreeOk(t) && t.rows != []
    ensures CanFold(t.rows) && (|t.rows| > 1 ==> Longer(t.rows[|t.rows| - 2].path, Last(t).path))
  {
    if |t.rows| > 1 {
      assert RowOk(t.rows[|t.rows| - 2]) && RowOk(t.rows[|t.rows| - 1]);
      assert Longer(t.rows[|t.rows| - 2].path, t.rows[|t.rows| - 1].path);
    }
  }

  /** fold: the last row is dropped, and the cell above it holds what is left of it. */
  function Fold(t: Tree): Tree
    requires TreeOk(t) && t.rows != []
  {
    var row, u, only := Last(t), FoldedUpdate(Last(t)), |t.rows| == 1;
    FoldsDown(t);
    Tree(if only then FoldedCell(t) else t.root, t.rootChecked,
         t.rootTouched || (only && row.touch != Nothing()),
         t.rootPresent && !(only && row.touch != Nothing() && Ones16(row.after, 16) == 0),
         FoldedRows(t.rows, FoldedCell(t)),
         if u.Some? then t.updates[row.path := u.value] else t.updates)
  }

  lemma FoldOk(t: Tree)
    requires TreeOk(t) && t.rows != []
    ensures TreeOk(Fold(t)) && |Fold(t).rows| == |t.rows| - 1
    ensures forall r {:trigger Fold(t).rows[r]} :: 0 <= r < |t.rows| - 1 ==> Fold(t).rows[r].path == t.rows[r].path
  {
    var t', k := Fold(t), |t.rows| - 1;
    assert k > 0 ==> Longer(t.rows[k - 1].path, t.rows[k].path);
    assert RowOk(t.rows[k]) && (k > 0 ==> RowOk(t.rows[k - 1]));
    assert Fits(FoldedCell(t), UpDepth(t)) by {
      assert Fits(UpCell(t), UpDepth(t));
    }
    forall r, s | 0 <= r < s < |t'.rows| ensures Longer(t'.rows[r].path, t'.rows[s].path) {
      assert Longer(t.rows[r].path, t.rows[s].path);
    }
  }

  lemma FoldedLength(t: Tree)
    requires TreeOk(t) && t.rows != []
    ensures |Fold(t).rows| == |t.rows| - 1
    ensures |Current(Fold(t))| == if UpDepth(t) > 0 then UpDepth(t) - 1 else 0
  {
    FoldOk(t);
    assert |t.rows| > 1 ==> Fold(t).rows[|t.rows| - 2].path == t.rows[|t.rows| - 2].path;
  }

  /** The loop that folds until the current key is the start of the next key. */
  function FoldTo(t: Tree, key: Key): (r: Tree)
    requires TreeOk(t)
    ensures TreeOk(r) && !NeedFolding(r, key)
    decreases |t.rows|
  {
    if !NeedFolding(t, key) then t else (FoldOk(t); FoldTo(Fold(t), key))
  }

  function FoldAll(t: Tree): (r: Tree)
    requires TreeOk(t)
    ensures TreeOk(r) && r.rows == []
    decreases |t.rows|
  {
    if t.rows == [] then t else (FoldOk(t); FoldAll(Fold(t)))
  }

  // ---- the keys in order

  /** The cursor is where a key belongs: at its last nibble, or at an empty cell on its way. */
  predicate Arrived(t: Tree, key: Key) {
    TreeOk(t) && Ahead(t, key) && (Depth(t) == |key| || IsEmpty(Target(t, key)))
  }

  /** The cell at the cursor and its two bits. */
  function Put(t: Tree, key: Key, cell: Cell, present: bool): Tree
    requires TreeOk(t) && Ahead(t, key)
  {
    if t.rows == [] then t.(root := cell, rootTouched := true, rootPresent := present)
    else
      var k, col := |t.rows| - 1, key[|Current(t)|];
      var row := Last(t);
      t.(rows := t.rows[k := row.(cells := row.cells[col := cell], touch := Or(row.touch, Only(col)),
          after := row.after[col := present])])
  }

  /** A cell at a depth that gets a key. */
  function Keyed(c: Cell, depth: nat, key: Key): Cell
    requires depth <= |key|
  {
    var cell := if c.down == [] then c.(down := key[depth..]) else c;
    if |key| == ACCOUNT_NIBBLES then cell.(account := Some(key)) else cell.(storage := Some(key))
  }

  /** updateCell: afterwards the cell stands for the key. */
  function UpdateCell(t: Tree, key: Key): Tree
    requires Arrived(t, key)
  {
    PlaceOk(t, key);
    Put(t, key, Keyed(Target(t, key), Depth(t), key), true)
  }

  /** deleteCell changes something: a key that is not there is left alone. */
  predicate Deletes(t: Tree, key: Key)
    requires Arrived(t, key)
  {
    t.rows == [] || (Depth(t) >= |key| && Last(t).after[key[|Current(t)|]])
  }

  /** The cell at the cursor, its bits as they are. */
  function SetCell(t: Tree, key: Key, cell: Cell): Tree
    requires TreeOk(t) && Ahead(t, key) && t.rows != []
  {
    var k, row := |t.rows| - 1, Last(t);
    t.(rows := t.rows[k := row.(cells := row.cells[key[|Current(t)|] := cell])])
  }

  /** deleteCell: the cell loses its extension in any case, unless the key ends further down. */
  function DeleteCell(t: Tree, key: Key): Tree
    requires Arrived(t, key)
  {
    var cell := Target(t, key).(ext := []);
    if Deletes(t, key) then Put(t, key, cell, false)
    else if Depth(t) < |key| then t
    else SetCell(t, key, cell)
  }

  lemma SetCellOk(t: Tree, key: Key, cell: Cell)
    requires TreeOk(t) && Ahead(t, key) && t.rows != [] && Fits(cell, Depth(t))
    ensures var u := SetCell(t, key, cell);
      TreeOk(u) && Current(u) == Current(t) && Ahead(u, key) && |u.rows| == |t.rows|
  {
    var u, k := SetCell(t, key, cell), |t.rows| - 1;
    assert RowOk(t.rows[k]);
    forall r, s | 0 <= r < s < |u.rows| ensures Longer(u.rows[r].path, u.rows[s].path) {
      assert Longer(t.rows[r].path, t.rows[s].path);
    }
  }

  lemma PutOk(t: Tree, key: Key, cell: Cell, present: bool)
    requires TreeOk(t) && Ahead(t, key) && Fits(cell, Depth(t))
    ensures var u := Put(t, key, cell, present);
      TreeOk(u) && Current(u) == Current(t) && Ahead(u, key) && |u.rows| == |t.rows|
  {
    var u, k := Put(t, key, cell, present), |t.rows| - 1;
    if t.rows != [] {
      assert RowOk(t.rows[k]);
      forall r, s | 0 <= r < s < |u.rows| ensures Longer(u.rows[r].path, u.rows[s].path) {
        assert Longer(t.rows[r].path, t.rows[s].path);
      }
    }
  }
}
