/** HexPatriciaHashed: the cursor of HexCursor in its own arrays, changed in place. */
module HexPatricia {
  import opened Options
  import opened ByteKeys
  import opened BranchBytes
  import opened HexCursor
  import opened HexRun
  import opened HexReach
  import opened HexKeys

  class HexPatriciaHashed {
    var root: Cell
    var activeRows: nat
    var currentKeyLen: nat
    const grid: array2<Cell>
    const currentKey: array<nat>
    const depths: array<nat>
    const branchBefore: array<bool>
    const touchMap: array<ChildMap>
    const afterMap: array<ChildMap>
    var rootChecked: bool
    var rootTouched: bool
    var rootPresent: bool
    var updates: map<Key, BranchUpdate>

    ghost predicate Buffers()
    {
      && grid.Length0 == ROWS && grid.Length1 == 16 && currentKey.Length == STORAGE_NIBBLES && depths.Length == ROWS
      && branchBefore.Length == ROWS && touchMap.Length == ROWS && afterMap.Length == ROWS && touchMap != afterMap
      && currentKey != depths
    }

    ghost predicate CellsShown(r: nat, cells: seq<Cell>)
      reads grid
    {
      Buffers() && r < ROWS && |cells| == 16 &&
          forall n {:trigger cells[n]} {:trigger grid[r, n]} :: 0 <= n < 16 ==> grid[r, n] == cells[n]
    }

    ghost predicate PathShown(path: Key)
      reads currentKey
    {
      Buffers() && |path| < STORAGE_NIBBLES && path == currentKey[..|path|]
    }

    /** Row r of the arrays is this row. */
    ghost predicate RowShown(r: nat, row: Row)
      reads depths, currentKey, branchBefore, touchMap, afterMap, grid
    {
      && CellsShown(r, row.cells) && PathShown(row.path) && depths[r] == |row.path| + 1
      && branchBefore[r] == row.before && touchMap[r] == row.touch && afterMap[r] == row.after
    }

    ghost predicate RowsShown(rows: seq<Row>)
      reads depths, currentKey, branchBefore, touchMap, afterMap, grid
    {
      Buffers() && |rows| <= ROWS && forall r {:trigger rows[r]} :: 0 <= r < |rows| ==> RowShown(r, rows[r])
    }

    /** The object is this cursor. */
    ghost predicate Shows(t: Tree)
      reads this, depths, currentKey, branchBefore, touchMap, afterMap, grid
    {
      && RowsShown(t.rows) && activeRows == |t.rows| && currentKeyLen == |Current(t)|
      && RootShown(t)
    }

    method NeedFolding(key: Key, ghost t: Tree) returns (b: bool)
      requires Shows(t) && TreeOk(t)
      ensures b == HexCursor.NeedFolding(t, key)
    {
      assert t.rows != [] ==> RowShown(|t.rows| - 1, t.rows[|t.rows| - 1]);
      assert Current(t) == currentKey[..currentKeyLen];
      if currentKeyLen > |key| {
        return true;
      }
      var i := 0;
      while i < currentKeyLen && currentKey[i] == key[i]
        invariant i <= currentKeyLen && forall j :: 0 <= j < i ==> currentKey[j] == key[j]
      {
        i := i + 1;
      }
      b := i < currentKeyLen;
      if b {
        assert Current(t)[i] != key[i];
      }
    }

    /** The cell at the cursor with its two bits. */
    method TargetFor(key: Key, ghost t: Tree) returns (cell: Cell, depth: nat, touched: bool, present: bool)
      requires Shows(t) && TreeOk(t) && Ahead(t, key)
      ensures cell == Target(t, key) && depth == Depth(t) && touched == Touched(t, key) && present == Present(t, key)
    {
      if activeRows == 0 {
        return root, 0, rootTouched, rootPresent;
      }
      var row, col := activeRows - 1, key[currentKeyLen];
      assert RowShown(row, t.rows[row]);
      assert RowOk(t.rows[row]) && grid[row, col] == t.rows[row].cells[col];
      return grid[row, col], depths[row], touchMap[row][col], afterMap[row][col];
    }

    method NeedUnfolding(key: Key, ghost t: Tree) returns (unfolding: nat)
      requires Shows(t) && TreeOk(t) && Ahead(t, key)
      ensures unfolding == HexCursor.NeedUnfolding(t, key)
    {
      var cell, depth, touched, present := TargetFor(key, t);
      PlaceOk(t, key);
      if activeRows == 0 {
        if rootChecked && IsEmpty(cell) {
          return 0;
        }
        if IsEmpty(cell) && !rootChecked {
          return 1;
        }
      }
      if |key| <= depth {
        return 0;
      }
      if cell.down == [] {
        return if cell.hashed then 1 else 0;
      }
      unfolding := CommonPrefixLen(key, depth, cell.down, |cell.down| - 1, 0) + 1;
      if depth < 64 && depth + unfolding > 64 {
        unfolding := 64 - depth;
      }
    }

    // ---- unfolding

    /** Row r is not active yet, and empty. */
    ghost predicate EmptyRow(r: nat)
      reads branchBefore, touchMap, afterMap, grid
    {
      CellsShown(r, EmptyCells()) && touchMap[r] == Nothing() && afterMap[r] == Nothing() && !branchBefore[r]
    }

    method ClearRow(row: nat, ghost rows: seq<Row>)
      requires RowsShown(rows) && |rows| <= row < ROWS
      modifies grid, touchMap, afterMap, branchBefore
      ensures RowsShown(rows) && EmptyRow(row)
    {
      for i := 0 to 16
        invariant forall n :: 0 <= n < i ==> grid[row, n] == EMPTY
        invariant forall r, n :: 0 <= r < ROWS && r != row && 0 <= n < 16 ==> grid[r, n] == old(grid[r, n])
        modifies grid
      {
        grid[row, i] := EMPTY;
      }
      touchMap[row], afterMap[row], branchBefore[row] := Nothing(), Nothing(), false;
      forall r | 0 <= r < |rows| ensures RowShown(r, rows[r]) {
        assert old(RowShown(r, rows[r]));
      }
    }

    /** No row is deeper than the current key. */
    ghost predicate Shallow(rows: seq<Row>)
      reads `currentKeyLen
    {
      currentKeyLen <= STORAGE_NIBBLES &&
          forall r {:trigger rows[r]} :: 0 <= r < |rows| ==> |rows[r].path| <= currentKeyLen
    }

    /** currentKey grows by the given nibbles. */
    method PushKey(down: Key, ghost rows: seq<Row>)
      requires RowsShown(rows) && Shallow(rows) && currentKeyLen + |down| <= STORAGE_NIBBLES
      modifies this`currentKeyLen, currentKey
      ensures RowsShown(rows) && Shallow(rows) && currentKeyLen == old(currentKeyLen) + |down|
      ensures currentKey[..currentKeyLen] == old(currentKey[..currentKeyLen]) + down
    {
      var start := currentKeyLen;
      for i := 0 to |down|
        invariant currentKeyLen == start
        invariant forall j :: start <= j < start + i ==> currentKey[j] == down[j - start]
        invariant forall j :: 0 <= j < start ==> currentKey[j] == old(currentKey[j])
      {
        currentKey[start + i] := down[i];
      }
      currentKeyLen := start + |down|;
      forall r | 0 <= r < |rows| ensures RowShown(r, rows[r]) {
        assert old(RowShown(r, rows[r]));
      }
    }

    lemma ShallowNow(t: Tree)
      requires Shows(t) && TreeOk(t)
      ensures Shallow(t.rows)
    {
      forall r | 0 <= r < |t.rows| ensures |t.rows[r].path| <= currentKeyLen {
        assert r < |t.rows| - 1 ==> Longer(t.rows[r].path, t.rows[|t.rows| - 1].path);
      }
      assert t.rows != [] ==> RowOk(t.rows[|t.rows| - 1]);
    }

    /** The fields beside the rows. */
    ghost predicate RootShown(t: Tree)
      reads `root, `rootChecked, `rootTouched, `rootPresent, `updates
    {
      root == t.root && rootChecked == t.rootChecked && rootTouched == t.rootTouched && rootPresent == t.rootPresent &&
          updates == t.updates
    }

    /** The cursor has gone down to a place below the last row, with an empty row ahead. */
    ghost predicate Entered(t: Tree, place: Key)
      reads this, depths, currentKey, branchBefore, touchMap, afterMap, grid
    {
      && RootShown(t) && RowsShown(t.rows) && Shallow(t.rows) && activeRows == |t.rows| < ROWS && EmptyRow(activeRows)
      && currentKeyLen == |place| < STORAGE_NIBBLES && currentKey[..currentKeyLen] == place
    }

    /** The cursor goes down into the cell that it is at. */
    method Enter(key: Key, ghost t: Tree)
      requires Shows(t) && TreeOk(t) && Ahead(t, key) && Depth(t) < |key|
      modifies this`currentKeyLen, grid, currentKey, branchBefore, touchMap, afterMap
      ensures Entered(t, Place(t, key))
    {
      ShallowNow(t);
      if activeRows > 0 {
        RowsBound(t, activeRows - 1);
        assert RowShown(activeRows - 1, t.rows[activeRows - 1]);
        assert Place(t, key) == Current(t) + [key[|Current(t)|]];
        PushKey([key[currentKeyLen]], t.rows);
      }
      ClearRow(activeRows, t.rows);
    }

    /** The row that has been filled becomes active. */
    method AddRow(ghost rows: seq<Row>, ghost row: Row)
      requires RowsShown(rows) && activeRows == |rows| < ROWS && currentKeyLen < STORAGE_NIBBLES
      requires row.path == currentKey[..currentKeyLen]
      requires CellsShown(activeRows, row.cells) && branchBefore[activeRows] == row.before
      requires touchMap[activeRows] == row.touch && afterMap[activeRows] == row.after
      modifies this`activeRows, depths
      ensures activeRows == |rows| + 1 && RowsShown(rows + [row])
    {
      depths[activeRows] := currentKeyLen + 1;
      activeRows := activeRows + 1;
      forall r | 0 <= r < |rows| + 1 ensures RowShown(r, (rows + [row])[r]) {
        assert r < |rows| ==> old(RowShown(r, rows[r]));
      }
    }

    /** The children of a branch node fill the row ahead. */
    method FillRow(row: nat, b: BranchNode, deleted: bool, ghost rows: seq<Row>)
      requires RowsShown(rows) && |rows| <= row < ROWS && EmptyRow(row) && b.BranchNode? && |b.cells| == 16
      modifies grid, touchMap, afterMap, branchBefore
      ensures RowsShown(rows) && CellsShown(row, Loaded(b)) && branchBefore[row]
      ensures touchMap[row] == (if deleted then b.bitmap else Nothing())
      ensures afterMap[row] == if deleted then Nothing() else b.bitmap
    {
      for i := 0 to 16
        invariant forall n :: 0 <= n < 16 ==> grid[row, n] == if n < i && b.bitmap[n] then b.cells[n] else EMPTY
        invariant forall r, n :: 0 <= r < ROWS && r != row && 0 <= n < 16 ==> grid[r, n] == old(grid[r, n])
        modifies grid
      {
        if b.bitmap[i] {
          grid[row, i] := b.cells[i];
        }
      }
      branchBefore[row] := true;
      afterMap[row], touchMap[row] := if deleted then Nothing() else b.bitmap, if deleted then b.bitmap else Nothing();
      forall r | 0 <= r < |rows| ensures RowShown(r, rows[r]) {
        assert old(RowShown(r, rows[r]));
      }
    }

    /** unfoldBranchNode, and the row it fills. */
    method UnfoldBranch(deleted: bool, branchFn: Key -> BranchNode, ghost t: Tree, ghost place: Key) returns (ok: bool)
      requires Entered(t, place) && BranchesOk(branchFn) && (t.rows == [] <==> place == [])
      modifies this`activeRows, this`rootChecked, grid, depths, branchBefore, touchMap, afterMap
      ensures ok == (branchFn(place).BranchNode? || (!t.rootChecked && place == []))
      ensures branchFn(place).BranchNode? ==> Shows(Pushed(t, BranchRow(place, branchFn(place), deleted)))
      ensures ok && branchFn(place).NoBranch? ==> Shows(t.(rootChecked := true))
    {
      var b := branchFn(currentKey[..currentKeyLen]);
      if !rootChecked && currentKeyLen == 0 && b.NoBranch? {
        rootChecked := true;
        return true;
      }
      if b.NoBranch? {
        return false;
      }
      FillRow(activeRows, b, deleted, t.rows);
      AddRow(t.rows, BranchRow(place, b, deleted));
      ok := true;
    }

    method PlaceCell(row: nat, nibble: nat, cell: Cell, touched: bool, present: bool, ghost rows: seq<Row>)
      requires RowsShown(rows) && |rows| <= row < ROWS && EmptyRow(row) && nibble < 16
      modifies grid, touchMap, afterMap
      ensures RowsShown(rows) && CellsShown(row, EmptyCells()[nibble := cell])
      ensures touchMap[row] == (if touched then Only(nibble) else Nothing())
      ensures afterMap[row] == if present then Only(nibble) else Nothing()
    {
      if touched {
        touchMap[row] := Only(nibble);
      }
      if present {
        afterMap[row] := Only(nibble);
      }
      grid[row, nibble] := cell;
      forall r | 0 <= r < |rows| ensures RowShown(r, rows[r]) {
        assert old(RowShown(r, rows[r]));
      }
    }

    /** A cell with nibbles below it moves down, to a row of its own. */
    method UnfoldCell(upCell: Cell, unfolding: nat, touched: bool, present: bool, ghost t: Tree, ghost place: Key)
      requires Entered(t, place)
      requires 0 < unfolding <= |upCell.down| && upCell.down[unfolding - 1] < 16
      requires |place| + unfolding <= STORAGE_NIBBLES
      modifies this`activeRows, this`currentKeyLen, grid, currentKey, depths, touchMap, afterMap
      ensures Shows(Pushed(t, CellRow(place, upCell, unfolding, touched, present)))
    {
      PlaceCell(activeRows, upCell.down[unfolding - 1], Lowered(upCell, currentKeyLen + unfolding, unfolding), touched,
          present, t.rows);
      PushKey(upCell.down[..unfolding - 1], t.rows);
      AddRow(t.rows, CellRow(place, upCell, unfolding, touched, present));
    }

    /** unfold, which makes one more row. */
    method Unfold(key: Key, unfolding: nat, branchFn: Key -> BranchNode, ghost t: Tree) returns (ok: bool)
      requires Shows(t) && TreeOk(t) && Ahead(t, key) && Unfolds(t, key, unfolding) && BranchesOk(branchFn)
      modifies this`activeRows, this`currentKeyLen, this`rootChecked, grid, currentKey, depths, branchBefore, touchMap
      modifies afterMap
      ensures ok == HexCursor.Unfold(t, key, unfolding, branchFn).Some?
      ensures ok ==> Shows(HexCursor.Unfold(t, key, unfolding, branchFn).value)
    {
      PlaceOk(t, key);
      var upCell, depth, touched, present := TargetFor(key, t);
      Enter(key, t);
      if upCell.down == [] {
        ok := UnfoldBranch(touched && !present, branchFn, t, Place(t, key));
      } else {
        UnfoldCell(upCell, unfolding, touched, present, t, Place(t, key));
        ok := true;
      }
    }

    // ---- folding

    /** A change in the last row is a change of the cell above it; an account stays when its storage is gone. */
    method Tell(row: nat, col: nat, upDepth: nat, parts: nat)
      requires Buffers() && row < ROWS && col < 16
      modifies this`rootTouched, this`rootPresent, touchMap, afterMap
      ensures forall r {:trigger touchMap[r]} :: 0 <= r < ROWS && r + 1 != row ==> touchMap[r] == old(touchMap[r])
      ensures forall r {:trigger afterMap[r]} :: 0 <= r < ROWS && r + 1 != row ==> afterMap[r] == old(afterMap[r])
      ensures var told := old(touchMap[row]) != Nothing();
        rootTouched == (old(rootTouched) || (row == 0 && told)) &&
            rootPresent == (old(rootPresent) && !(row == 0 && told && parts == 0))
      ensures row > 0 && old(touchMap[row]) != Nothing() ==> touchMap[row - 1] == Or(old(touchMap[row - 1]), Only(col))
      ensures row > 0 && old(touchMap[row]) == Nothing() ==> touchMap[row - 1] == old(touchMap[row - 1])
      ensures var gone := old(touchMap[row]) != Nothing() && parts == 0 && upDepth != 64;
        row > 0 ==> afterMap[row - 1] == if gone then old(afterMap[row - 1])[col := false] else old(afterMap[row - 1])
    {
      if touchMap[row] != Nothing() {
        if row == 0 {
          rootTouched := true;
          if parts == 0 {
            rootPresent := false;
          }
        } else {
          touchMap[row - 1] := Or(touchMap[row - 1], Only(col));
          if parts == 0 && upDepth != 64 {
            afterMap[row - 1] := afterMap[row - 1][col := false];
          }
        }
      }
    }

    /** The cells of a row. */
    method RowCells(r: nat, ghost shown: seq<Cell>) returns (cells: seq<Cell>)
      requires CellsShown(r, shown)
      ensures cells == shown
    {
      cells := [];
      for n := 0 to 16
        invariant |cells| == n && forall m :: 0 <= m < n ==> cells[m] == shown[m]
      {
        cells := cells + [grid[r, n]];
      }
    }

    /** The update that the last row leaves, if any. */
    method Record(r: nat, parts: nat, ghost row: Row, ghost rows: seq<Row>)
      requires RowsShown(rows) && |rows| <= r && RowShown(r, row) && currentKeyLen == |row.path|
      requires parts == Ones16(row.after, 16)
      modifies this`updates, touchMap
      ensures RowsShown(rows)
      ensures var u := FoldedUpdate(row); updates == if u.Some? then old(updates)[row.path := u.value] else old(updates)
    {
      var key := currentKey[..currentKeyLen];
      if parts <= 1 {
        if branchBefore[r] {
          updates := updates[key := BranchUpdate(Nothing(), touchMap[r], Nothing(), EmptyCells())];
        }
      } else {
        var bitmap := And(touchMap[r], afterMap[r]);
        if !branchBefore[r] {
          touchMap[r] := Or(touchMap[r], afterMap[r]);
          bitmap := Or(bitmap, afterMap[r]);
        }
        assert bitmap == And(touchMap[r], afterMap[r]);
        var cells := RowCells(r, row.cells);
        updates := updates[key := BranchUpdate(bitmap, touchMap[r], afterMap[r], cells)];
      }
      forall k | 0 <= k < |rows| ensures RowShown(k, rows[k]) {
        assert old(RowShown(k, rows[k]));
      }
    }

    /** The cell above the last row gets what is left of it. */
    method SetUp(row: nat, col: nat, cell: Cell)
      requires Buffers() && row < ROWS && col < 16
      modifies this`root, grid
      ensures root == if row == 0 then cell else old(root)
      ensures forall r, n {:trigger grid[r, n]} :: 0 <= r < ROWS && 0 <= n < 16 ==>
          grid[r, n] == if r + 1 == row && n == col then cell else old(grid[r, n])
    {
      if row == 0 {
        root := cell;
      } else {
        grid[row - 1, col] := cell;
      }
    }

    /** Where the cell above the last row is, and what it is to hold. */
    method FoldUp(ghost t: Tree) returns (upDepth: nat, col: nat, parts: nat, cell: Cell)
      requires Shows(t) && TreeOk(t) && t.rows != []
      ensures upDepth == UpDepth(t) && parts == Ones16(Last(t).after, 16) && cell == FoldedCell(t) && col < 16
      ensures |t.rows| > 1 ==> UpDepth(t) <= |Last(t).path| && col == Last(t).path[UpDepth(t) - 1]
    {
      var row := activeRows - 1;
      assert row > 0 ==> Longer(t.rows[row - 1].path, t.rows[row].path);
      assert RowOk(t.rows[row]) && RowShown(row, t.rows[row]);
      assert row > 0 ==> RowOk(t.rows[row - 1]) && RowShown(row - 1, t.rows[row - 1]);
      upDepth := if row == 0 then 0 else depths[row - 1];
      col := if row == 0 then 0 else currentKey[upDepth - 1];
      assert row > 0 ==> col == t.rows[row].path[upDepth - 1];
      var upCell := if row == 0 then root else grid[row - 1, col];
      assert row > 0 ==> upCell == t.rows[row - 1].cells[col];
      parts := Ones16(afterMap[row], 16);
      if parts == 0 {
        cell := EMPTY;
      } else if parts == 1 {
        SomeOne(afterMap[row], 16);
        var first := FirstFrom(afterMap[row], 0);
        assert grid[row, first] == t.rows[row].cells[first];
        cell := Lifted(upCell, grid[row, first], depths[row], currentKey[upDepth..currentKeyLen], first);
        assert currentKey[upDepth..currentKeyLen] == t.rows[row].path[upDepth..];
      } else {
        cell := Above(upCell, depths[row], currentKey[upDepth..currentKeyLen]);
        assert currentKey[upDepth..currentKeyLen] == t.rows[row].path[upDepth..];
      }
    }

    /** The row above the last one gets what is left of it. */
    method ChangeUpper(row: nat, col: nat, upDepth: nat, parts: nat, cell: Cell, ghost rows: seq<Row>)
      requires RowsShown(rows) && CanFold(rows) && row + 1 == |rows| && parts == Ones16(rows[row].after, 16) && col < 16
      requires row > 0 ==> col == rows[row].path[|rows[row - 1].path|] && upDepth == |rows[row - 1].path| + 1
      modifies this`root, this`rootTouched, this`rootPresent, grid, touchMap, afterMap
      ensures RowsShown(FoldedRows(rows, cell)) && RowShown(row, rows[row])
      ensures root == if row == 0 then cell else old(root)
      ensures var told := row == 0 && rows[row].touch != Nothing();
        rootTouched == (old(rootTouched) || told) && rootPresent == (old(rootPresent) && !(told && parts == 0))
    {
      assert RowShown(row, rows[row]) && (row > 0 ==> RowShown(row - 1, rows[row - 1]));
      Tell(row, col, upDepth, parts);
      SetUp(row, col, cell);
      forall r | 0 <= r < row - 1 ensures RowShown(r, rows[r]) {
        assert old(RowShown(r, rows[r]));
      }
      ghost var folded := FoldedRows(rows, cell);
      if row > 0 {
        assert RowShown(row - 1, FoldedRow(rows[row - 1], rows[row], cell));
      }
      forall r | 0 <= r < row ensures RowShown(r, folded[r]) {
        assert r < row - 1 ==> folded[r] == rows[r];
      }
    }

    /** What the last row leaves in the fields and in the rows above. */
    method FoldRow(upDepth: nat, col: nat, parts: nat, cell: Cell, ghost t: Tree)
      requires RowsShown(t.rows) && RootShown(t) && CanFold(t.rows) && activeRows == |t.rows|
      requires currentKeyLen == |Last(t).path|
      requires parts == Ones16(Last(t).after, 16) && col < 16
      requires |t.rows| > 1 ==> upDepth == |t.rows[|t.rows| - 2].path| + 1 && col == Last(t).path[upDepth - 1]
      modifies this`root, this`rootTouched, this`rootPresent, this`updates, grid, touchMap, afterMap
      ensures RowsShown(FoldedRows(t.rows, cell)) && rootChecked == t.rootChecked
      ensures root == if |t.rows| == 1 then cell else t.root
      ensures var told := |t.rows| == 1 && Last(t).touch != Nothing();
        rootTouched == (t.rootTouched || told) && rootPresent == (t.rootPresent && !(told && parts == 0))
      ensures var u := FoldedUpdate(Last(t));
        updates == if u.Some? then t.updates[Last(t).path := u.value] else t.updates
    {
      ChangeUpper(activeRows - 1, col, upDepth, parts, cell, t.rows);
      Record(activeRows - 1, parts, Last(t), FoldedRows(t.rows, cell));
    }

    method DropRow(upDepth: nat, ghost u: Tree)
      requires RowsShown(u.rows) && RootShown(u) && activeRows == |u.rows| + 1
      requires |Current(u)| == if upDepth > 0 then upDepth - 1 else 0
      modifies this`activeRows, this`currentKeyLen
      ensures Shows(u) && activeRows == old(activeRows) - 1
    {
      activeRows := activeRows - 1;
      currentKeyLen := if upDepth > 0 then upDepth - 1 else 0;
      forall r | 0 <= r < |u.rows| ensures RowShown(r, u.rows[r]) {
        assert old(RowShown(r, u.rows[r]));
      }
    }

    /** fold: the last row is dropped. */
    method Fold(ghost t: Tree)
      requires Shows(t) && TreeOk(t) && t.rows != []
      modifies this`root, this`activeRows, this`currentKeyLen, this`rootTouched, this`rootPresent, this`updates, grid
      modifies touchMap, afterMap
      ensures Shows(HexCursor.Fold(t)) && activeRows == old(activeRows) - 1
    {
      FoldsDown(t);
      FoldedLength(t);
      var upDepth, col, parts, cell := FoldUp(t);
      FoldRow(upDepth, col, parts, cell, t);
      DropRow(upDepth, HexCursor.Fold(t));
    }

    // ---- the keys in order

    constructor ()
      ensures Shows(Tree(EMPTY, false, false, false, [], map[]))
      ensures fresh(grid) && fresh(currentKey) && fresh(depths) && fresh(branchBefore) && fresh(touchMap)
      ensures fresh(afterMap)
    {
      root, activeRows, currentKeyLen, updates := EMPTY, 0, 0, map[];
      rootChecked, rootTouched, rootPresent := false, false, false;
      grid := new Cell[ROWS, 16]((_, _) => EMPTY);
      currentKey, depths := new nat[STORAGE_NIBBLES](_ => 0), new nat[ROWS](_ => 0);
      branchBefore := new bool[ROWS](_ => false);
      touchMap, afterMap := new ChildMap[ROWS](_ => Nothing()), new ChildMap[ROWS](_ => Nothing());
    }

    /** Reset: the root is to be looked up again. */
    method Reset(ghost t: Tree)
      requires Shows(t)
      modifies this`root, this`rootChecked, this`rootTouched, this`rootPresent
      ensures Shows(WithoutRoot(t))
    {
      rootChecked, root, rootTouched, rootPresent := false, EMPTY, false, true;
      forall r | 0 <= r < |t.rows| ensures RowShown(r, t.rows[r]) {
        assert old(RowShown(r, t.rows[r]));
      }
    }

    /** The cell at the cursor is touched, and gets a new value. */
    method PutCell(key: Key, cell: Cell, present: bool, ghost t: Tree)
      requires Shows(t) && TreeOk(t) && Ahead(t, key)
      modifies this`root, this`rootTouched, this`rootPresent, grid, touchMap, afterMap
      ensures Shows(Put(t, key, cell, present))
    {
      if activeRows == 0 {
        root, rootTouched, rootPresent := cell, true, present;
      } else {
        var row, col := activeRows - 1, key[currentKeyLen];
        grid[row, col], touchMap[row], afterMap[row] := cell, Or(touchMap[row],
            Only(col)), afterMap[row][col := present];
        forall r | 0 <= r < |t.rows| ensures RowShown(r, Put(t, key, cell, present).rows[r]) {
          assert old(RowShown(r, t.rows[r]));
        }
      }
    }

    method UpdateCell(key: Key, ghost t: Tree)
      requires Shows(t) && Arrived(t, key)
      modifies this`root, this`rootTouched, this`rootPresent, grid, touchMap, afterMap
      ensures Shows(HexCursor.UpdateCell(t, key))
    {
      var cell, depth, touched, present := TargetFor(key, t);
      PlaceOk(t, key);
      PutCell(key, Keyed(cell, depth, key), true, t);
    }

    /** deleteCell: a key that is not there is left alone. */
    method DeleteCell(key: Key, ghost t: Tree)
      requires Shows(t) && Arrived(t, key)
      modifies this`root, this`rootTouched, this`rootPresent, grid, touchMap, afterMap
      ensures Shows(HexCursor.DeleteCell(t, key))
    {
      var cell, depth, touched, present := TargetFor(key, t);
      if activeRows == 0 || (depth >= |key| && present) {
        PutCell(key, cell.(ext := []), false, t);
      } else if depth >= |key| {
        ClearExtension(key, cell.(ext := []), t);
      }
    }

    method ClearExtension(key: Key, cell: Cell, ghost t: Tree)
      requires Shows(t) && TreeOk(t) && Ahead(t, key) && t.rows != []
      modifies grid
      ensures Shows(SetCell(t, key, cell))
    {
      grid[activeRows - 1, key[currentKeyLen]] := cell;
      forall r | 0 <= r < |t.rows| ensures RowShown(r, SetCell(t, key, cell).rows[r]) {
        assert old(RowShown(r, t.rows[r]));
      }
    }

    method FoldOnce(key: Key, ghost t: Tree) returns (ghost u: Tree, folding: bool)
      requires Shows(t) && TreeOk(t) && HexCursor.NeedFolding(t, key)
      modifies this`root, this`activeRows, this`currentKeyLen, this`rootTouched, this`rootPresent, this`updates, grid
      modifies touchMap, afterMap
      ensures Shows(u) && TreeOk(u) && folding == HexCursor.NeedFolding(u, key) && activeRows < old(activeRows)
      ensures HexCursor.FoldTo(u, key) == HexCursor.FoldTo(t, key)
    {
      FoldOk(t);
      Fold(t);
      u := HexCursor.Fold(t);
      folding := NeedFolding(key, u);
    }

    /** Folds until the current key is the start of the next key. */
    method FoldTo(key: Key, ghost t: Tree)
      requires Shows(t) && TreeOk(t)
      modifies this`root, this`activeRows, this`currentKeyLen, this`rootTouched, this`rootPresent, this`updates, grid
      modifies touchMap, afterMap
      ensures Shows(HexCursor.FoldTo(t, key))
    {
      ghost var u := t;
      var folding := NeedFolding(key, u);
      while folding
        invariant Shows(u) && TreeOk(u) && folding == HexCursor.NeedFolding(u, key)
        invariant HexCursor.FoldTo(u, key) == HexCursor.FoldTo(t, key)
        decreases activeRows
      {
        u, folding := FoldOnce(key, u);
      }
    }

    method UnfoldOnce(key: Key, unfolding: nat, branchFn: Key -> BranchNode, ghost t: Tree)
        returns (ok: bool, ghost u: Tree, more: nat)
      requires Shows(t) && TreeOk(t) && Ahead(t, key) && BranchesOk(branchFn)
      requires unfolding == HexCursor.NeedUnfolding(t, key) > 0
      modifies this`activeRows, this`currentKeyLen, this`rootChecked, grid, currentKey, depths, branchBefore, touchMap
      modifies afterMap
      ensures !ok ==> HexCursor.UnfoldTo(t, key, branchFn).None?
      ensures ok ==> Shows(u) && TreeOk(u) && Ahead(u, key) && more == HexCursor.NeedUnfolding(u, key)
      ensures ok ==> HexCursor.UnfoldTo(u, key, branchFn) == HexCursor.UnfoldTo(t, key, branchFn)
      ensures ok ==> Depth(u) > Depth(t) || (Depth(u) == Depth(t) && u.rootChecked && !t.rootChecked)
    {
      UnfoldingOk(t, key);
      UnfoldOk(t, key, unfolding, branchFn);
      ok := Unfold(key, unfolding, branchFn, t);
      u, more := t, 0;
      if ok {
        u := HexCursor.Unfold(t, key, unfolding, branchFn).value;
        more := NeedUnfolding(key, u);
      }
    }

    /** Unfolds until the cursor has come to the key or to an empty cell. */
    method UnfoldTo(key: Key, branchFn: Key -> BranchNode, ghost t: Tree) returns (ok: bool)
      requires Shows(t) && TreeOk(t) && Ahead(t, key) && BranchesOk(branchFn)
      modifies this`activeRows, this`currentKeyLen, this`rootChecked, grid, currentKey, depths, branchBefore, touchMap
      modifies afterMap
      ensures ok == HexCursor.UnfoldTo(t, key, branchFn).Some?
      ensures ok ==> Shows(HexCursor.UnfoldTo(t, key, branchFn).value)
    {
      ghost var u := t;
      var unfolding := NeedUnfolding(key, u);
      while unfolding > 0
        invariant Shows(u) && TreeOk(u) && Ahead(u, key) && unfolding == HexCursor.NeedUnfolding(u, key)
        invariant HexCursor.UnfoldTo(u, key, branchFn) == HexCursor.UnfoldTo(t, key, branchFn)
        decreases STORAGE_NIBBLES - Depth(u), !u.rootChecked
      {
        PlaceOk(u, key);
        ok, u, unfolding := UnfoldOnce(key, unfolding, branchFn, u);
        if !ok {
          return;
        }
      }
      ok := true;
    }

    /** One key: fold, unfold, and update or delete. */
    method ProcessKey(key: Key, deleted: bool, branchFn: Key -> BranchNode, ghost last: Key, ghost t: Tree)
        returns (ok: bool)
      requires Shows(t) && TreeOk(t) && KeyOk(key) && Between(t, last, key) && BranchesOk(branchFn)
      modifies this, grid, currentKey, depths, branchBefore, touchMap, afterMap
      ensures ok == Arrive(t, last, key, branchFn).Some?
      ensures ok ==> Shows(Change(Arrive(t, last, key, branchFn).value, key, deleted))
    {
      FoldedAhead(t, last, key);
      FoldTo(key, t);
      ghost var u := HexCursor.FoldTo(t, key);
      ok := UnfoldTo(key, branchFn, u);
      if !ok {
        return;
      }
      ghost var a := Arrive(t, last, key, branchFn).value;
      if deleted {
        DeleteCell(key, a);
      } else {
        UpdateCell(key, a);
      }
    }

    method FoldAll(ghost t: Tree)
      requires Shows(t) && TreeOk(t)
      modifies this`root, this`activeRows, this`currentKeyLen, this`rootTouched, this`rootPresent, this`updates, grid
      modifies touchMap, afterMap
      ensures Shows(HexCursor.FoldAll(t))
    {
      ghost var u := t;
      while activeRows > 0
        invariant Shows(u) && TreeOk(u) && HexCursor.FoldAll(u) == HexCursor.FoldAll(t)
        decreases activeRows
      {
        FoldOk(u);
        Fold(u);
        u := HexCursor.Fold(u);
      }
    }

    /**
     * ProcessUpdates: the keys in ascending order, each updated or deleted, then everything is folded into the root.
     * The trace names the tree before every key and the place where the cursor arrives for it.
     */
    method ProcessUpdates(job: Job) returns (ok: bool, ghost tr: Trace)
      requires Ready(job) && Shows(job.start.(updates := updates))
      modifies this, grid, currentKey, depths, branchBefore, touchMap, afterMap
      ensures if ok then Complete(job, tr) && Shows(Result(job, tr)) else Fails(job, tr)
      ensures !ok ==> exists p: Key :: MissingAt(job, |tr.arrivals|, p)
      ensures Rooted(job.branchFn, job.start) ==> (ok <==> NoneMissing(job))
      ensures ok && Begins(job) && AllApart(job) ==> (Owned(job) <==> KeysStand(job, tr))
    {
      updates := map[];
      tr := Trace([job.start], []);
      for i := 0 to |job.keys|
        invariant Through(job, tr) && |tr.arrivals| == i && Shows(tr.trees[i])
      {
        Tracks(job, tr, i);
        ghost var t := tr.trees[i];
        ok := ProcessKey(job.keys[i], job.deleted[i], job.branchFn, Before(job, i), t);
        if !ok {
          EndsEarly(job, tr);
          return;
        }
        tr := Next(job, tr);
      }
      Tracks(job, tr, |job.keys|);
      FoldAll(tr.trees[|job.keys|]);
      ok := true;
      Ends(job, tr);
    }
  }
}
