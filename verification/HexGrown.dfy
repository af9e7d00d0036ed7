/** Unfolding keeps that the rows stand for the keys that the tree holds. */
module HexGrown {
  import opened Options
  import opened ByteKeys
  import opened BranchBytes
  import opened HexCursor
  import opened HexRun
  import opened HexStore
  import opened HexHeld
  import opened HexKept

  // ---- one cell

  /** The cell can be unfolded by m nibbles towards key n. */
  predicate Towards(keys: seq<Key>, n: nat, q: Key, c: Cell, m: nat) {
    && n < |keys| && KeyOk(keys[n]) && q <= keys[n] && 0 < m <= |c.down| && |q| + m <= |keys[n]|
    && q + c.down[..m - 1] <= keys[n] && c.down[m - 1] < 16
    && (|q| < ACCOUNT_NIBBLES ==> |q| + m <= ACCOUNT_NIBBLES)
  }

  /** What a cell steers to is below the nibbles that it is unfolded by. */
  lemma SteersFar(keys: seq<Key>, n: nat, q: Key, c: Cell, m: nat, r: Key)
    requires SteersAt(keys, n, q, c, r) && Towards(keys, n, q, c, m)
    ensures q + c.down[..m] <= r
  {
    assert r == (q + c.down)[..|r|];
  }

  lemma Split(q: Key, s: Key, m: nat)
    requires m <= |s|
    ensures q + s[..m] + s[m..] == q + s
  {
  }

  lemma SteersLower(keys: seq<Key>, n: nat, q: Key, c: Cell, m: nat)
    requires Steers(keys, n, q, c) && Towards(keys, n, q, c, m) && Shape(q, c)
    ensures var w := q + c.down[..m]; var d := Lowered(c, |w|, m); Carries(q, c, w, d) && Steers(keys, n, w, d)
  {
    var w := q + c.down[..m];
    var d := Lowered(c, |w|, m);
    var r := if q + c.down == Tip(q, c) then q + c.down else var r :| SteersAt(keys, n, q, c, r); r;
    Split(q, c.down, m);
    if q + c.down != Tip(q, c) {
      SteersFar(keys, n, q, c, m, r);
    }
    assert w <= r <= Tip(q, c);
    LoweredCarries(q, c, m);
    assert w + d.down == Tip(w, d) || SteersAt(keys, n, w, d, r);
  }

  /** At the end of an account that cell has the account. */
  lemma AccountHere(S: Key -> BranchNode, E: iset<Key>, q: Key, c: Cell)
    requires Kept(S, E, q, c) && Whose(E) && |q| == ACCOUNT_NIBBLES
    ensures q in E && c.account == Some(q)
  {
    KeptOccupied(S, E, q, c);
    AccountAt(E, q);
  }

  lemma LoweredOver(job: Job, n: nat, E: iset<Key>, S: Key -> BranchNode, q: Key, c: Cell, m: nat)
    requires Off(job, n, E, S, q, c) && Towards(job.keys, n, q, c, m) && Whose(E)
    ensures var w := q + c.down[..m]; Off(job, n, E, S, w, Lowered(c, |w|, m)) && Over(E, q, c, q + c.down[..m - 1])
    ensures forall k: Key {:trigger k in E} :: k in E && q <= k && k != q ==> q + c.down[..m] <= k
    ensures |q| == ACCOUNT_NIBBLES ==> HasItem(E, q)
    ensures |q| < |q + c.down[..m]| == ACCOUNT_NIBBLES ==> c.account == Some(q + c.down[..m])
  {
    var w, P := q + c.down[..m], q + c.down[..m - 1];
    var d := Lowered(c, |w|, m);
    SteersLower(job.keys, n, q, c, m);
    KeptBelow(S, E, q, c, w, d);
    assert P <= w;
    if |q| == ACCOUNT_NIBBLES {
      AccountHere(S, E, q, c);
      KeptOccupied(S, E, w, d);
    }
    if |q| < |w| == ACCOUNT_NIBBLES {
      AccountHere(S, E, w, d);
    }
  }

  lemma KeptLives(job: Job, n: nat, E: iset<Key>, S: Key -> BranchNode, q: Key, c: Cell, P: Key)
    requires Kept(S, E, q, c) && |q| <= STORAGE_NIBBLES && DeadFree(job, n, E) && P <= q
    ensures !Dead(job, n, P)
  {
    KeptOccupied(S, E, q, c);
    if Dead(job, n, P) {
      DeadBelow(job, n, P, q);
    }
  }

  lemma Stepped(q: Key, s: Key, m: nat)
    requires 0 < m <= |s|
    ensures q + s[..m - 1] + [s[m - 1]] == q + s[..m]
  {
  }

  /** The children of a row with one cell. */
  lemma OneChild(job: Job, n: nat, E: iset<Key>, S: Key -> BranchNode, q: Key, row: Row, x: nat, y: nat)
    requires x < 16 && y < 16 && |row.cells| == 16 && q <= row.path && Off(job, n, E, S, row.path + [x], row.cells[x])
    requires row.after[x] && (y != x ==> row.cells[y] == EMPTY && !row.after[y])
    requires forall k: Key {:trigger k in E} :: k in E && q <= k && k != q ==> row.path + [x] <= k
    ensures ChildOk(job, n, E, S, row, y, row.path)
  {
    if y != x {
      Aside2(E, q, row.path, x, y);
    }
  }

  /** The row of a cell that moves down. */
  lemma LoweredRow(job: Job, n: nat, E: iset<Key>, S: Key -> BranchNode, q: Key, c: Cell, m: nat, touched: bool)
    requires Off(job, n, E, S, q, c) && Towards(job.keys, n, q, c, m) && Whose(E) && DeadFree(job, n, E)
    ensures var row := CellRow(q, c, m, touched, true);
      Over(E, q, c, row.path) && c != EMPTY && RowHeld(job, n, E, S, row, row.path)
  {
    var row := CellRow(q, c, m, touched, true);
    LoweredOver(job, n, E, S, q, c, m);
    Stepped(q, c.down, m);
    var w := row.path + [c.down[m - 1]];
    KeptLives(job, n, E, S, w, Lowered(c, |w|, m), row.path);
    forall x: nat | x < 16 ensures ChildOk(job, n, E, S, row, x, row.path) {
      OneChild(job, n, E, S, q, row, c.down[m - 1], x);
    }
  }

  lemma Aside2(E: iset<Key>, q: Key, P: Key, x: nat, y: nat)
    requires q <= P && x != y
    requires forall k: Key {:trigger k in E} :: k in E && q <= k && k != q ==> P + [x] <= k
    ensures !Occupied(E, P + [y])
  {
    assert (P + [x])[|P|] == x && (P + [y])[|P|] == y;
  }

  lemma {:induction false} OnesOf(x: nat, n: nat)
    requires x < 16 && n <= 16
    ensures Ones16(Only(x), n) == if x < n then 1 else 0
  {
    if n > 0 {
      OnesOf(x, n - 1);
    }
  }

  lemma CutOff(q: Key, s: Key, t: Key, x: nat)
    requires q + (t + [x]) <= q + s
    ensures |t| < |s| && t + [x] + s[|t| + 1..] == s
  {
    forall i | 0 <= i < |t| + 1 ensures (t + [x])[i] == s[i] {
      assert (q + (t + [x]))[|q| + i] == (q + s)[|q| + i];
    }
  }

  /** What is carried down and up again is as it was. */
  lemma LiftedLowered(q: Key, c: Cell, m: nat)
    requires 0 < m <= |c.down| && (|q| < ACCOUNT_NIBBLES ==> |q| + m <= ACCOUNT_NIBBLES)
    requires Carries(q, c, q + c.down[..m], Lowered(c, |q| + m, m))
    ensures Lifted(c, Lowered(c, |q| + m, m), |q| + m, c.down[..m - 1], c.down[m - 1]) == c
  {
    var w, d := q + c.down[..m], Lowered(c, |q| + m, m);
    assert c.down[..m] == c.down[..m - 1] + [c.down[m - 1]];
    DerivedTip(w, d);
    if c.hashed && d.account.None? {
      assert |w| != ACCOUNT_NIBBLES;
      CutOff(q, c.ext, c.down[..m - 1], c.down[m - 1]);
    }
  }

  /** Folded at once it gives the cell again. */
  lemma LoweredBack(keys: seq<Key>, n: nat, q: Key, c: Cell, m: nat, touched: bool)
    requires Steers(keys, n, q, c) && Towards(keys, n, q, c, m) && Shape(q, c)
    ensures var row := CellRow(q, c, m, touched, true);
      FoldedInto(c, |q|, row) == c && (row.touch == Nothing() ==> !touched)
  {
    var x, row := c.down[m - 1], CellRow(q, c, m, touched, true);
    assert touched ==> row.touch[x];
    OnesOf(x, 16);
    SomeOne(row.after, 16);
    SteersLower(keys, n, q, c, m);
    LiftedLowered(q, c, m);
    assert row.path[|q|..] == c.down[..m - 1];
  }

  // ---- a branch node

  /** A cell above the branch node at its own place. */
  predicate AtNode(q: Key, c: Cell) { c.down == [] && c.hashed && NodeOf(q, c) == q && Shape(q, c) }

  lemma SteersHere(keys: seq<Key>, n: nat, q: Key, c: Cell)
    requires Steers(keys, n, q, c) && c.down == [] && c.hashed && Shape(q, c) && n < |keys| && q <= keys[n]
    ensures AtNode(q, c)
  {
    assert q + c.down == q;
  }

  /** The children of a branch node stand for what is below it. */
  lemma NodeChild(S: Key -> BranchNode, E: iset<Key>, q: Key, c: Cell, x: nat)
    requires Kept(S, E, q, c) && AtNode(q, c) && x < 16
    ensures S(q).BranchNode? && |S(q).cells| == 16
    ensures if S(q).bitmap[x] then Kept(S, E, q + [x], S(q).cells[x]) else !Occupied(E, q + [x])
    ensures S(q).bitmap[x] ==> AsRead(q + [x], S(q).cells[x], S(q).cells[x])
  {
    assert LeadsTo(S, q, c, q) && NodeOk(S, q);
    if S(q).bitmap[x] {
      ChildSound(S, q, c, q, x);
    }
    forall k: Key | q + [x] <= k
      ensures k in E <==> S(q).bitmap[x] && Holds(S, q + [x], S(q).cells[x], k)
    {
      assert k[|q|] == (q + [x])[|q|] == x;
      assert Holds(S, q, c, k) <==> NodeHolds(S, q, k);
    }
  }

  lemma NodeOver(S: Key -> BranchNode, E: iset<Key>, q: Key, c: Cell)
    requires Kept(S, E, q, c) && AtNode(q, c) && Whose(E) && Nibbles(q)
    ensures S(q).BranchNode? && |S(q).cells| == 16
    ensures Over(E, q, c, q) && c != EMPTY && FoldedInto(c, |q|, BranchRow(q, S(q), false)) == c
    ensures |q| == ACCOUNT_NIBBLES ==> HasItem(E, q)
  {
    assert LeadsTo(S, q, c, q) && NodeOk(S, q);
    if |q| == ACCOUNT_NIBBLES {
      AccountHere(S, E, q, c);
      var k := Inhabited(S, q, c);
      assert HasItem(E, q);
    }
  }

  lemma NodeRow(job: Job, n: nat, E: iset<Key>, S: Key -> BranchNode, q: Key, c: Cell)
    requires Kept(S, E, q, c) && AtNode(q, c) && S(q) == job.branchFn(q) && DeadFree(job, n, E) && Whose(E) && Apart(E)
    ensures S(q).BranchNode? && |S(q).cells| == 16 && RowHeld(job, n, E, S, BranchRow(q, S(q), false), q)
    ensures !EndsAccounts(BranchRow(q, S(q), false))
  {
    assert LeadsTo(S, q, c, q) && NodeOk(S, q);
    var row := BranchRow(q, S(q), false);
    KeptLives(job, n, E, S, q, c, q);
    forall x: nat | x < 16 ensures ChildOk(job, n, E, S, row, x, q) && LoadedAt(S(q), row, x) {
      NodeChild(S, E, q, c, x);
    }
    LastStands(job, n, E, S, row);
    FewAccounts(E, S, row);
  }

  // ---- a row more

  /** The account above a row that is pushed. */
  function PushedUnder(t: Tree, row: Row): Option<Key> { UpAccount(Pushed(t, row), |t.rows|) }

  /** A row that can be pushed. */
  ghost predicate Fitting(job: Job, n: nat, E: iset<Key>, t: Tree, row: Row) {
    && RowHeld(job, n, E, Nodes(job, t), row, row.path) && Restored(row, PushedUnder(t, row)) == row
    && SureRow(job, n, E, row, row.path, PushedUnder(t, row))
  }

  /** It goes below the last row. */
  ghost predicate FitsBelow(job: Job, n: nat, E: iset<Key>, t: Tree, row: Row)
    requires t.rows != []
  {
    var k := |t.rows| - 1;
    && |t.rows[k].cells| == 16 == |row.cells| && RowHeld(job, n, E, Nodes(job, t), WholeRow(t, k), row.path)
    && SureRow(job, n, E, t.rows[k], row.path, UpAccount(t, k))
    && (Dead(job, n, row.path) || Pristine(WholeRow(t, k), row))
  }

  lemma PushedRow(job: Job, n: nat, E: iset<Key>, t: Tree, row: Row, r: nat)
    requires RowsHeld(job, n, E, t) && r < |t.rows| && FitsBelow(job, n, E, t, row)
    ensures RowAt(job, n, E, Pushed(t, row), r)
  {
    var u := Pushed(t, row);
    assert RowAt(job, n, E, t, r) && Nodes(job, u) == Nodes(job, t);
    assert t.rows[..r + 1] == u.rows[..r + 1];
    SameWhole(t, u, r, r);
    SamePristine(job, n, t, u, r);
  }

  lemma PushedLast(job: Job, n: nat, E: iset<Key>, t: Tree, row: Row)
    requires RowsHeld(job, n, E, t) && Fitting(job, n, E, t, row) && (t.rows != [] ==> FitsBelow(job, n, E, t, row))
    ensures RowAt(job, n, E, Pushed(t, row), |t.rows|)
  {
    var u, k := Pushed(t, row), |t.rows| - 1;
    assert Nodes(job, u) == Nodes(job, t);
    if k >= 0 {
      assert t.rows[..k + 1] == u.rows[..k + 1];
      SameWhole(t, u, k, k);
    }
  }

  lemma PushRows(job: Job, n: nat, E: iset<Key>, t: Tree, row: Row)
    requires RowsHeld(job, n, E, t) && Fitting(job, n, E, t, row) && (t.rows != [] ==> FitsBelow(job, n, E, t, row))
    ensures RowsHeld(job, n, E, Pushed(t, row))
  {
    var u := Pushed(t, row);
    forall r: nat | r < |u.rows| ensures RowAt(job, n, E, u, r) {
      if r < |t.rows| {
        PushedRow(job, n, E, t, row, r);
      } else {
        PushedLast(job, n, E, t, row);
      }
    }
  }

  /** The row above has a row below it now. */
  lemma NowAbove(job: Job, n: nat, E: iset<Key>, S: Key -> BranchNode, up: Row, x: nat, below: Key)
    requires RowHeld(job, n, E, S, up, up.path) && |up.path| < |below| && below[|up.path|] == x < 16
    requires !Dead(job, n, up.path) ==> ChildOk(job, n, E, S, up, x, below)
    ensures RowHeld(job, n, E, S, up, below)
  {
    if !Dead(job, n, up.path) {
      forall y: nat | y < 16 ensures ChildOk(job, n, E, S, up, y, below) {
        assert ChildOk(job, n, E, S, up, y, up.path);
      }
    }
  }

  lemma NowSure(job: Job, n: nat, E: iset<Key>, up: Row, x: nat, below: Key, kept: Option<Key>)
    requires SureRow(job, n, E, up, up.path, kept) && |up.path| < |below| && below[|up.path|] == x < 16
    requires EndsAccounts(up) && up.after[x] ==> HasItem(E, up.path + [x])
    ensures SureRow(job, n, E, up, below, kept)
  {
    if EndsAccounts(up) {
      forall y: nat | y < 16 && up.after[y] ensures Sure(job, n, E, up.path + [y], Goes(up, below, y), kept) {
        assert Sure(job, n, E, up.path + [y], Goes(up, up.path, y), kept);
      }
    }
  }

  lemma TowardsKey(job: Job, n: nat, t: Tree, m: nat)
    requires TreeOk(t) && n < |job.keys| && Ahead(t, job.keys[n]) && m == NeedUnfolding(t, job.keys[n]) > 0
    requires Target(t, job.keys[n]).down != []
    ensures Unfolds(t, job.keys[n], m)
    ensures Towards(job.keys, n, Place(t, job.keys[n]), Target(t, job.keys[n]), m)
  {
    var key := job.keys[n];
    UnfoldingOk(t, key);
    PlaceOk(t, key);
    var q, c := Place(t, key), Target(t, key);
    assert key == q + key[|q|..];
  }

  /** The new row is the one that was unfolded from the cell at the cursor. */
  ghost predicate Grows(job: Job, n: nat, t: Tree, row: Row) {
    && n < |job.keys| && TreeOk(t) && Ahead(t, job.keys[n]) && t.rows != [] && |row.cells| == 16 == |Last(t).cells|
    && Place(t, job.keys[n]) <= row.path && Last(t).path + [job.keys[n][|Current(t)|]] == Place(t, job.keys[n])
  }

  lemma GrowsAt(job: Job, n: nat, t: Tree, row: Row)
    requires Grows(job, n, t, row)
    ensures var x := job.keys[n][|Current(t)|];
      x < 16 && |Current(t)| < |row.path| && row.path[|Current(t)|] == x &&
      PushedUnder(t, row) == Target(t, job.keys[n]).account && Longer(Current(t), row.path)
  {
    var x := job.keys[n][|Current(t)|];
    assert row.path[|Current(t)|] == Place(t, job.keys[n])[|Current(t)|] == x;
    assert Current(t) <= Place(t, job.keys[n]);
  }

  /** Below a deleted key the children come as deleted. */
  lemma UnfoldNone(t: Tree, key: Key, m: nat, branchFn: Key -> BranchNode)
    requires TreeOk(t) && Ahead(t, key) && Unfolds(t, key, m) && BranchesOk(branchFn) && t.rows != []
    requires Touched(t, key) && !Present(t, key)
    ensures var u := Unfold(t, key, m, branchFn); u.Some? ==> NoneLeft(Last(u.value))
  {
    PlaceOk(t, key);
  }

  lemma NoneRestored(row: Row, kept: Option<Key>)
    requires NoneLeft(row)
    ensures Restored(row, kept) == row
  {
    assert Restored(row, kept).cells == row.cells;
  }

  lemma PushDead(job: Job, n: nat, E: iset<Key>, t: Tree, row: Row)
    requires RowsHeld(job, n, E, t) && Grows(job, n, t, row) && Dead(job, n, Place(t, job.keys[n])) && NoneLeft(row)
    requires var x := job.keys[n][|Current(t)|]; Dead(job, n, Current(t)) || !Last(t).after[x]
    ensures RowsHeld(job, n, E, Pushed(t, row))
  {
    var x, k := job.keys[n][|Current(t)|], |t.rows| - 1;
    DeadBelow(job, n, Place(t, job.keys[n]), row.path);
    GrowsAt(job, n, t, row);
    assert RowAt(job, n, E, t, k);
    var up := WholeRow(t, k);
    if !Dead(job, n, Current(t)) {
      assert ChildOk(job, n, E, Nodes(job, t), up, x, Current(t));
    }
    NowAbove(job, n, E, Nodes(job, t), up, x, row.path);
    NowSure(job, n, E, t.rows[k], x, row.path, UpAccount(t, k));
    NoneRestored(row, PushedUnder(t, row));
    PushRows(job, n, E, t, row);
  }

  /** The cell at the cursor, with the account that is kept above its row. */
  function WholeTarget(t: Tree, key: Key): Cell
    requires TreeOk(t) && Ahead(t, key)
  {
    if t.rows == [] then t.root else (PlaceOk(t, key); WholeRow(t, |t.rows| - 1).cells[key[|Current(t)|]])
  }

  lemma WholeSteers(t: Tree, key: Key)
    requires TreeOk(t) && Ahead(t, key)
    ensures var c, d := Target(t, key), WholeTarget(t, key);
      d == c.(account := d.account) && (d != c ==> Depth(t) == ACCOUNT_NIBBLES)
  {
    PlaceOk(t, key);
  }

  lemma PushLive(job: Job, n: nat, E: iset<Key>, t: Tree, row: Row)
    requires RowsHeld(job, n, E, t) && Grows(job, n, t, row) && Fitting(job, n, E, t, row)
    requires var q, c := Place(t, job.keys[n]), WholeTarget(t, job.keys[n]);
      Over(E, q, c, row.path) && c != EMPTY && (row.touch == Nothing() ==> FoldedInto(c, |q|, row) == c) &&
      (|q| == ACCOUNT_NIBBLES ==> HasItem(E, q))
    requires Last(t).after[job.keys[n][|Current(t)|]]
    ensures RowsHeld(job, n, E, Pushed(t, row))
  {
    var x, k := job.keys[n][|Current(t)|], |t.rows| - 1;
    assert RowAt(job, n, E, t, k);
    GrowsAt(job, n, t, row);
    NowAbove(job, n, E, Nodes(job, t), WholeRow(t, k), x, row.path);
    NowSure(job, n, E, t.rows[k], x, row.path, UpAccount(t, k));
    PushRows(job, n, E, t, row);
  }

  /** What the cursor is at before it is unfolded further. */
  ghost predicate Unfolding(job: Job, n: nat, E: iset<Key>, t: Tree, m: nat) {
    && Good(job, n, E, t) && BranchesOk(job.branchFn) && n < |job.keys| && Ahead(t, job.keys[n])
    && m == NeedUnfolding(t, job.keys[n]) > 0 && Unfolds(t, job.keys[n], m)
  }

  lemma UnfoldsBelow(job: Job, n: nat, E: iset<Key>, t: Tree, m: nat)
    requires Unfolding(job, n, E, t, m) && t.rows != []
    ensures var u := Unfold(t, job.keys[n], m, job.branchFn);
      u.Some? ==> u.value == Pushed(t, Last(u.value)) && Grows(job, n, t, Last(u.value))
  {
    var key := job.keys[n];
    PlaceOk(t, key);
    UnfoldOk(t, key, m, job.branchFn);
    assert Place(t, key) == Current(t) + [key[|Current(t)|]];
  }

  /** A cell that moves down to the end of its account has the account. */
  lemma CellRestored(q: Key, c: Cell, m: nat, touched: bool)
    requires 0 < m <= |c.down| && c.down[m - 1] < 16 && |q| + m <= ACCOUNT_NIBBLES
    ensures Restored(CellRow(q, c, m, touched, true), c.account) == CellRow(q, c, m, touched, true)
  {
    var row := CellRow(q, c, m, touched, true);
    var r := Restored(row, c.account);
    forall x: nat | x < 16 ensures r.cells[x] == row.cells[x] {
      assert row.after[x] ==> row.cells[x].account == c.account;
    }
    assert r.cells == row.cells;
  }

  lemma CellSure(job: Job, n: nat, E: iset<Key>, S: Key -> BranchNode, q: Key, c: Cell, m: nat, touched: bool)
    requires Off(job, n, E, S, q, c) && Towards(job.keys, n, q, c, m) && Whose(E) && |q| + m <= ACCOUNT_NIBBLES
    ensures var row := CellRow(q, c, m, touched, true); SureRow(job, n, E, row, row.path, c.account)
  {
    var row := CellRow(q, c, m, touched, true);
    LoweredOver(job, n, E, S, q, c, m);
    Stepped(q, c.down, m);
    if EndsAccounts(row) {
      forall x: nat | x < 16 && row.after[x] ensures Sure(job, n, E, row.path + [x], false, c.account) {
        assert x == c.down[m - 1];
      }
    }
  }

  /** The row of a cell that moves down can be pushed. */
  lemma CellFitting(job: Job, n: nat, E: iset<Key>, S: Key -> BranchNode, q: Key, c: Cell, m: nat, touched: bool)
    requires Off(job, n, E, S, q, c) && Towards(job.keys, n, q, c, m) && Whose(E)
    ensures var row := CellRow(q, c, m, touched, true);
      if |q| < ACCOUNT_NIBBLES then Restored(row, c.account) == row && SureRow(job, n, E, row, row.path, c.account)
      else !EndsAccounts(row)
  {
    if |q| < ACCOUNT_NIBBLES {
      CellRestored(q, c, m, touched);
      CellSure(job, n, E, S, q, c, m, touched);
    }
  }

  /** The account does not go below its end. */
  lemma SameCellRow(q: Key, c: Cell, d: Cell, m: nat, touched: bool, present: bool)
    requires 0 < m <= |c.down| && c.down[m - 1] < 16 && d == c.(account := d.account) && (d != c ==>
        |q| == ACCOUNT_NIBBLES)
    ensures CellRow(q, d, m, touched, present) == CellRow(q, c, m, touched, present)
  {
  }

  /** Below a cell that is there. */
  ghost predicate UnfoldsPresent(job: Job, n: nat, E: iset<Key>, t: Tree, m: nat) {
    && Unfolding(job, n, E, t, m) && t.rows != [] && Last(t).after[job.keys[n][|Current(t)|]]
    && Off(job, n, E, Nodes(job, t), Place(t, job.keys[n]), WholeTarget(t, job.keys[n]))
  }

  lemma UnfoldCell(job: Job, n: nat, E: iset<Key>, t: Tree, m: nat)
    requires UnfoldsPresent(job, n, E, t, m) && Target(t, job.keys[n]).down != []
    ensures var u := Unfold(t, job.keys[n], m, job.branchFn); u.Some? && RowsHeld(job, n, E, u.value)
  {
    var key, touched := job.keys[n], Touched(t, job.keys[n]);
    var q, c, d := Place(t, key), Target(t, key), WholeTarget(t, key);
    UnfoldsBelow(job, n, E, t, m);
    TowardsKey(job, n, t, m);
    WholeSteers(t, key);
    PlaceOk(t, key);
    var row := CellRow(q, d, m, touched, true);
    SameCellRow(q, c, d, m, touched, true);
    GrowsAt(job, n, t, row);
    LoweredRow(job, n, E, Nodes(job, t), q, d, m, touched);
    LoweredOver(job, n, E, Nodes(job, t), q, d, m);
    LoweredBack(job.keys, n, q, d, m, touched);
    CellFitting(job, n, E, Nodes(job, t), q, d, m, touched);
    PushLive(job, n, E, t, row);
  }

  lemma UnfoldNode(job: Job, n: nat, E: iset<Key>, t: Tree, m: nat)
    requires UnfoldsPresent(job, n, E, t, m) && Target(t, job.keys[n]).down == []
    ensures var u := Unfold(t, job.keys[n], m, job.branchFn); u.Some? ==> RowsHeld(job, n, E, u.value)
  {
    var key, S := job.keys[n], Nodes(job, t);
    var q, d := Place(t, key), WholeTarget(t, key);
    PlaceOk(t, key);
    WholeSteers(t, key);
    UnfoldsBelow(job, n, E, t, m);
    if job.branchFn(q).BranchNode? {
      assert q !in t.updates;
      SteersHere(job.keys, n, q, d);
      NodeOver(S, E, q, d);
      NodeRow(job, n, E, S, q, d);
      PushLive(job, n, E, t, BranchRow(q, S(q), false));
    }
  }

  lemma UnfoldAbsent(job: Job, n: nat, E: iset<Key>, t: Tree, m: nat)
    requires Unfolding(job, n, E, t, m) && t.rows != []
    requires Dead(job, n, Current(t)) || !Last(t).after[job.keys[n][|Current(t)|]]
    ensures var u := Unfold(t, job.keys[n], m, job.branchFn); u.Some? ==> RowsHeld(job, n, E, u.value)
  {
    var key, k := job.keys[n], |t.rows| - 1;
    var x, q := key[|Current(t)|], Place(t, key);
    UnfoldsBelow(job, n, E, t, m);
    WholeSteers(t, key);
    var u := Unfold(t, key, m, job.branchFn);
    if u.Some? {
      GrowsAt(job, n, t, Last(u.value));
      assert RowAt(job, n, E, t, k);
      assert WholeRow(t, k).cells[x] == WholeTarget(t, key);
      if Dead(job, n, Current(t)) {
        DeadBelow(job, n, Current(t), q);
      } else {
        assert ChildOk(job, n, E, Nodes(job, t), WholeRow(t, k), x, Current(t));
      }
      UnfoldNone(t, key, m, job.branchFn);
      PushDead(job, n, E, t, Last(u.value));
    }
  }

  lemma UnfoldRows(job: Job, n: nat, E: iset<Key>, t: Tree, m: nat)
    requires Unfolding(job, n, E, t, m) && t.rows != []
    ensures var u := Unfold(t, job.keys[n], m, job.branchFn); u.Some? ==> RowsHeld(job, n, E, u.value)
  {
    var key, k := job.keys[n], |t.rows| - 1;
    var x, q := key[|Current(t)|], Place(t, key);
    PlaceOk(t, key);
    if Dead(job, n, Current(t)) || !Last(t).after[x] {
      UnfoldAbsent(job, n, E, t, m);
    } else {
      assert RowAt(job, n, E, t, k);
      assert ChildOk(job, n, E, Nodes(job, t), WholeRow(t, k), x, Current(t));
      assert Place(t, key) == Current(t) + [x];
      if Target(t, key).down == [] {
        UnfoldNode(job, n, E, t, m);
      } else {
        UnfoldCell(job, n, E, t, m);
      }
    }
  }

  // ---- the root

  lemma UnfoldRootCell(job: Job, n: nat, E: iset<Key>, t: Tree, m: nat)
    requires Unfolding(job, n, E, t, m) && t.rows == [] && t.root.down != []
    ensures var u := Unfold(t, job.keys[n], m, job.branchFn);
      u.Some? && RowsHeld(job, n, E, u.value) && RootHeld(job, n, E, u.value)
  {
    TowardsKey(job, n, t, m);
    LoweredRow(job, n, E, Nodes(job, t), [], t.root, m, t.rootTouched);
    CellFitting(job, n, E, Nodes(job, t), [], t.root, m, t.rootTouched);
    PushRows(job, n, E, t, CellRow([], t.root, m, t.rootTouched, true));
  }

  lemma UnfoldRootNode(job: Job, n: nat, E: iset<Key>, t: Tree, m: nat)
    requires Unfolding(job, n, E, t, m) && t.rows == [] && t.root.down == [] && job.branchFn([]).BranchNode?
    ensures var u := Unfold(t, job.keys[n], m, job.branchFn);
      u.Some? && RowsHeld(job, n, E, u.value) && RootHeld(job, n, E, u.value)
  {
    var S, c := Nodes(job, t), RootOf(job.branchFn, t);
    assert c == BRANCH || c == t.root;
    assert [] !in t.updates;
    SteersHere(job.keys, n, [], c);
    NodeOver(S, E, [], c);
    NodeRow(job, n, E, S, [], c);
    PushRows(job, n, E, t, BranchRow([], S([]), false));
  }

  lemma UnfoldRoot(job: Job, n: nat, E: iset<Key>, t: Tree, m: nat)
    requires Unfolding(job, n, E, t, m) && t.rows == []
    ensures var u := Unfold(t, job.keys[n], m, job.branchFn);
      u.Some? ==> RowsHeld(job, n, E, u.value) && RootHeld(job, n, E, u.value)
  {
    if t.root.down != [] {
      UnfoldRootCell(job, n, E, t, m);
    } else if job.branchFn([]).BranchNode? {
      UnfoldRootNode(job, n, E, t, m);
    }
  }

  lemma UnfoldGood(job: Job, n: nat, E: iset<Key>, t: Tree, m: nat)
    requires Unfolding(job, n, E, t, m)
    ensures var u := Unfold(t, job.keys[n], m, job.branchFn); u.Some? ==> Good(job, n, E, u.value)
  {
    UnfoldKeeps(job, n, t, m);
    if t.rows == [] {
      UnfoldRoot(job, n, E, t, m);
    } else {
      UnfoldRows(job, n, E, t, m);
      UnfoldsBelow(job, n, E, t, m);
    }
  }
}
