/**
 * ProcessUpdates as a whole: over every ascending list of keys the cursor asks only for branch nodes that are there,
 * writes every update once, and touches every branch node on the way to a key that changes.
 */
module HexRun {
  import opened Options
  import opened ByteKeys
  import opened BranchBytes
  import opened HexCursor

  predicate Ascending(keys: seq<Key>) {
    && (forall i {:trigger keys[i]} :: 0 <= i < |keys| ==> KeyOk(keys[i]))
    && forall i, j {:trigger Less(keys[i], keys[j])} :: 0 <= i < j < |keys| ==> Less(keys[i], keys[j])
  }

  /** The start of the last key that is also the start of a later key does not end it. */
  lemma Within(start: Key, last: Key, key: Key)
    requires Less(last, key) && start <= last && start <= key
    ensures |start| < |key|
  {
    if |start| == |key| {
      assert key == start;
      if key == last {
        LessIrreflexive(key);
      } else {
        PrefixLess(key, last);
        LessAsymmetric(last, key);
      }
      assert false;
    }
  }

  lemma FoldCurrent(t: Tree)
    requires TreeOk(t) && t.rows != []
    ensures Current(Fold(t)) <= Current(t)
  {
    FoldOk(t);
    if |t.rows| > 1 {
      assert Longer(t.rows[|t.rows| - 2].path, t.rows[|t.rows| - 1].path);
    }
  }

  lemma {:induction false} FoldToCurrent(t: Tree, key: Key)
    requires TreeOk(t)
    ensures Current(FoldTo(t, key)) <= Current(t) && |FoldTo(t, key).rows| <= |t.rows|
    decreases |t.rows|
  {
    if NeedFolding(t, key) {
      FoldOk(t);
      FoldCurrent(t);
      FoldToCurrent(Fold(t), key);
    }
  }

  /** The cursor stands on the way to the last key, and the next key comes after it. */
  predicate Between(t: Tree, last: Key, key: Key) { t.rows == [] || (Current(t) <= last && Less(last, key)) }

  lemma FoldedAhead(t: Tree, last: Key, key: Key)
    requires TreeOk(t) && KeyOk(key) && Between(t, last, key)
    ensures TreeOk(FoldTo(t, key)) && Ahead(FoldTo(t, key), key)
  {
    FoldToCurrent(t, key);
    var u := FoldTo(t, key);
    if u.rows != [] {
      Within(Current(u), last, key);
    }
  }

  lemma {:induction false} UnfoldedOk(t: Tree, key: Key, branchFn: Key -> BranchNode)
    requires TreeOk(t) && Ahead(t, key) && BranchesOk(branchFn)
    ensures UnfoldTo(t, key, branchFn).Some? ==> Arrived(UnfoldTo(t, key, branchFn).value, key)
    decreases STORAGE_NIBBLES - Depth(t), !t.rootChecked
  {
    var n := NeedUnfolding(t, key);
    UnfoldingOk(t, key);
    if n > 0 {
      UnfoldOk(t, key, n, branchFn);
      var u := Unfold(t, key, n, branchFn);
      if u.Some? {
        UnfoldedOk(u.value, key, branchFn);
      }
    }
  }

  /** One key: where the cursor arrives, and what is left of the change. */
  function Arrive(t: Tree, last: Key, key: Key, branchFn: Key -> BranchNode): (r: Option<Tree>)
    requires TreeOk(t) && KeyOk(key) && Between(t, last, key) && BranchesOk(branchFn)
    ensures r.Some? ==> Arrived(r.value, key)
  {
    FoldedAhead(t, last, key);
    UnfoldedOk(FoldTo(t, key), key, branchFn);
    UnfoldTo(FoldTo(t, key), key, branchFn)
  }

  predicate Changes(t: Tree, key: Key, deleted: bool)
    requires Arrived(t, key)
  {
    !deleted || Deletes(t, key)
  }

  function Change(t: Tree, key: Key, deleted: bool): (u: Tree)
    requires Arrived(t, key)
    ensures TreeOk(u) && Current(u) == Current(t) && Ahead(u, key) && |u.rows| == |t.rows|
  {
    ChangeOk(t, key, deleted);
    if deleted then DeleteCell(t, key) else UpdateCell(t, key)
  }

  lemma ChangeOk(t: Tree, key: Key, deleted: bool)
    requires Arrived(t, key)
    ensures var u := if deleted then DeleteCell(t, key) else UpdateCell(t, key);
      TreeOk(u) && Current(u) == Current(t) && Ahead(u, key) && |u.rows| == |t.rows|
  {
    PlaceOk(t, key);
    var cell := Target(t, key);
    PutOk(t, key, cell.(ext := []), false);
    if t.rows != [] {
      SetCellOk(t, key, cell.(ext := []));
    }
    PutOk(t, key, Keyed(cell, Depth(t), key), true);
  }

  /** The branch nodes, the tree before, the keys, and which of them are deleted. */
  datatype Job = Job(branchFn: Key -> BranchNode, start: Tree, keys: seq<Key>, deleted: seq<bool>)

  /** Between two calls the cursor has no rows. */
  ghost predicate Ready(job: Job) {
    && TreeOk(job.start) && job.start.rows == [] && job.start.updates == map[]
    && Ascending(job.keys) && |job.deleted| == |job.keys| && BranchesOk(job.branchFn)
  }

  /** The key before key n. */
  function Before(job: Job, n: nat): Key
    requires n <= |job.keys|
  {
    if n == 0 then [] else job.keys[n - 1]
  }

  /** The trees before every key, and where the cursor arrives for it. */
  datatype Trace = Trace(trees: seq<Tree>, arrivals: seq<Tree>)

  ghost predicate StepAt(job: Job, tr: Trace, n: nat) {
    && n < |tr.arrivals| <= |job.keys| && |job.deleted| == |job.keys| && n + 1 < |tr.trees| && BranchesOk(job.branchFn)
    && KeyOk(job.keys[n]) && TreeOk(tr.trees[n]) && Between(tr.trees[n], Before(job, n), job.keys[n])
    && Arrive(tr.trees[n], Before(job, n), job.keys[n], job.branchFn) == Some(tr.arrivals[n])
    && tr.trees[n + 1] == Change(tr.arrivals[n], job.keys[n], job.deleted[n])
  }

  /** The run has come through the first keys. */
  ghost predicate Through(job: Job, tr: Trace) {
    && Ready(job) && |tr.arrivals| <= |job.keys| && |tr.trees| == |tr.arrivals| + 1 && tr.trees[0] == job.start
    && forall n: nat {:trigger StepAt(job, tr, n)} :: n < |tr.arrivals| ==> StepAt(job, tr, n)
  }

  /** The cursor is on the way to the key before. */
  predicate OnTrack(job: Job, n: nat, t: Tree)
    requires n <= |job.keys|
  {
    TreeOk(t) && (t.rows != [] ==> n > 0 && Current(t) <= job.keys[n - 1])
  }

  lemma Tracks(job: Job, tr: Trace, n: nat)
    requires Through(job, tr) && n <= |tr.arrivals|
    ensures OnTrack(job, n, tr.trees[n])
    ensures n < |job.keys| ==> Between(tr.trees[n], Before(job, n), job.keys[n])
  {
    assert n > 0 ==> StepAt(job, tr, n - 1);
    assert 0 < n < |job.keys| ==> Less(job.keys[n - 1], job.keys[n]);
  }

  /** The branch node that the next key needs is missing. */
  ghost predicate Fails(job: Job, tr: Trace) {
    && Through(job, tr) && |tr.arrivals| < |job.keys|
    && var n := |tr.arrivals|;
       TreeOk(tr.trees[n]) && Between(tr.trees[n], Before(job, n), job.keys[n])
       && Arrive(tr.trees[n], Before(job, n), job.keys[n], job.branchFn) == None
  }

  /** One key further. */
  ghost function Next(job: Job, tr: Trace): (next: Trace)
    requires Through(job, tr) && |tr.arrivals| < |job.keys| && !Fails(job, tr)
    ensures Through(job, next) && |next.arrivals| == |tr.arrivals| + 1
  {
    var n := |tr.arrivals|;
    Tracks(job, tr, n);
    var a := Arrive(tr.trees[n], Before(job, n), job.keys[n], job.branchFn).value;
    var next := Trace(tr.trees + [Change(a, job.keys[n], job.deleted[n])], tr.arrivals + [a]);
    NextThrough(job, tr, next);
    next
  }

  lemma NextThrough(job: Job, tr: Trace, next: Trace)
    requires Through(job, tr) && |next.arrivals| == |tr.arrivals| + 1 == |next.trees| - 1
    requires |next.arrivals| <= |job.keys|
    requires tr.trees <= next.trees && tr.arrivals <= next.arrivals && StepAt(job, next, |tr.arrivals|)
    ensures Through(job, next)
  {
    forall n: nat | n < |next.arrivals| ensures StepAt(job, next, n) {
      assert n < |tr.arrivals| ==> StepAt(job, tr, n);
    }
  }

  /** All keys are done. */
  ghost predicate Complete(job: Job, tr: Trace) {
    Through(job, tr) && |tr.arrivals| == |job.keys| && TreeOk(tr.trees[|job.keys|])
  }

  // ---- what the run keeps

  /** A cell at a place leads down to the branch node at p: its own, or one below a child of its own that is there. */
  predicate Leads(branchFn: Key -> BranchNode, place: Key, c: Cell, p: Key)
    decreases |p| - |place|
  {
    c.hashed && place + c.down <= p && (place + c.down == p || ChildLeads(branchFn, place + c.down, p))
  }

  predicate ChildLeads(branchFn: Key -> BranchNode, q: Key, p: Key)
    requires q <= p && q != p
    decreases |p| - |q|, 0
  {
    var b, n := branchFn(q), p[|q|];
    b.BranchNode? && |b.cells| == 16 && n < 16 && b.bitmap[n] && Leads(branchFn, q + [n], b.cells[n], p)
  }

  /** The branch nodes that the run may need: those that the root leads to, and as long as it is not checked the node
      at []. */
  predicate Needed(branchFn: Key -> BranchNode, start: Tree, p: Key) {
    || Leads(branchFn, [], start.root, p)
    || (!start.rootChecked && branchFn([]).BranchNode? && Leads(branchFn, [], BRANCH, p))
  }

  /** Below a branch node that is there are those that its children lead to. */
  lemma {:induction false} LeadsOn(branchFn: Key -> BranchNode, place: Key, c: Cell, q: Key, n: nat)
    requires Leads(branchFn, place, c, q)
    requires branchFn(q).BranchNode? && |branchFn(q).cells| == 16 && n < 16 && branchFn(q).bitmap[n]
    requires branchFn(q).cells[n].hashed
    ensures Leads(branchFn, place, c, q + [n] + branchFn(q).cells[n].down)
    decreases |q| - |place|
  {
    var at, p := place + c.down, q + [n] + branchFn(q).cells[n].down;
    assert at <= p && at != p && p[|at|] == (q + [n])[|at|];
    if at == q {
      assert Leads(branchFn, q + [n], branchFn(q).cells[n], p);
    } else {
      var m := q[|at|];
      LeadsOn(branchFn, at + [m], branchFn(at).cells[m], q, n);
    }
  }

  lemma NeededOn(branchFn: Key -> BranchNode, start: Tree, q: Key, n: nat)
    requires Needed(branchFn, start, q)
    requires branchFn(q).BranchNode? && |branchFn(q).cells| == 16 && n < 16 && branchFn(q).bitmap[n]
    requires branchFn(q).cells[n].hashed
    ensures Needed(branchFn, start, q + [n] + branchFn(q).cells[n].down)
  {
    if Leads(branchFn, [], start.root, q) {
      LeadsOn(branchFn, [], start.root, q, n);
    } else {
      LeadsOn(branchFn, [], BRANCH, q, n);
    }
  }

  /** No key from n on goes through p. */
  predicate NoKey(keys: seq<Key>, n: nat, p: Key) { forall i {:trigger keys[i]} :: n <= i < |keys| ==> !(p <= keys[i]) }

  /** A cell at a place that has a hash: its branch node may be needed, or was made in this run and is passed by the
      keys. */
  ghost predicate Backed(job: Job, n: nat, c: Cell, place: Key) {
    c.hashed ==> Needed(job.branchFn, job.start, place + c.down) || NoKey(job.keys, n, place + c.down)
  }

  ghost predicate RowBacked(job: Job, n: nat, row: Row) {
    |row.cells| == 16 && forall k: nat {:trigger row.cells[k]} :: k < 16 ==>
        Backed(job, n, row.cells[k], row.path + [k])
  }

  ghost predicate AllBacked(job: Job, n: nat, t: Tree) {
    Backed(job, n, t.root, []) && (job.start.rootChecked ==> t.rootChecked) &&
        forall r {:trigger RowBacked(job, n, t.rows[r])} :: 0 <= r < |t.rows| ==> RowBacked(job, n, t.rows[r])
  }

  /** A row hangs along the nibbles of the cell above it. */
  predicate Along(up: Row, row: Row) {
    Longer(up.path, row.path) && |up.cells| == 16 && row.path[|up.path|] < 16
    && row.path <= row.path[..|up.path| + 1] + up.cells[row.path[|up.path|]].down
  }

  predicate AllAlong(t: Tree) {
    && (t.rows != [] ==> t.rows[0].path <= t.root.down)
    && forall r {:trigger Along(t.rows[r - 1], t.rows[r])} :: 0 < r < |t.rows| ==> Along(t.rows[r - 1], t.rows[r])
  }

  /** The updates so far are of nodes that no later key goes through, and not of an active row. */
  ghost predicate Settled(job: Job, n: nat, t: Tree) {
    forall p {:trigger p in t.updates} :: p in t.updates ==> NoKey(job.keys, n, p) && NoRow(t, p)
  }

  predicate NoRow(t: Tree, p: Key) { forall r {:trigger t.rows[r]} :: 0 <= r < |t.rows| ==> t.rows[r].path != p }

  /** What is present and not touched was in the branch node before. */
  ghost predicate Keeps(b: BranchNode, touch: ChildMap, after: ChildMap) {
    forall n :: 0 <= n < 16 && after[n] && !touch[n] ==> b.BranchNode? && b.bitmap[n]
  }

  /** An update that can be decoded, and merged with the branch node it is for. */
  ghost predicate UpdateFits(branchFn: Key -> BranchNode, key: Key, u: BranchUpdate) {
    u.bitmap == And(u.touch, u.after) && Keeps(branchFn(key), u.touch, u.after)
  }

  ghost predicate RowKeeps(job: Job, row: Row) {
    row.before ==> job.branchFn(row.path).BranchNode? && Keeps(job.branchFn(row.path), row.touch, row.after)
  }

  ghost predicate AllKeep(job: Job, t: Tree) {
    && (forall r {:trigger RowKeeps(job, t.rows[r])} :: 0 <= r < |t.rows| ==> RowKeeps(job, t.rows[r]))
    && forall p {:trigger p in t.updates} :: p in t.updates ==> UpdateFits(job.branchFn, p, t.updates[p])
  }

  ghost predicate Inv(job: Job, n: nat, t: Tree) {
    TreeOk(t) && AllBacked(job, n, t) && AllAlong(t) && Settled(job, n, t) && AllKeep(job, t)
  }

  /** Once a start of the last key is not a start of the next, no later key has it. */
  lemma Passed(keys: seq<Key>, n: nat, p: Key)
    requires Ascending(keys) && 0 < n <= |keys| && p <= keys[n - 1] && (n < |keys| ==> !(p <= keys[n]))
    ensures NoKey(keys, n, p)
  {
    forall i | n <= i < |keys| ensures !(p <= keys[i]) {
      if p <= keys[i] && i > n {
        assert Less(keys[n - 1], keys[n]) && Less(keys[n], keys[i]);
        LessAsymmetric(keys[n - 1], keys[n]);
        LessAsymmetric(keys[n], keys[i]);
        PrefixInterval(p, keys[n - 1], keys[n], keys[i]);
      }
    }
  }

  // ---- folding

  /** What is left of a row is claimed at a place that the keys have passed. */
  lemma FoldedBacked(job: Job, n: nat, t: Tree)
    requires TreeOk(t) && t.rows != [] && AllAlong(t) && NoKey(job.keys, n, Current(t))
    ensures UpDepth(t) <= |Current(t)| && Backed(job, n, FoldedCell(t), Current(t)[..UpDepth(t)])
  {
    var k, row := |t.rows| - 1, Last(t);
    assert k > 0 ==> Along(t.rows[k - 1], t.rows[k]);
    var place := row.path[..UpDepth(t)];
    if Ones16(row.after, 16) == 1 {
      assert row.path <= place + UpCell(t).down;
    } else {
      assert row.path == place + row.path[UpDepth(t)..];
    }
  }

  lemma FoldKeepsBacked(job: Job, n: nat, t: Tree)
    requires TreeOk(t) && t.rows != [] && AllAlong(t) && AllBacked(job, n, t) && NoKey(job.keys, n, Current(t))
    ensures AllBacked(job, n, Fold(t))
  {
    var t', k := Fold(t), |t.rows| - 1;
    FoldedBacked(job, n, t);
    if k > 0 {
      assert Longer(t.rows[k - 1].path, t.rows[k].path);
      assert RowBacked(job, n, t.rows[k - 1]);
      var up, row := t.rows[k - 1], t.rows[k];
      assert row.path[..UpDepth(t)] == up.path + [row.path[|up.path|]];
    }
    forall r | 0 <= r < |t'.rows| ensures RowBacked(job, n, t'.rows[r]) {
      assert RowBacked(job, n, t.rows[r]);
    }
  }

  lemma FoldKeepsAlong(t: Tree)
    requires TreeOk(t) && t.rows != [] && AllAlong(t)
    ensures AllAlong(Fold(t))
  {
    var t' := Fold(t);
    FoldOk(t);
    forall r | 0 < r < |t'.rows| ensures Along(t'.rows[r - 1], t'.rows[r]) {
      assert Along(t.rows[r - 1], t.rows[r]);
    }
  }

  /** The update of a fold is the first for its node. */
  lemma FoldKeepsSettled(job: Job, n: nat, t: Tree)
    requires TreeOk(t) && t.rows != [] && Settled(job, n, t) && NoKey(job.keys, n, Current(t))
    ensures Settled(job, n, Fold(t)) && Current(t) !in t.updates
  {
    var t', k := Fold(t), |t.rows| - 1;
    FoldOk(t);
    assert t.rows[k].path !in t.updates by {
      assert t.rows[k].path in t.updates ==> NoRow(t, t.rows[k].path);
    }
    forall p | p in t'.updates ensures NoKey(job.keys, n, p) && NoRow(t', p) {
      forall r | 0 <= r < |t'.rows| ensures t'.rows[r].path != p {
        assert Longer(t.rows[r].path, t.rows[k].path);
        assert t'.rows[r].path == t.rows[r].path;
      }
    }
  }

  lemma RecordFits(job: Job, row: Row)
    requires RowKeeps(job, row)
    ensures FoldedUpdate(row).Some? ==> UpdateFits(job.branchFn, row.path, FoldedUpdate(row).value)
  {
  }

  lemma FoldKeepsKept(job: Job, t: Tree)
    requires TreeOk(t) && t.rows != [] && AllKeep(job, t)
    ensures AllKeep(job, Fold(t))
  {
    var t', k := Fold(t), |t.rows| - 1;
    assert RowKeeps(job, t.rows[k]);
    RecordFits(job, t.rows[k]);
    assert k > 0 ==> Longer(t.rows[k - 1].path, t.rows[k].path);
    forall r | 0 <= r < |t'.rows| ensures RowKeeps(job, t'.rows[r]) {
      assert RowKeeps(job, t.rows[r]);
    }
  }

  lemma FoldKeeps(job: Job, n: nat, t: Tree)
    requires Inv(job, n, t) && t.rows != [] && NoKey(job.keys, n, Current(t))
    ensures Inv(job, n, Fold(t))
  {
    FoldOk(t);
    FoldKeepsBacked(job, n, t);
    FoldKeepsAlong(t);
    FoldKeepsSettled(job, n, t);
    FoldKeepsKept(job, t);
  }

  // ---- unfolding

  lemma PushKeepsAlong(t: Tree, row: Row)
    requires TreeOk(t) && AllAlong(t) && (if t.rows == [] then row.path <= t.root.down else Along(Last(t), row))
    ensures AllAlong(Pushed(t, row))
  {
    var t' := Pushed(t, row);
    forall r | 0 < r < |t'.rows| ensures Along(t'.rows[r - 1], t'.rows[r]) {
      assert r < |t.rows| ==> Along(t.rows[r - 1], t.rows[r]);
    }
  }

  lemma PushKeeps(job: Job, n: nat, t: Tree, row: Row)
    requires Inv(job, n, t) && TreeOk(Pushed(t, row)) && RowBacked(job, n, row) && RowKeeps(job, row)
    requires if t.rows == [] then row.path <= t.root.down else Along(Last(t), row)
    requires n < |job.keys| && row.path <= job.keys[n]
    ensures Inv(job, n, Pushed(t, row))
  {
    var t' := Pushed(t, row);
    PushKeepsAlong(t, row);
    forall r | 0 <= r < |t'.rows| ensures RowBacked(job, n, t'.rows[r]) && RowKeeps(job, t'.rows[r]) {
      assert r < |t.rows| ==> RowBacked(job, n, t.rows[r]) && RowKeeps(job, t.rows[r]);
    }
    forall p | p in t'.updates ensures NoKey(job.keys, n, p) && NoRow(t', p) {
      assert NoRow(t, p);
    }
  }

  lemma TargetBacked(job: Job, n: nat, t: Tree, key: Key)
    requires TreeOk(t) && Ahead(t, key) && AllBacked(job, n, t)
    ensures Backed(job, n, Target(t, key), Place(t, key))
  {
    if t.rows != [] {
      var k := |t.rows| - 1;
      assert RowBacked(job, n, t.rows[k]);
      assert Place(t, key) == Current(t) + [key[|Current(t)|]];
    }
  }

  lemma CellRowBacked(job: Job, n: nat, place: Key, cell: Cell, m: nat, touched: bool, present: bool)
    requires 0 < m <= |cell.down| && cell.down[m - 1] < 16 && Backed(job, n, cell, place)
    ensures RowBacked(job, n, CellRow(place, cell, m, touched, present))
  {
    var row, nibble := CellRow(place, cell, m, touched, present), cell.down[m - 1];
    assert row.path + [nibble] + cell.down[m..] == place + cell.down;
  }

  lemma BranchRowBacked(job: Job, n: nat, place: Key, deleted: bool)
    requires job.branchFn(place).BranchNode? && |job.branchFn(place).cells| == 16
    requires Needed(job.branchFn, job.start, place)
    ensures RowBacked(job, n, BranchRow(place, job.branchFn(place), deleted))
  {
    var b, row := job.branchFn(place), BranchRow(place, job.branchFn(place), deleted);
    forall k: nat | k < 16 ensures Backed(job, n, row.cells[k], row.path + [k]) {
      if row.cells[k].hashed {
        NeededOn(job.branchFn, job.start, place, k);
      }
    }
  }

  lemma RowAlong(t: Tree, key: Key, row: Row)
    requires TreeOk(t) && Ahead(t, key) && Place(t, key) <= row.path <= Place(t, key) + Target(t, key).down
    ensures if t.rows == [] then row.path <= t.root.down else Along(Last(t), row)
  {
    PlaceOk(t, key);
    if t.rows != [] {
      var k := |Current(t)|;
      assert row.path[..k + 1] == Place(t, key);
      assert row.path[k] == Place(t, key)[k] == key[k];
    }
  }

  lemma UnfoldCellKeeps(job: Job, n: nat, t: Tree, m: nat)
    requires Inv(job, n, t) && n < |job.keys| && Ahead(t, job.keys[n]) && Unfolds(t, job.keys[n], m)
    requires Target(t, job.keys[n]).down != []
    ensures var key := job.keys[n];
      Inv(job, n, Pushed(t, CellRow(Place(t, key), Target(t, key), m, Touched(t, key), Present(t, key))))
  {
    var key := job.keys[n];
    var cell, place := Target(t, key), Place(t, key);
    PlaceOk(t, key);
    TargetBacked(job, n, t, key);
    var row := CellRow(place, cell, m, Touched(t, key), Present(t, key));
    CellRowOk(place, cell, m, Touched(t, key), Present(t, key), key);
    CellRowBacked(job, n, place, cell, m, Touched(t, key), Present(t, key));
    PushedOk(t, row);
    assert row.path <= place + cell.down;
    RowAlong(t, key, row);
    PushKeeps(job, n, t, row);
  }

  /** The branch node that the cursor asks for may be needed, unless it only looks for a root. */
  lemma TargetNeeded(job: Job, n: nat, t: Tree)
    requires Inv(job, n, t) && n < |job.keys| && Ahead(t, job.keys[n]) && Target(t, job.keys[n]).down == []
    requires Target(t, job.keys[n]).hashed || (t.rows == [] && !t.rootChecked)
    ensures var place := Place(t, job.keys[n]);
      Needed(job.branchFn, job.start, place) || (place == [] && !t.rootChecked && job.branchFn([]).NoBranch?)
  {
    var key := job.keys[n];
    var cell, place := Target(t, key), Place(t, key);
    TargetBacked(job, n, t, key);
    PlaceOk(t, key);
    assert place + cell.down == place;
  }

  lemma UnfoldBranchKeeps(job: Job, n: nat, t: Tree, deleted: bool)
    requires Inv(job, n, t) && n < |job.keys| && Ahead(t, job.keys[n]) && BranchesOk(job.branchFn)
    requires Target(t, job.keys[n]).down == [] && job.branchFn(Place(t, job.keys[n])).BranchNode?
    requires Depth(t) < |job.keys[n]| && (Target(t, job.keys[n]).hashed || (t.rows == [] && !t.rootChecked))
    ensures var place := Place(t, job.keys[n]); Inv(job, n, Pushed(t, BranchRow(place, job.branchFn(place), deleted)))
  {
    var key := job.keys[n];
    var place := Place(t, key);
    PlaceOk(t, key);
    var row := BranchRow(place, job.branchFn(place), deleted);
    assert RowBacked(job, n, row) by {
      TargetNeeded(job, n, t);
      BranchRowBacked(job, n, place, deleted);
    }
    PushedOk(t, row);
    RowAlong(t, key, row);
    PushKeeps(job, n, t, row);
  }

  /** A branch node that is missing is one that the root leads to. */
  lemma UnfoldKeeps(job: Job, n: nat, t: Tree, m: nat)
    requires Inv(job, n, t) && n < |job.keys| && Ahead(t, job.keys[n]) && Unfolds(t, job.keys[n], m)
    requires BranchesOk(job.branchFn)
    ensures var u := Unfold(t, job.keys[n], m, job.branchFn);
      if u.Some? then Inv(job, n, u.value)
      else Needed(job.branchFn, job.start, Place(t, job.keys[n])) && job.branchFn(Place(t, job.keys[n])).NoBranch?
  {
    var key := job.keys[n];
    var cell, place := Target(t, key), Place(t, key);
    if cell.down != [] {
      UnfoldCellKeeps(job, n, t, m);
    } else if job.branchFn(place).BranchNode? {
      UnfoldBranchKeeps(job, n, t, Touched(t, key) && !Present(t, key));
    } else if t.rootChecked || place != [] {
      TargetNeeded(job, n, t);
    }
  }

  // ---- one key

  /** Two cells steer the cursor alike. */
  predicate SameSteer(c: Cell, d: Cell) { c.down == d.down && c.hashed == d.hashed }

  lemma PutKeepsRows(job: Job, n: nat, t: Tree, key: Key, cell: Cell, present: bool)
    requires Inv(job, n, t) && Ahead(t, key) && (cell.hashed ==> SameSteer(cell, Target(t, key)))
    ensures AllBacked(job, n, Put(t, key, cell, present)) && AllKeep(job, Put(t, key, cell, present))
  {
    var u := Put(t, key, cell, present);
    TargetBacked(job, n, t, key);
    if t.rows != [] {
      assert Place(t, key) == Current(t) + [key[|Current(t)|]];
    }
    forall r | 0 <= r < |u.rows| ensures RowBacked(job, n, u.rows[r]) && RowKeeps(job, u.rows[r]) {
      assert RowBacked(job, n, t.rows[r]) && RowKeeps(job, t.rows[r]);
    }
  }

  lemma PutKeepsPaths(job: Job, n: nat, t: Tree, key: Key, cell: Cell, present: bool)
    requires TreeOk(t) && Ahead(t, key) && AllAlong(t) && Settled(job, n, t)
    ensures AllAlong(Put(t, key, cell, present)) && Settled(job, n, Put(t, key, cell, present))
  {
    var u := Put(t, key, cell, present);
    forall r | 0 < r < |u.rows| ensures Along(u.rows[r - 1], u.rows[r]) {
      assert Along(t.rows[r - 1], t.rows[r]);
    }
    forall p | p in u.updates ensures NoKey(job.keys, n, p) && NoRow(u, p) {
      forall r | 0 <= r < |u.rows| ensures u.rows[r].path != p {
        assert NoRow(t, p) && u.rows[r].path == t.rows[r].path;
      }
    }
  }

  lemma PutKeeps(job: Job, n: nat, t: Tree, key: Key, cell: Cell, present: bool)
    requires Inv(job, n, t) && Ahead(t, key) && Fits(cell, Depth(t)) && (cell.hashed ==>
        SameSteer(cell, Target(t, key)))
    ensures Inv(job, n, Put(t, key, cell, present))
  {
    PutOk(t, key, cell, present);
    PutKeepsRows(job, n, t, key, cell, present);
    PutKeepsPaths(job, n, t, key, cell, present);
  }

  lemma SetKeeps(job: Job, n: nat, t: Tree, key: Key, cell: Cell)
    requires Inv(job, n, t) && Ahead(t, key) && t.rows != [] && SameSteer(cell, Target(t, key))
    ensures Inv(job, n, SetCell(t, key, cell))
  {
    var u := SetCell(t, key, cell);
    PlaceOk(t, key);
    SetCellOk(t, key, cell);
    TargetBacked(job, n, t, key);
    assert Place(t, key) == Current(t) + [key[|Current(t)|]];
    forall r | 0 <= r < |u.rows| ensures RowBacked(job, n, u.rows[r]) && RowKeeps(job, u.rows[r]) {
      assert RowBacked(job, n, t.rows[r]) && RowKeeps(job, t.rows[r]);
    }
    forall r | 0 < r < |u.rows| ensures Along(u.rows[r - 1], u.rows[r]) {
      assert Along(t.rows[r - 1], t.rows[r]);
    }
    forall p | p in u.updates ensures NoKey(job.keys, n, p) && NoRow(u, p) {
      assert NoRow(t, p);
    }
  }

  lemma ChangeKeeps(job: Job, n: nat, t: Tree, key: Key, deleted: bool)
    requires Inv(job, n, t) && Arrived(t, key)
    ensures Inv(job, n, Change(t, key, deleted))
  {
    PlaceOk(t, key);
    var cell := Target(t, key);
    if deleted {
      PutKeeps(job, n, t, key, cell.(ext := []), false);
      if t.rows != [] {
        SetKeeps(job, n, t, key, cell.(ext := []));
      }
    } else {
      PutKeeps(job, n, t, key, Keyed(cell, Depth(t), key), true);
    }
  }

  lemma {:induction false} FoldToKeeps(job: Job, n: nat, t: Tree)
    requires Inv(job, n, t) && n < |job.keys| && Ascending(job.keys)
    requires (t.rows != [] ==> n > 0 && Current(t) <= job.keys[n - 1])
    ensures Inv(job, n, FoldTo(t, job.keys[n]))
    decreases |t.rows|
  {
    if NeedFolding(t, job.keys[n]) {
      Passed(job.keys, n, Current(t));
      FoldKeeps(job, n, t);
      FoldCurrent(t);
      FoldOk(t);
      FoldToKeeps(job, n, Fold(t));
    }
  }

  lemma {:induction false} FoldAllKeeps(job: Job, t: Tree)
    requires Inv(job, |job.keys|, t)
    ensures Inv(job, |job.keys|, FoldAll(t))
    decreases |t.rows|
  {
    if t.rows != [] {
      FoldKeeps(job, |job.keys|, t);
      FoldOk(t);
      FoldAllKeeps(job, Fold(t));
    }
  }

  /** The branch node at a start of key n is missing. */
  predicate MissingAt(job: Job, n: nat, p: Key) {
    && n < |job.keys| && p <= job.keys[n] && |p| < |job.keys[n]|
    && Needed(job.branchFn, job.start, p) && job.branchFn(p).NoBranch?
  }

  lemma {:induction false} UnfoldToKeeps(job: Job, n: nat, t: Tree)
    requires Inv(job, n, t) && n < |job.keys| && Ahead(t, job.keys[n]) && BranchesOk(job.branchFn)
    ensures var u := UnfoldTo(t, job.keys[n], job.branchFn);
            if u.Some? then Inv(job, n, u.value) else exists p: Key :: MissingAt(job, n, p)
    decreases STORAGE_NIBBLES - Depth(t), !t.rootChecked
  {
    var key := job.keys[n];
    var m := NeedUnfolding(t, key);
    UnfoldingOk(t, key);
    if m > 0 {
      UnfoldOk(t, key, m, job.branchFn);
      UnfoldKeeps(job, n, t, m);
      PlaceOk(t, key);
      var u := Unfold(t, key, m, job.branchFn);
      if u.Some? {
        UnfoldToKeeps(job, n, u.value);
      } else {
        assert MissingAt(job, n, Place(t, key));
      }
    }
  }

  // ---- every key

  lemma StartKeeps(job: Job)
    requires Ready(job)
    ensures Inv(job, 0, job.start)
  {
  }

  lemma NextKeeps(job: Job, n: nat, t: Tree)
    requires Inv(job, n, t)
    ensures Inv(job, n + 1, t)
  {
    forall r | 0 <= r < |t.rows| ensures RowBacked(job, n + 1, t.rows[r]) {
      assert RowBacked(job, n, t.rows[r]);
    }
  }

  lemma StepKeeps(job: Job, n: nat, t: Tree)
    requires Ready(job) && Inv(job, n, t) && n < |job.keys| && OnTrack(job, n, t)
    requires Between(t, Before(job, n), job.keys[n])
    ensures var a := Arrive(t, Before(job, n), job.keys[n], job.branchFn);
      if a.Some? then Inv(job, n, a.value) else exists p: Key :: MissingAt(job, n, p)
  {
    FoldToKeeps(job, n, t);
    FoldedAhead(t, Before(job, n), job.keys[n]);
    UnfoldToKeeps(job, n, FoldTo(t, job.keys[n]));
  }

  /** The invariant holds before and after every key. */
  lemma {:induction false} TraceKeeps(job: Job, tr: Trace, n: nat)
    requires Through(job, tr) && n <= |tr.arrivals|
    ensures Inv(job, n, tr.trees[n])
  {
    if n == 0 {
      StartKeeps(job);
    } else {
      TraceKeeps(job, tr, n - 1);
      Tracks(job, tr, n - 1);
      assert StepAt(job, tr, n - 1);
      StepKeeps(job, n - 1, tr.trees[n - 1]);
      ChangeKeeps(job, n - 1, tr.arrivals[n - 1], job.keys[n - 1], job.deleted[n - 1]);
      NextKeeps(job, n - 1, tr.trees[n]);
    }
  }

  /** ProcessUpdates ends early only at a branch node that is missing on the way to the key. */
  lemma EndsEarly(job: Job, tr: Trace)
    requires Fails(job, tr)
    ensures exists p: Key :: MissingAt(job, |tr.arrivals|, p)
  {
    var n := |tr.arrivals|;
    TraceKeeps(job, tr, n);
    Tracks(job, tr, n);
    StepKeeps(job, n, tr.trees[n]);
  }

  // ---- which nodes get an update

  /** The node at p has an update that touches the key's child. */
  predicate Written(t: Tree, key: Key, p: Key) {
    |p| < |key| && key[|p|] < 16 && p in t.updates && t.updates[p].touch[key[|p|]]
  }

  predicate SameNode(a: Row, b: Row) { a.path == b.path && a.before == b.before }

  /** Rows on the way to a key. */
  predicate OnWay(rows: seq<Row>, key: Key) {
    KeyOk(key) && forall r {:trigger rows[r]} :: 0 <= r < |rows| ==> rows[r].path <= key && |rows[r].path| < |key|
  }

  /** Of the rows on the way to a changed key the first a are still active; the deepest of them knows of the change. */
  predicate CoveredAt(t: Tree, key: Key, rows: seq<Row>, a: nat) {
    && OnWay(rows, key) && a <= |rows| && a <= |t.rows|
    && (forall r {:trigger SameNode(t.rows[r], rows[r])} :: 0 <= r < a ==> SameNode(t.rows[r], rows[r]))
    && (if a == 0 then t.rootTouched else t.rows[a - 1].touch[key[|rows[a - 1].path|]])
    && forall r {:trigger Written(t, key, rows[r].path)} :: a <= r < |rows| && rows[r].before ==>
        Written(t, key, rows[r].path)
  }

  ghost predicate Covered(t: Tree, key: Key, rows: seq<Row>) { exists a: nat :: CoveredAt(t, key, rows, a) }

  lemma TouchSeen(m: ChildMap, n: nat)
    requires n < 16 && m[n]
    ensures m != Nothing()
  {
  }

  lemma LastWritten(t: Tree, key: Key)
    requires TreeOk(t) && t.rows != [] && KeyOk(key) && Current(t) <= key && |Current(t)| < |key|
    requires Last(t).touch[key[|Current(t)|]] && Last(t).before
    ensures Written(Fold(t), key, Current(t))
  {
  }

  /** Folding the deepest row that knows of a change tells the row above, or the root. */
  lemma FoldTells(t: Tree, key: Key)
    requires TreeOk(t) && t.rows != [] && KeyOk(key) && Current(t) <= key && |Current(t)| < |key|
    requires Last(t).touch[key[|Current(t)|]]
    ensures var t', k := Fold(t), |t.rows| - 1;
      if k == 0 then t'.rootTouched else |t.rows[k - 1].path| < |key| && t'.rows[k - 1].touch[key[|t.rows[k - 1].path|]]
  {
    var k := |t.rows| - 1;
    TouchSeen(Last(t).touch, key[|Current(t)|]);
    assert k > 0 ==> Longer(t.rows[k - 1].path, t.rows[k].path);
  }

  /** What folding leaves as it is. */
  lemma FoldLeaves(t: Tree, key: Key, rows: seq<Row>, a: nat)
    requires TreeOk(t) && t.rows != [] && Current(t) !in t.updates && CoveredAt(t, key, rows, a)
    ensures forall r {:trigger SameNode(Fold(t).rows[r], rows[r])} :: 0 <= r < a && r < |t.rows| - 1 ==>
        SameNode(Fold(t).rows[r], rows[r])
    ensures forall r {:trigger Written(Fold(t), key, rows[r].path)} :: a <= r < |rows| && rows[r].before ==>
        Written(Fold(t), key, rows[r].path)
  {
    var t' := Fold(t);
    forall r | 0 <= r < a && r < |t.rows| - 1 ensures SameNode(t'.rows[r], rows[r]) {
      assert SameNode(t.rows[r], rows[r]);
    }
    forall r | a <= r < |rows| && rows[r].before ensures Written(t', key, rows[r].path) {
      assert Written(t, key, rows[r].path);
    }
  }

  lemma FoldCoversLast(t: Tree, key: Key, rows: seq<Row>)
    requires TreeOk(t) && t.rows != [] && Current(t) !in t.updates && CoveredAt(t, key, rows, |t.rows|)
    ensures CoveredAt(Fold(t), key, rows, |t.rows| - 1)
  {
    var k := |t.rows| - 1;
    FoldOk(t);
    FoldLeaves(t, key, rows, |t.rows|);
    assert SameNode(t.rows[k], rows[k]) && (k > 0 ==> SameNode(t.rows[k - 1], rows[k - 1]));
    FoldTells(t, key);
    if rows[k].before {
      LastWritten(t, key);
    }
  }

  lemma FoldCoversOther(t: Tree, key: Key, rows: seq<Row>, a: nat)
    requires TreeOk(t) && t.rows != [] && Current(t) !in t.updates && CoveredAt(t, key, rows, a) && a < |t.rows|
    ensures CoveredAt(Fold(t), key, rows, a)
  {
    FoldOk(t);
    FoldLeaves(t, key, rows, a);
    if a > 0 {
      assert SameNode(t.rows[a - 1], rows[a - 1]) && rows[a - 1].path <= key && key[|rows[a - 1].path|] < 16;
    }
  }

  lemma FoldCovers(t: Tree, key: Key, rows: seq<Row>)
    requires TreeOk(t) && t.rows != [] && Current(t) !in t.updates && Covered(t, key, rows)
    ensures Covered(Fold(t), key, rows)
  {
    var a: nat :| CoveredAt(t, key, rows, a);
    if a == |t.rows| {
      FoldCoversLast(t, key, rows);
    } else {
      FoldCoversOther(t, key, rows, a);
    }
  }

  lemma UnfoldCovers(t: Tree, key: Key, m: nat, branchFn: Key -> BranchNode, other: Key, rows: seq<Row>)
    requires TreeOk(t) && Ahead(t, key) && Unfolds(t, key, m) && BranchesOk(branchFn) && Covered(t, other, rows)
    ensures var u := Unfold(t, key, m, branchFn); u.Some? ==> Covered(u.value, other, rows)
  {
    var a: nat :| CoveredAt(t, other, rows, a);
    var u := Unfold(t, key, m, branchFn);
    if u.Some? {
      UnfoldOk(t, key, m, branchFn);
      forall r | 0 <= r < a ensures SameNode(u.value.rows[r], rows[r]) {
        assert SameNode(t.rows[r], rows[r]);
      }
      forall r | a <= r < |rows| && rows[r].before ensures Written(u.value, other, rows[r].path) {
        assert Written(t, other, rows[r].path);
      }
      assert CoveredAt(u.value, other, rows, a);
    }
  }

  lemma PutCovers(t: Tree, key: Key, cell: Cell, present: bool, other: Key, rows: seq<Row>)
    requires TreeOk(t) && Ahead(t, key) && Covered(t, other, rows)
    ensures Covered(Put(t, key, cell, present), other, rows)
  {
    var a: nat :| CoveredAt(t, other, rows, a);
    var u := Put(t, key, cell, present);
    forall r | 0 <= r < a ensures SameNode(u.rows[r], rows[r]) {
      assert SameNode(t.rows[r], rows[r]);
    }
    forall r | a <= r < |rows| && rows[r].before ensures Written(u, other, rows[r].path) {
      assert Written(t, other, rows[r].path);
    }
    assert a > 0 ==> rows[a - 1].path <= other && other[|rows[a - 1].path|] < 16;
    assert CoveredAt(u, other, rows, a);
  }

  lemma SetCovers(t: Tree, key: Key, cell: Cell, other: Key, rows: seq<Row>)
    requires TreeOk(t) && Ahead(t, key) && t.rows != [] && Covered(t, other, rows)
    ensures Covered(SetCell(t, key, cell), other, rows)
  {
    var a: nat :| CoveredAt(t, other, rows, a);
    var u := SetCell(t, key, cell);
    forall r | 0 <= r < a ensures SameNode(u.rows[r], rows[r]) {
      assert SameNode(t.rows[r], rows[r]);
    }
    forall r | a <= r < |rows| && rows[r].before ensures Written(u, other, rows[r].path) {
      assert Written(t, other, rows[r].path);
    }
    assert a > 0 ==> rows[a - 1].path <= other && other[|rows[a - 1].path|] < 16;
    assert CoveredAt(u, other, rows, a);
  }

  /** A change is known to the row it is made in. */
  lemma ChangeCovered(t: Tree, key: Key, deleted: bool)
    requires Arrived(t, key) && Changes(t, key, deleted)
    ensures OnWay(t.rows, key) && Covered(Change(t, key, deleted), key, t.rows)
  {
    var u, k := Change(t, key, deleted), |t.rows| - 1;
    forall r | 0 <= r < |t.rows| ensures t.rows[r].path <= key && |t.rows[r].path| < |key| {
      assert r < k ==> Longer(t.rows[r].path, t.rows[k].path);
    }
    forall r | 0 <= r < |t.rows| ensures SameNode(u.rows[r], t.rows[r]) {
    }
    assert CoveredAt(u, key, t.rows, |t.rows|);
  }

  lemma {:induction false} FoldToCovers(job: Job, n: nat, t: Tree, key: Key, rows: seq<Row>)
    requires Inv(job, n, t) && n < |job.keys| && Ascending(job.keys)
    requires (t.rows != [] ==> n > 0 && Current(t) <= job.keys[n - 1])
    requires Covered(t, key, rows)
    ensures Covered(FoldTo(t, job.keys[n]), key, rows)
    decreases |t.rows|
  {
    if NeedFolding(t, job.keys[n]) {
      Passed(job.keys, n, Current(t));
      FoldKeepsSettled(job, n, t);
      FoldKeeps(job, n, t);
      FoldCovers(t, key, rows);
      FoldCurrent(t);
      FoldOk(t);
      FoldToCovers(job, n, Fold(t), key, rows);
    }
  }

  lemma {:induction false} FoldAllCovers(job: Job, t: Tree, key: Key, rows: seq<Row>)
    requires Inv(job, |job.keys|, t) && Covered(t, key, rows)
    ensures Covered(FoldAll(t), key, rows)
    decreases |t.rows|
  {
    if t.rows != [] {
      FoldKeepsSettled(job, |job.keys|, t);
      FoldKeeps(job, |job.keys|, t);
      FoldCovers(t, key, rows);
      FoldOk(t);
      FoldAllCovers(job, Fold(t), key, rows);
    }
  }

  lemma {:induction false} UnfoldToCovers(t: Tree, key: Key, branchFn: Key -> BranchNode, other: Key, rows: seq<Row>)
    requires TreeOk(t) && Ahead(t, key) && BranchesOk(branchFn) && Covered(t, other, rows)
    ensures var u := UnfoldTo(t, key, branchFn); u.Some? ==> Covered(u.value, other, rows)
    decreases STORAGE_NIBBLES - Depth(t), !t.rootChecked
  {
    var m := NeedUnfolding(t, key);
    UnfoldingOk(t, key);
    if m > 0 {
      UnfoldOk(t, key, m, branchFn);
      UnfoldCovers(t, key, m, branchFn, other, rows);
      var u := Unfold(t, key, m, branchFn);
      if u.Some? {
        UnfoldToCovers(u.value, key, branchFn, other, rows);
      }
    }
  }

  lemma ChangeCovers(t: Tree, key: Key, deleted: bool, other: Key, rows: seq<Row>)
    requires Arrived(t, key) && Covered(t, other, rows)
    ensures Covered(Change(t, key, deleted), other, rows)
  {
    var cell := Target(t, key);
    PlaceOk(t, key);
    PutCovers(t, key, cell.(ext := []), false, other, rows);
    if t.rows != [] {
      SetCovers(t, key, cell.(ext := []), other, rows);
    }
    PutCovers(t, key, Keyed(cell, Depth(t), key), true, other, rows);
  }

  /** One key later a changed key is still covered. */
  lemma NextCovers(job: Job, n: nat, t: Tree, key: Key, rows: seq<Row>)
    requires Ready(job) && Inv(job, n, t) && n < |job.keys| && OnTrack(job, n, t)
    requires Between(t, Before(job, n), job.keys[n])
    requires Covered(t, key, rows)
    ensures var a := Arrive(t, Before(job, n), job.keys[n], job.branchFn);
      a.Some? ==> Covered(Change(a.value, job.keys[n], job.deleted[n]), key, rows)
  {
    FoldToCovers(job, n, t, key, rows);
    FoldedAhead(t, Before(job, n), job.keys[n]);
    UnfoldToCovers(FoldTo(t, job.keys[n]), job.keys[n], job.branchFn, key, rows);
    var a := Arrive(t, Before(job, n), job.keys[n], job.branchFn);
    if a.Some? {
      ChangeCovers(a.value, job.keys[n], job.deleted[n], key, rows);
    }
  }

  /** Key i changes something. */
  ghost predicate ChangedBy(job: Job, tr: Trace, i: nat) {
    i < |tr.arrivals| && i < |job.keys| && i < |job.deleted| && Arrived(tr.arrivals[i], job.keys[i])
    && Changes(tr.arrivals[i], job.keys[i], job.deleted[i])
  }

  lemma FirstCovered(job: Job, tr: Trace, i: nat)
    requires Through(job, tr) && i < |tr.arrivals| && ChangedBy(job, tr, i)
    ensures Covered(tr.trees[i + 1], job.keys[i], tr.arrivals[i].rows)
  {
    assert StepAt(job, tr, i);
    ChangeCovered(tr.arrivals[i], job.keys[i], job.deleted[i]);
  }

  lemma StepCovers(job: Job, tr: Trace, n: nat, key: Key, rows: seq<Row>)
    requires Through(job, tr) && n < |tr.arrivals| && Covered(tr.trees[n], key, rows)
    ensures Covered(tr.trees[n + 1], key, rows)
  {
    assert StepAt(job, tr, n);
    TraceKeeps(job, tr, n);
    Tracks(job, tr, n);
    NextCovers(job, n, tr.trees[n], key, rows);
  }

  lemma {:induction false} StillCovered(job: Job, tr: Trace, i: nat, n: nat)
    requires Through(job, tr) && i < n <= |tr.arrivals| && ChangedBy(job, tr, i)
    ensures Covered(tr.trees[n], job.keys[i], tr.arrivals[i].rows)
    decreases n
  {
    if i == n - 1 {
      FirstCovered(job, tr, i);
    } else {
      StillCovered(job, tr, i, n - 1);
      StepCovers(job, tr, n - 1, job.keys[i], tr.arrivals[i].rows);
    }
  }

  lemma AllOnWay(t: Tree, key: Key)
    requires Arrived(t, key)
    ensures OnWay(t.rows, key)
  {
    forall r | 0 <= r < |t.rows| ensures t.rows[r].path <= key && |t.rows[r].path| < |key| {
      assert r < |t.rows| - 1 ==> Longer(t.rows[r].path, t.rows[|t.rows| - 1].path);
    }
  }

  /** At the end nothing is active: what covers a change are the updates, and the root. */
  lemma CoveredAtEnd(t: Tree, key: Key, rows: seq<Row>)
    requires Covered(t, key, rows) && t.rows == []
    ensures t.rootTouched
    ensures forall k {:trigger rows[k]} :: 0 <= k < |rows| && rows[k].before ==> Written(t, key, rows[k].path)
  {
    var n: nat :| CoveredAt(t, key, rows, n);
    forall k | 0 <= k < |rows| && rows[k].before ensures Written(t, key, rows[k].path) {
    }
  }

  /** What ProcessUpdates leaves. */
  ghost function Result(job: Job, tr: Trace): Tree
    requires Complete(job, tr)
  {
    FoldAll(tr.trees[|job.keys|])
  }

  /**
   * For every key that changes something, the root is touched and every branch node on the cursor's way to the key
   * has an update that touches the key's child.
   */
  lemma EveryNodeTouched(job: Job, tr: Trace, i: nat)
    requires Complete(job, tr) && i < |job.keys|
    ensures Arrived(tr.arrivals[i], job.keys[i]) && OnWay(tr.arrivals[i].rows, job.keys[i])
    ensures ChangedBy(job, tr, i) ==> Result(job, tr).rootTouched
    ensures var rows := tr.arrivals[i].rows;
      ChangedBy(job, tr, i) ==> forall k {:trigger rows[k]} :: 0 <= k < |rows| && rows[k].before ==>
          Written(Result(job, tr), job.keys[i], rows[k].path)
  {
    var n := |job.keys|;
    assert StepAt(job, tr, i);
    AllOnWay(tr.arrivals[i], job.keys[i]);
    if ChangedBy(job, tr, i) {
      StillCovered(job, tr, i, n);
      TraceKeeps(job, tr, n);
      FoldAllCovers(job, tr.trees[n], job.keys[i], tr.arrivals[i].rows);
      CoveredAtEnd(Result(job, tr), job.keys[i], tr.arrivals[i].rows);
    }
  }

  /** Every update can be decoded and merged with the branch node that it is for; of a node that was not there it writes
      all children. */
  lemma EveryUpdateFits(job: Job, tr: Trace, p: Key)
    requires Complete(job, tr) && p in Result(job, tr).updates
    ensures UpdateFits(job.branchFn, p, Result(job, tr).updates[p])
    ensures job.branchFn(p).NoBranch? ==> Result(job, tr).updates[p].bitmap == Result(job, tr).updates[p].after
  {
    TraceKeeps(job, tr, |job.keys|);
    FoldAllKeeps(job, tr.trees[|job.keys|]);
  }
}
