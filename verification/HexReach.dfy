/**
 * When ProcessUpdates comes to its end: exactly when no key goes through a branch node that the root leads to and that
 * is missing. The keys before leave the way to such a node as it is.
 */
module HexReach {
  import opened Options
  import opened ByteKeys
  import opened HexCursor
  import opened HexRun

  /** The branch node at [] is there only if the root leads to it, or is yet to be looked up. */
  predicate Rooted(branchFn: Key -> BranchNode, start: Tree) {
    start.rootChecked || branchFn([]).NoBranch? || IsEmpty(start.root) || SameSteer(start.root, BRANCH)
  }

  predicate RootLeads(branchFn: Key -> BranchNode, t: Tree, p: Key) {
    || Leads(branchFn, [], t.root, p)
    || (IsEmpty(t.root) && !t.rootChecked && branchFn([]).BranchNode? && Leads(branchFn, [], BRANCH, p))
  }

  predicate RowLeads(branchFn: Key -> BranchNode, row: Row, p: Key) {
    |row.path| < |p| && |row.cells| == 16 && p[|row.path|] < 16
    && Leads(branchFn, row.path + [p[|row.path|]], row.cells[p[|row.path|]], p)
  }

  /** The lower row is not on the way to p. */
  predicate Departs(up: Row, row: Row, p: Key) {
    |up.path| < |p| && |up.path| < |row.path| && row.path[|up.path|] != p[|up.path|]
  }

  predicate On(row: Row, p: Key) { row.path <= p && |row.path| < |p| }

  /** The first a rows are on the way to p, and the last of them leads there. */
  predicate LeadsAt(branchFn: Key -> BranchNode, t: Tree, p: Key, a: nat) {
    && a <= |t.rows| && (forall r {:trigger On(t.rows[r], p)} :: 0 <= r < a ==> On(t.rows[r], p))
    && (if a == 0 then t.rows == [] && RootLeads(branchFn, t, p) else RowLeads(branchFn, t.rows[a - 1], p))
    && (0 < a < |t.rows| ==> Departs(t.rows[a - 1], t.rows[a], p))
  }

  ghost predicate StillLeads(branchFn: Key -> BranchNode, t: Tree, p: Key) {
    exists a: nat :: LeadsAt(branchFn, t, p, a)
  }

  // ---- folding

  /** Folding a row that is not on the way. */
  lemma FoldLeads(branchFn: Key -> BranchNode, t: Tree, p: Key, a: nat)
    requires TreeOk(t) && a < |t.rows| && LeadsAt(branchFn, t, p, a)
    ensures LeadsAt(branchFn, Fold(t), p, a)
  {
    var u, k := Fold(t), |t.rows| - 1;
    FoldOk(t);
    FoldsDown(t);
    forall r | 0 <= r < a ensures On(u.rows[r], p) {
      assert On(t.rows[r], p);
    }
  }

  /** No key between two keys through p leaves a row on the way to p. */
  lemma NotFolded(job: Job, n: nat, m: nat, t: Tree, p: Key, a: nat)
    requires Ascending(job.keys) && n <= m < |job.keys| && p <= job.keys[m] && OnTrack(job, n, t)
    requires LeadsAt(job.branchFn, t, p, a) && NeedFolding(t, job.keys[n])
    ensures a < |t.rows|
  {
    if a == |t.rows| {
      assert a > 0 ==> On(t.rows[a - 1], p);
      Passed(job.keys, n, Current(t));
      assert false;
    }
  }

  lemma {:induction false} FoldToLeads(job: Job, n: nat, m: nat, t: Tree, p: Key)
    requires Ascending(job.keys) && n <= m < |job.keys| && p <= job.keys[m] && OnTrack(job, n, t)
    requires StillLeads(job.branchFn, t, p)
    ensures StillLeads(job.branchFn, FoldTo(t, job.keys[n]), p)
    decreases |t.rows|
  {
    if NeedFolding(t, job.keys[n]) {
      var a: nat :| LeadsAt(job.branchFn, t, p, a);
      NotFolded(job, n, m, t, p, a);
      FoldLeads(job.branchFn, t, p, a);
      FoldCurrent(t);
      FoldOk(t);
      FoldToLeads(job, n, m, Fold(t), p);
    }
  }

  // ---- unfolding

  /** One more row, after the first a. */
  lemma PushLeads(branchFn: Key -> BranchNode, t: Tree, row: Row, p: Key, a: nat, b: nat)
    requires LeadsAt(branchFn, t, p, a) && a <= b <= |t.rows| + 1
    requires if b == a then 0 < a && (a < |t.rows| || Departs(t.rows[a - 1], row, p)) else
        a == |t.rows| && On(row, p) && RowLeads(branchFn, row, p)
    ensures LeadsAt(branchFn, Pushed(t, row), p, b)
  {
    var u := Pushed(t, row);
    forall r | 0 <= r < b ensures On(u.rows[r], p) {
      assert r < a ==> On(t.rows[r], p);
    }
  }

  lemma CellRowLeads(branchFn: Key -> BranchNode, place: Key, c: Cell, n: nat, touched: bool, present: bool, p: Key)
    requires 0 < n <= |c.down| && c.down[n - 1] < 16 && Leads(branchFn, place, c, p)
    ensures var row := CellRow(place, c, n, touched, present); On(row, p) && RowLeads(branchFn, row, p)
  {
    var row := CellRow(place, c, n, touched, present);
    assert row.path <= place + c.down;
    assert p[|row.path|] == (place + c.down)[|row.path|] == c.down[n - 1];
    assert row.path + [c.down[n - 1]] + c.down[n..] == place + c.down;
  }

  lemma BranchRowLeads(branchFn: Key -> BranchNode, place: Key, deleted: bool, p: Key)
    requires Leads(branchFn, place, BRANCH, p) && branchFn(place).BranchNode? && branchFn(p).NoBranch?
    requires |branchFn(place).cells| == 16
    ensures var row := BranchRow(place, branchFn(place), deleted); On(row, p) && RowLeads(branchFn, row, p)
  {
    assert place + BRANCH.down == place;
  }

  /** The cell that the cursor is at leads to p. */
  predicate AtLeading(branchFn: Key -> BranchNode, t: Tree, key: Key, p: Key)
    requires TreeOk(t) && Ahead(t, key)
  {
    if t.rows == [] then RootLeads(branchFn, t, p)
    else Place(t, key) <= p && Leads(branchFn, Place(t, key), Target(t, key), p)
  }

  lemma UnfoldLeading(branchFn: Key -> BranchNode, t: Tree, key: Key, n: nat, p: Key, a: nat)
    requires TreeOk(t) && Ahead(t, key) && Unfolds(t, key, n) && BranchesOk(branchFn) && branchFn(p).NoBranch?
    requires LeadsAt(branchFn, t, p, a) && a == |t.rows| && AtLeading(branchFn, t, key, p)
    ensures var u := Unfold(t, key, n, branchFn); u.Some? ==> StillLeads(branchFn, u.value, p)
  {
    var cell, place := Target(t, key), Place(t, key);
    PlaceOk(t, key);
    if cell.down != [] {
      var row := CellRow(place, cell, n, Touched(t, key), Present(t, key));
      CellRowLeads(branchFn, place, cell, n, Touched(t, key), Present(t, key), p);
      PushLeads(branchFn, t, row, p, a, a + 1);
    } else if branchFn(place).BranchNode? {
      var deleted := Touched(t, key) && !Present(t, key);
      BranchRowLeads(branchFn, place, deleted, p);
      PushLeads(branchFn, t, BranchRow(place, branchFn(place), deleted), p, a, a + 1);
    } else if !t.rootChecked && place == [] {
      assert LeadsAt(branchFn, t.(rootChecked := true), p, 0);
    }
  }

  /** The rows from the a-th on are not on the way to p: one more does not matter. */
  lemma UnfoldBeside(branchFn: Key -> BranchNode, t: Tree, key: Key, n: nat, p: Key, a: nat)
    requires TreeOk(t) && Ahead(t, key) && Unfolds(t, key, n) && BranchesOk(branchFn)
    requires LeadsAt(branchFn, t, p, a) && 0 < a && (a == |t.rows| ==> !(Place(t, key) <= p))
    ensures var u := Unfold(t, key, n, branchFn); u.Some? ==> LeadsAt(branchFn, u.value, p, a)
  {
    var u := Unfold(t, key, n, branchFn);
    if u.Some? {
      UnfoldOk(t, key, n, branchFn);
      PlaceOk(t, key);
      var row := Last(u.value);
      if a == |t.rows| {
        assert On(t.rows[a - 1], p);
        PlaceSteps(t, key, row, p);
      }
      PushLeads(branchFn, t, row, p, a, a);
    }
  }

  /** A row below a place that is not on the way departs. */
  lemma PlaceSteps(t: Tree, key: Key, row: Row, p: Key)
    requires TreeOk(t) && Ahead(t, key) && t.rows != [] && On(Last(t), p) && !(Place(t, key) <= p)
    requires row.path <= key && |Current(t)| < |row.path|
    ensures Departs(Last(t), row, p)
  {
    var k := |Current(t)|;
    assert key[..k] == p[..k] && Place(t, key) == key[..k] + [key[k]] && p[..k] + [p[k]] <= p;
  }

  lemma UnfoldLeads(branchFn: Key -> BranchNode, t: Tree, key: Key, n: nat, p: Key)
    requires TreeOk(t) && Ahead(t, key) && Unfolds(t, key, n) && BranchesOk(branchFn) && branchFn(p).NoBranch?
    requires StillLeads(branchFn, t, p)
    ensures var u := Unfold(t, key, n, branchFn); u.Some? ==> StillLeads(branchFn, u.value, p)
  {
    var a: nat :| LeadsAt(branchFn, t, p, a);
    if a == |t.rows| && (a == 0 || Place(t, key) <= p) {
      LeadingNow(branchFn, t, key, p, a);
      UnfoldLeading(branchFn, t, key, n, p, a);
    } else {
      UnfoldBeside(branchFn, t, key, n, p, a);
    }
  }

  lemma LeadingNow(branchFn: Key -> BranchNode, t: Tree, key: Key, p: Key, a: nat)
    requires TreeOk(t) && Ahead(t, key) && LeadsAt(branchFn, t, p, a) && a == |t.rows| && (a == 0 || Place(t, key) <= p)
    ensures AtLeading(branchFn, t, key, p)
  {
    if a > 0 {
      assert On(t.rows[a - 1], p);
      var k := |Current(t)|;
      assert p[k] == Place(t, key)[k] == key[k];
      assert Place(t, key) == Current(t) + [p[k]];
    }
  }

  /** What the loop of unfolding ends with. */
  predicate Done(t: Tree, key: Key) { Arrived(t, key) && NeedUnfolding(t, key) == 0 }

  lemma {:induction false} UnfoldToLeads(branchFn: Key -> BranchNode, t: Tree, key: Key, p: Key)
    requires TreeOk(t) && Ahead(t, key) && BranchesOk(branchFn) && branchFn(p).NoBranch? && StillLeads(branchFn, t, p)
    ensures var u := UnfoldTo(t, key, branchFn); u.Some? ==> Done(u.value, key) && StillLeads(branchFn, u.value, p)
    decreases STORAGE_NIBBLES - Depth(t), !t.rootChecked
  {
    var n := NeedUnfolding(t, key);
    UnfoldingOk(t, key);
    if n > 0 {
      UnfoldOk(t, key, n, branchFn);
      UnfoldLeads(branchFn, t, key, n, p);
      var u := Unfold(t, key, n, branchFn);
      if u.Some? {
        UnfoldToLeads(branchFn, u.value, key, p);
      }
    }
  }

  // ---- a key

  /** A cell that leads on is not changed: the key ends at it, or it would be empty. */
  lemma LeadingKept(branchFn: Key -> BranchNode, t: Tree, key: Key, p: Key)
    requires Done(t, key) && AtLeading(branchFn, t, key, p)
    ensures var cell := Target(t, key); !IsEmpty(cell) && (cell.down == [] ==> key[Depth(t)..] == [])
  {
    PlaceOk(t, key);
  }

  /** The cursor does not stay at a root that leads on. */
  lemma BelowRoot(branchFn: Key -> BranchNode, t: Tree, key: Key, p: Key, a: nat)
    requires Done(t, key) && LeadsAt(branchFn, t, p, a)
    ensures a > 0
  {
  }

  lemma PutRowLeads(branchFn: Key -> BranchNode, t: Tree, key: Key, cell: Cell, present: bool, p: Key, a: nat)
    requires Done(t, key) && LeadsAt(branchFn, t, p, a) && a > 0
    requires AtLeading(branchFn, t, key, p) ==> SameSteer(cell, Target(t, key)) && !IsEmpty(cell)
    ensures LeadsAt(branchFn, Put(t, key, cell, present), p, a)
  {
    var u := Put(t, key, cell, present);
    forall r | 0 <= r < a ensures On(u.rows[r], p) {
      assert On(t.rows[r], p);
    }
    if a == |t.rows| {
      assert On(t.rows[a - 1], p);
      if Place(t, key) <= p {
        LeadingNow(branchFn, t, key, p, a);
      }
      RowStillLeads(branchFn, t, u, key, p);
    }
  }

  lemma PutLeads(branchFn: Key -> BranchNode, t: Tree, key: Key, cell: Cell, present: bool, p: Key)
    requires Done(t, key) && StillLeads(branchFn, t, p)
    requires AtLeading(branchFn, t, key, p) ==> SameSteer(cell, Target(t, key)) && !IsEmpty(cell)
    ensures StillLeads(branchFn, Put(t, key, cell, present), p)
  {
    var a: nat :| LeadsAt(branchFn, t, p, a);
    BelowRoot(branchFn, t, key, p, a);
    PutRowLeads(branchFn, t, key, cell, present, p, a);
  }

  lemma ChangeLeads(branchFn: Key -> BranchNode, t: Tree, key: Key, deleted: bool, p: Key)
    requires Done(t, key) && StillLeads(branchFn, t, p)
    ensures StillLeads(branchFn, Change(t, key, deleted), p)
  {
    var cell := Target(t, key);
    PlaceOk(t, key);
    if AtLeading(branchFn, t, key, p) {
      LeadingKept(branchFn, t, key, p);
    }
    PutLeads(branchFn, t, key, cell.(ext := []), false, p);
    if t.rows != [] {
      SetLeads(branchFn, t, key, cell.(ext := []), p);
    }
    PutLeads(branchFn, t, key, Keyed(cell, Depth(t), key), true, p);
  }

  /** Whether a tree leads somewhere does not depend on the bits. */
  lemma SetLeads(branchFn: Key -> BranchNode, t: Tree, key: Key, cell: Cell, p: Key)
    requires Done(t, key) && t.rows != [] && StillLeads(branchFn, Put(t, key, cell, false), p)
    ensures StillLeads(branchFn, SetCell(t, key, cell), p)
  {
    var u, v := Put(t, key, cell, false), SetCell(t, key, cell);
    var a: nat :| LeadsAt(branchFn, u, p, a);
    forall r | 0 <= r < a ensures On(v.rows[r], p) {
      assert On(u.rows[r], p);
    }
    assert LeadsAt(branchFn, v, p, a);
  }

  lemma RowStillLeads(branchFn: Key -> BranchNode, t: Tree, u: Tree, key: Key, p: Key)
    requires TreeOk(t) && Ahead(t, key) && t.rows != [] && |u.rows| == |t.rows| && RowLeads(branchFn, Last(t), p)
    requires On(Last(t), p) && Last(u).path == Current(t) && |Last(u).cells| == 16
    requires forall n :: 0 <= n < 16 && n != key[|Current(t)|] ==> Last(u).cells[n] == Last(t).cells[n]
    requires Place(t, key) <= p ==> SameSteer(Last(u).cells[key[|Current(t)|]], Target(t, key))
    ensures RowLeads(branchFn, Last(u), p)
  {
    var k := |Current(t)|;
    if p[k] == key[k] {
      assert Place(t, key) == p[..k + 1];
    }
  }

  lemma ArrivalLeads(job: Job, tr: Trace, n: nat, m: nat, p: Key)
    requires Through(job, tr) && n < |tr.arrivals| && n <= m && MissingAt(job, m, p)
    requires StillLeads(job.branchFn, tr.trees[n], p)
    ensures Done(tr.arrivals[n], job.keys[n]) && StillLeads(job.branchFn, tr.arrivals[n], p)
  {
    assert StepAt(job, tr, n);
    Tracks(job, tr, n);
    var t, key := tr.trees[n], job.keys[n];
    FoldToLeads(job, n, m, t, p);
    FoldedAhead(t, Before(job, n), key);
    UnfoldToLeads(job.branchFn, FoldTo(t, key), key, p);
  }

  lemma StepLeads(job: Job, tr: Trace, n: nat, m: nat, p: Key)
    requires Through(job, tr) && n < |tr.arrivals| && n <= m && MissingAt(job, m, p)
    requires StillLeads(job.branchFn, tr.trees[n], p)
    ensures StillLeads(job.branchFn, tr.trees[n + 1], p)
  {
    assert StepAt(job, tr, n);
    ArrivalLeads(job, tr, n, m, p);
    ChangeLeads(job.branchFn, tr.arrivals[n], job.keys[n], job.deleted[n], p);
  }

  lemma RowOnWay(t: Tree, key: Key, r: nat)
    requires TreeOk(t) && Ahead(t, key) && r < |t.rows|
    ensures t.rows[r].path <= key
  {
    assert r < |t.rows| - 1 ==> Longer(t.rows[r].path, t.rows[|t.rows| - 1].path);
  }

  lemma AllOn(branchFn: Key -> BranchNode, t: Tree, key: Key, p: Key, a: nat)
    requires TreeOk(t) && Ahead(t, key) && p <= key && LeadsAt(branchFn, t, p, a)
    ensures a == |t.rows|
  {
    if a < |t.rows| {
      RowOnWay(t, key, a);
    }
  }

  /** Where a missing branch node is ahead the cursor does not arrive. */
  lemma NoArrival(branchFn: Key -> BranchNode, t: Tree, key: Key, p: Key)
    requires Done(t, key) && p <= key && |p| < |key|
    ensures !StillLeads(branchFn, t, p)
  {
    if StillLeads(branchFn, t, p) {
      var a: nat :| LeadsAt(branchFn, t, p, a);
      AllOn(branchFn, t, key, p, a);
      ArrivedBeyond(branchFn, t, key, p, a);
    }
  }

  lemma ArrivedBeyond(branchFn: Key -> BranchNode, t: Tree, key: Key, p: Key, a: nat)
    requires TreeOk(t) && Ahead(t, key) && p <= key && |p| < |key| && LeadsAt(branchFn, t, p, a) && a == |t.rows|
    ensures NeedUnfolding(t, key) > 0
  {
    PlaceOk(t, key);
    if a > 0 {
      assert On(t.rows[a - 1], p);
      assert Place(t, key) <= p;
    }
    LeadingNow(branchFn, t, key, p, a);
  }

  // ---- the run

  /** The run will ask for the branch node at p, whatever it does before. */
  predicate Certain(job: Job, p: Key) { Rooted(job.branchFn, job.start) || Leads(job.branchFn, [], job.start.root, p) }

  lemma StartLeads(job: Job, p: Key)
    requires Ready(job) && Needed(job.branchFn, job.start, p)
    requires Certain(job, p)
    ensures StillLeads(job.branchFn, job.start, p)
  {
    assert LeadsAt(job.branchFn, job.start, p, 0);
  }

  lemma {:induction false} TraceLeads(job: Job, tr: Trace, n: nat, m: nat, p: Key)
    requires Through(job, tr) && n <= |tr.arrivals| && n <= m && MissingAt(job, m, p)
    requires Certain(job, p)
    ensures StillLeads(job.branchFn, tr.trees[n], p)
  {
    if n == 0 {
      StartLeads(job, p);
    } else {
      TraceLeads(job, tr, n - 1, m, p);
      StepLeads(job, tr, n - 1, m, p);
    }
  }

  /** A run does not come through a key on whose way a branch node is missing. */
  lemma StopsThere(job: Job, tr: Trace, m: nat, p: Key)
    requires Through(job, tr) && MissingAt(job, m, p)
    requires Certain(job, p)
    ensures |tr.arrivals| <= m
  {
    if m < |tr.arrivals| {
      TraceLeads(job, tr, m, m, p);
      ArrivalLeads(job, tr, m, m, p);
      NoArrival(job.branchFn, tr.arrivals[m], job.keys[m], p);
    }
  }

  /** No key goes through a branch node that is missing. */
  ghost predicate NoneMissing(job: Job) {
    forall n: nat, p: Key {:trigger MissingAt(job, n, p)} :: !MissingAt(job, n, p)
  }

  /** The run that ProcessUpdates makes. */
  lemma {:induction false} RunOf(job: Job, tr: Trace) returns (all: Trace)
    requires Through(job, tr)
    ensures Complete(job, all) || Fails(job, all)
    decreases |job.keys| - |tr.arrivals|
  {
    all := tr;
    if |tr.arrivals| < |job.keys| {
      if !Fails(job, tr) {
        all := RunOf(job, Next(job, tr));
      }
    } else {
      Tracks(job, tr, |job.keys|);
    }
  }

  ghost predicate Completes(job: Job) { exists tr: Trace :: Complete(job, tr) }

  /** ProcessUpdates comes to its end exactly if no key goes through a branch node that is missing. */
  lemma CompletesIff(job: Job)
    requires Ready(job)
    ensures NoneMissing(job) ==> Completes(job)
    ensures Rooted(job.branchFn, job.start) ==> (Completes(job) <==> NoneMissing(job))
  {
    if Completes(job) && Rooted(job.branchFn, job.start) {
      var tr: Trace :| Complete(job, tr);
      forall n: nat, p: Key ensures !MissingAt(job, n, p) {
        if MissingAt(job, n, p) {
          StopsThere(job, tr, n, p);
        }
      }
    } else if !Completes(job) {
      var tr := RunOf(job, Trace([job.start], []));
      EndsEarly(job, tr);
    }
  }

  // ---- all lists of keys

  /** Every branch node that the root leads to is there, above the last nibble of the longest keys. */
  ghost predicate Whole(branchFn: Key -> BranchNode, start: Tree) {
    forall p: Key {:trigger Needed(branchFn, start, p)} :: Needed(branchFn, start, p) && |p| < STORAGE_NIBBLES ==>
        branchFn(p).BranchNode?
  }

  ghost predicate JobOk(branchFn: Key -> BranchNode, start: Tree, keys: seq<Key>, deleted: seq<bool>) {
    Ready(Job(branchFn, start, keys, deleted)) ==> Completes(Job(branchFn, start, keys, deleted))
  }

  lemma {:induction false} LeadsNibbles(branchFn: Key -> BranchNode, place: Key, c: Cell, p: Key)
    requires Leads(branchFn, place, c, p) && BranchesOk(branchFn) && Fits(c, |place|) && Nibbles(place)
    ensures Nibbles(p)
    decreases |p| - |place|
  {
    var q := place + c.down;
    if q != p {
      assert Fits(branchFn(q).cells[p[|q|]], |q| + 1);
      LeadsNibbles(branchFn, q + [p[|q|]], branchFn(q).cells[p[|q|]], p);
    }
  }

  /** A key through p. */
  function KeyThrough(p: Key): (key: Key)
    requires Nibbles(p) && |p| <= STORAGE_NIBBLES
    ensures KeyOk(key) && p <= key && |key| == STORAGE_NIBBLES
  {
    p + seq(STORAGE_NIBBLES - |p|, _ => 0)
  }

  /** Every list of keys can be processed exactly if no branch node is missing. */
  lemma AllComplete(branchFn: Key -> BranchNode, start: Tree)
    requires TreeOk(start) && start.rows == [] && start.updates == map[] && BranchesOk(branchFn)
    ensures Whole(branchFn, start) ==> forall keys, deleted :: JobOk(branchFn, start, keys, deleted)
    ensures Rooted(branchFn, start) ==>
      (Whole(branchFn, start) <==> forall keys, deleted :: JobOk(branchFn, start, keys, deleted))
  {
    if Whole(branchFn, start) {
      forall keys: seq<Key>, deleted: seq<bool> ensures JobOk(branchFn, start, keys, deleted) {
        var job := Job(branchFn, start, keys, deleted);
        if Ready(job) {
          CompletesIff(job);
        }
      }
    } else if Rooted(branchFn, start) {
      var p: Key :| Needed(branchFn, start, p) && |p| < STORAGE_NIBBLES && branchFn(p).NoBranch?;
      if Leads(branchFn, [], start.root, p) {
        LeadsNibbles(branchFn, [], start.root, p);
      } else {
        LeadsNibbles(branchFn, [], BRANCH, p);
      }
      var job := Job(branchFn, start, [KeyThrough(p)], [false]);
      assert MissingAt(job, 0, p);
      CompletesIff(job);
      assert !JobOk(branchFn, start, job.keys, job.deleted);
    }
  }

  // ---- runs that end early

  function Zeros(first: nat): (key: Key)
    requires first < 16
    ensures KeyOk(key) && |key| == ACCOUNT_NIBBLES && key[0] == first && forall i :: 0 < i < |key| ==> key[i] == 0
  {
    [first] + seq(ACCOUNT_NIBBLES - 1, _ => 0)
  }

  /** A root with a hash and no branch nodes at all. */
  lemma MissingRoot()
    ensures var job := Job(_ => NoBranch, Tree(BRANCH, true, false, true, [], map[]), [Zeros(0)], [false]);
      Ready(job) && Rooted(job.branchFn, job.start) && MissingAt(job, 0, []) && !Completes(job)
  {
    var job := Job(_ => NoBranch, Tree(BRANCH, true, false, true, [], map[]), [Zeros(0)], [false]);
    assert MissingAt(job, 0, []);
    CompletesIff(job);
  }

  /** A branch node at the root's place with one child that claims a branch node. */
  function StaleRoot(p: Key): BranchNode {
    if p == [] then BranchNode(Only(1), seq(16, _ => BRANCH)) else NoBranch
  }

  /**
   * A root that is a single key beside a branch node at []: the node below is missing for the key through it, but the
   * run does not ask for it.
   */
  lemma NotRooted()
    ensures var root := Cell(Zeros(0), false, [], Some(Zeros(0)), None);
      var job := Job(StaleRoot, Tree(root, false, false, true, [], map[]), [Zeros(1)], [false]);
      Ready(job) && !Rooted(job.branchFn, job.start) && MissingAt(job, 0, [1]) && Completes(job)
  {
    var t := Tree(Cell(Zeros(0), false, [], Some(Zeros(0)), None), false, false, true, [], map[]);
    var job := Job(StaleRoot, t, [Zeros(1)], [false]);
    assert NeedUnfolding(t, Zeros(1)) == 1;
    UnfoldingOk(t, Zeros(1));
    var u := Unfold(t, Zeros(1), 1, StaleRoot).value;
    UnfoldOk(t, Zeros(1), 1, StaleRoot);
    assert NeedUnfolding(u, Zeros(1)) == 0;
    assert UnfoldTo(t, Zeros(1), StaleRoot) == Some(u);
    assert ChildLeads(StaleRoot, [], [1]);
    var tr := RunOf(job, Trace([t], []));
  }
}
