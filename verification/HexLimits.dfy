/**
 * Where the tree of the keys goes wrong: storage items without their account, accounts that agree in all but the last
 * nibble, and a root that the next run cannot start from.
 */
module HexLimits {
  import opened Options
  import opened ByteKeys
  import opened BranchBytes
  import opened HexCursor
  import opened HexRun
  import opened HexReach
  import opened HexStore
  import opened HexHeld
  import opened HexGrown
  import opened HexChanged
  import opened HexKeys

  // ---- one cell

  /** A storage item without its account is found again exactly if it is written below the end of the account. */
  lemma ItemReadBack(q: Key, s: Key)
    requires Item(s) && q <= s
    ensures q + ReadBack(q, Keyed(EMPTY, |q|, s)).down == s <==> |q| >= ACCOUNT_NIBBLES
  {
    assert q + s[|q|..] == s;
  }

  /** A branch node of accounts with one nibble to go is kept exactly if the cell above it had no account. */
  lemma LastNibbleExactly(job: Job, n: nat, E: iset<Key>, S: Key -> BranchNode, row: Row, q: Key, up: Cell)
    requires RowStands(E, S, row) && Whose(E) && Ones16(row.after, 16) >= 2 && EndsAccounts(row)
    requires NodeKept(S, E, row.path) && Over(E, q, up, row.path)
    ensures Kept(S, E, q, FoldedInto(up, |q|, row)) <==> up.account == None
  {
    var c := FoldedInto(up, |q|, row);
    if up.account == None {
      AboveKept(S, E, q, up, row.path);
    } else if Kept(S, E, q, c) {
      TwoAccounts(E, S, row);
      OneAccount(S, E, q, c, row.path);
    }
  }

  /** A cell with an account has no other account. */
  lemma OneAccount(S: Key -> BranchNode, E: iset<Key>, q: Key, c: Cell, P: Key)
    requires Kept(S, E, q, c) && q <= P && Two(E, P)
    ensures c.account == None
  {
    var a: Key, b: Key :| a in E && b in E && a != b && P <= a && P <= b && |a| == |b| == ACCOUNT_NIBBLES;
    assert Holds(S, q, c, a) && Holds(S, q, c, b);
  }

  // ---- runs from a tree without branch nodes

  const NONE: Key -> BranchNode := _ => NoBranch

  function Bare(root: Cell, touched: bool, rows: seq<Row>): Tree { Tree(root, true, touched, true, rows, map[]) }

  lemma {:induction false} FullPrefix(key: Key, down: Key, n: nat, i: nat)
    requires i <= n <= |down| && n <= |key| && key[..n] == down[..n]
    ensures CommonPrefixLen(key, 0, down, n, i) == n
    decreases n - i
  {
    if i < n {
      assert key[i] == key[..n][i] == down[..n][i];
      FullPrefix(key, down, n, i + 1);
    }
  }

  /** A storage item is updated, and its account is not there: no cell has it where it is looked for. */
  lemma ItemAlone(s: Key) returns (tr: Trace)
    requires Item(s)
    ensures var job := Job(NONE, Bare(EMPTY, false, []), [s], [false]);
      Begins(job) && AllApart(job) && !Owned(job) && Complete(job, tr) &&
      !Stands(NodesAfter(job, tr), RootAfter(job, tr), HeldSet(job, 1))
  {
    var t := Bare(EMPTY, false, []);
    var job := Job(NONE, t, [s], [false]);
    assert UnfoldTo(t, s, NONE) == Some(t);
    tr := Trace([t, Change(t, s, false)], [t]);
    assert StepAt(job, tr, 0);
    assert HeldSet(job, 0) == iset{} && HeldSet(job, 1) == iset{s};
    assert !Owned(job);
    KeysExactly(job, tr);
  }

  lemma TwoSteps(job: Job, tr: Trace)
    requires Ready(job) && |job.keys| == 2 == |tr.arrivals| && |tr.trees| == 3 && tr.trees[0] == job.start
    requires StepAt(job, tr, 0) && StepAt(job, tr, 1) && TreeOk(tr.trees[2])
    ensures Complete(job, tr)
  {
    forall n: nat | n < |tr.arrivals| ensures StepAt(job, tr, n) {
      assert n == 0 || n == 1;
    }
  }

  /** An account in a tree of its own. */
  function Leaf(a: Key): Cell { Cell(a, false, [], Some(a), None) }

  /** The row at the last nibble of an account. */
  function LeafRow(a: Key): Row
    requires Account(a)
  {
    CellRow([], Leaf(a), ACCOUNT_NIBBLES, true, true)
  }

  /** Another key with the same first nibbles gets there. */
  lemma LeafUnfolds(a: Key, key: Key)
    requires Account(a) && KeyOk(key) && a[..ACCOUNT_NIBBLES - 1] == key[..ACCOUNT_NIBBLES - 1]
    requires |key| == ACCOUNT_NIBBLES
    ensures var t := Bare(Leaf(a), true, []);
      TreeOk(t) && Ahead(t, key) && UnfoldTo(t, key, NONE) == Some(Bare(Leaf(a), true, [LeafRow(a)]))
  {
    var t := Bare(Leaf(a), true, []);
    FullPrefix(key, a, ACCOUNT_NIBBLES - 1, 0);
    assert NeedUnfolding(t, key) == ACCOUNT_NIBBLES;
    UnfoldingOk(t, key);
    UnfoldOk(t, key, ACCOUNT_NIBBLES, NONE);
    var u := Bare(Leaf(a), true, [LeafRow(a)]);
    assert [] + [LeafRow(a)] == [LeafRow(a)] && Pushed(t, LeafRow(a)) == u;
    assert NeedUnfolding(u, key) == 0;
  }

  /** What two accounts that agree in all but the last nibble leave of the first one's row. */
  function SharedRow(a: Key, b: Key): Row
    requires Account(a) && Account(b)
  {
    var row, x := LeafRow(a), b[ACCOUNT_NIBBLES - 1];
    row.(cells := row.cells[x := Keyed(EMPTY, ACCOUNT_NIBBLES, b)], touch := Or(row.touch, Only(x)),
         after := row.after[x := true])
  }

  lemma LeafArrives(a: Key, key: Key, last: Key)
    requires Account(a) && Account(key) && a[..ACCOUNT_NIBBLES - 1] == key[..ACCOUNT_NIBBLES - 1]
    ensures var t, u := Bare(Leaf(a), true, []), Bare(Leaf(a), true, [LeafRow(a)]);
      Arrived(u, key) && TreeOk(t) && Between(t, last, key) && Arrive(t, last, key, NONE) == Some(u)
  {
    LeafUnfolds(a, key);
    UnfoldedOk(Bare(Leaf(a), true, []), key, NONE);
  }

  lemma LastDiffers(a: Key, b: Key)
    requires Account(a) && Account(b) && a != b && a[..ACCOUNT_NIBBLES - 1] == b[..ACCOUNT_NIBBLES - 1]
    ensures a[ACCOUNT_NIBBLES - 1] != b[ACCOUNT_NIBBLES - 1]
  {
    var n := ACCOUNT_NIBBLES - 1;
    assert a == a[..n] + [a[n]] && b == b[..n] + [b[n]];
  }

  lemma SharedStep(a: Key, b: Key)
    requires Account(a) && Account(b) && a != b && a[..ACCOUNT_NIBBLES - 1] == b[..ACCOUNT_NIBBLES - 1]
    ensures var u := Bare(Leaf(a), true, [LeafRow(a)]);
      Arrived(u, b) && Change(u, b, false) == Bare(Leaf(a), true, [SharedRow(a, b)])
  {
    LeafArrives(a, b, a);
    var u := Bare(Leaf(a), true, [LeafRow(a)]);
    assert u.rows[0 := SharedRow(a, b)] == [SharedRow(a, b)];
    LastDiffers(a, b);
    PlaceOk(u, b);
  }

  lemma SharedFold(a: Key, b: Key)
    requires Account(a) && Account(b) && a != b && a[..ACCOUNT_NIBBLES - 1] == b[..ACCOUNT_NIBBLES - 1]
    ensures var t := Bare(Leaf(a), true, [SharedRow(a, b)]);
      TreeOk(t) && FoldAll(t).root == Cell(a[..ACCOUNT_NIBBLES - 1], true, a[..ACCOUNT_NIBBLES - 1], Some(a), None)
  {
    SharedStep(a, b);
    LastDiffers(a, b);
    var t, row := Bare(Leaf(a), true, [SharedRow(a, b)]), SharedRow(a, b);
    assert row.after[a[ACCOUNT_NIBBLES - 1]] && row.after[b[ACCOUNT_NIBBLES - 1]];
    SomeOne(row.after, 16);
    if Ones16(row.after, 16) == 1 {
      OnlyOne(row.after, 16, a[ACCOUNT_NIBBLES - 1], b[ACCOUNT_NIBBLES - 1]);
    }
    assert row.path[0..] == a[..ACCOUNT_NIBBLES - 1];
    FoldOk(t);
    assert FoldAll(Fold(t)) == Fold(t);
  }

  function SharedJob(a: Key, b: Key): Job { Job(NONE, Bare(EMPTY, false, []), [a, b], [false, false]) }

  lemma SharedKeys(a: Key, b: Key)
    requires Account(a) && Account(b) && a != b && a[..ACCOUNT_NIBBLES - 1] == b[..ACCOUNT_NIBBLES - 1]
    ensures var job := SharedJob(a, b);
      HeldSet(job, 0) == iset{} && HeldSet(job, 1) == iset{a} && HeldSet(job, 2) == iset{a, b} && !AllApart(job)
  {
    var job := SharedJob(a, b);
    assert HeldSet(job, 0) == iset{};
    assert HeldSet(job, 1) == iset{a};
    assert HeldSet(job, 2) == iset{a, b};
    assert Two(HeldSet(job, 2), a[..ACCOUNT_NIBBLES - 1]);
  }

  ghost function SharedTrace(a: Key, b: Key): Trace
    requires Account(a) && Account(b)
  {
    var t, u := Bare(EMPTY, false, []), Bare(Leaf(a), true, [LeafRow(a)]);
    Trace([t, Bare(Leaf(a), true, []), Bare(Leaf(a), true, [SharedRow(a, b)])], [t, u])
  }

  lemma FirstStep(a: Key)
    requires Account(a)
    ensures var t := Bare(EMPTY, false, []);
      Arrived(t, a) && UnfoldTo(t, a, NONE) == Some(t) && Change(t, a, false) == Bare(Leaf(a), true, [])
  {
    assert a[0..] == a;
  }

  lemma SharedSteps(a: Key, b: Key)
    requires Account(a) && Account(b) && a != b && a[..ACCOUNT_NIBBLES - 1] == b[..ACCOUNT_NIBBLES - 1]
    ensures StepAt(SharedJob(a, b), SharedTrace(a, b), 0) && StepAt(SharedJob(a, b), SharedTrace(a, b), 1)
  {
    FirstStep(a);
    LeafArrives(a, b, a);
    SharedStep(a, b);
  }

  lemma SharedReady(a: Key, b: Key)
    requires Account(a) && Account(b) && Less(a, b)
    ensures a != b && Ready(SharedJob(a, b))
  {
    LessAsymmetric(a, b);
  }

  lemma SharedRun(a: Key, b: Key)
    requires Account(a) && Account(b) && Less(a, b) && a[..ACCOUNT_NIBBLES - 1] == b[..ACCOUNT_NIBBLES - 1]
    ensures Complete(SharedJob(a, b), SharedTrace(a, b))
  {
    SharedReady(a, b);
    SharedSteps(a, b);
    SharedFold(a, b);
    TwoSteps(SharedJob(a, b), SharedTrace(a, b));
  }

  /** Two accounts that agree in all but the last nibble come into an empty tree: the second one is lost. */
  lemma SharedLost(a: Key, b: Key)
    requires Account(a) && Account(b) && Less(a, b) && a[..ACCOUNT_NIBBLES - 1] == b[..ACCOUNT_NIBBLES - 1]
    ensures var job, tr := SharedJob(a, b), SharedTrace(a, b);
      Begins(job) && Owned(job) && !AllApart(job) && Complete(job, tr) &&
      b in HeldSet(job, 2) && !Holds(NodesAfter(job, tr), [], RootAfter(job, tr), b)
  {
    LessAsymmetric(a, b);
    SharedRun(a, b);
    SharedKeys(a, b);
    SharedFold(a, b);
  }

  // ---- a storage item of an account that is deleted in the same run

  function GoneRow(a: Key): Row
    requires Account(a)
  {
    var row, x := LeafRow(a), a[ACCOUNT_NIBBLES - 1];
    row.(touch := Or(row.touch, Only(x)), after := row.after[x := false])
  }

  function BackRow(a: Key, s: Key): Row
    requires Account(a) && Item(s)
  {
    var row, x := GoneRow(a), a[ACCOUNT_NIBBLES - 1];
    row.(cells := row.cells[x := Cell(s[ACCOUNT_NIBBLES..], false, [], Some(a), Some(s))],
         touch := Or(row.touch, Only(x)), after := row.after[x := true])
  }

  lemma GoneStep(a: Key)
    requires Account(a)
    ensures var u := Bare(Leaf(a), true, [LeafRow(a)]);
      Arrived(u, a) && Change(u, a, true) == Bare(Leaf(a), true, [GoneRow(a)])
  {
    LeafArrives(a, a, []);
    var u, row, x := Bare(Leaf(a), true, [LeafRow(a)]), LeafRow(a), a[ACCOUNT_NIBBLES - 1];
    PlaceOk(u, a);
    assert row.cells[x := row.cells[x]] == row.cells;
    assert u.rows[0 := GoneRow(a)] == [GoneRow(a)];
  }

  lemma BackStep(a: Key, s: Key)
    requires Account(a) && Item(s) && a <= s
    ensures var u := Bare(Leaf(a), true, [GoneRow(a)]);
      TreeOk(u) && Between(u, a, s) && Arrive(u, a, s, NONE) == Some(u) &&
      Arrived(u, s) && Change(u, s, false) == Bare(Leaf(a), true, [BackRow(a, s)])
  {
    GoneStep(a);
    var u, x := Bare(Leaf(a), true, [GoneRow(a)]), a[ACCOUNT_NIBBLES - 1];
    PrefixLess(a, s);
    assert Current(u) == a[..ACCOUNT_NIBBLES - 1] && Current(u) <= s && s[ACCOUNT_NIBBLES - 1] == x;
    PlaceOk(u, s);
    assert NeedUnfolding(u, s) == 0;
    assert u.rows[0 := BackRow(a, s)] == [BackRow(a, s)];
  }

  lemma BackFold(a: Key, s: Key)
    requires Account(a) && Item(s) && a <= s
    ensures var t := Bare(Leaf(a), true, [BackRow(a, s)]); TreeOk(t) && FoldAll(t).root.account == Some(a)
  {
    BackStep(a, s);
    var t, row := Bare(Leaf(a), true, [BackRow(a, s)]), BackRow(a, s);
    OnesOf(a[ACCOUNT_NIBBLES - 1], 16);
    assert row.after == Only(a[ACCOUNT_NIBBLES - 1]);
    SomeOne(row.after, 16);
    FoldOk(t);
    assert FoldAll(Fold(t)) == Fold(t);
  }

  function BackJob(a: Key, s: Key): Job { Job(NONE, Bare(Leaf(a), true, []), [a, s], [true, false]) }

  ghost function BackTrace(a: Key, s: Key): Trace
    requires Account(a) && Item(s)
  {
    var t, u, v := Bare(Leaf(a), true, []), Bare(Leaf(a), true, [LeafRow(a)]), Bare(Leaf(a), true, [GoneRow(a)]);
    Trace([t, v, Bare(Leaf(a), true, [BackRow(a, s)])], [u, v])
  }

  lemma BackSteps(a: Key, s: Key)
    requires Account(a) && Item(s) && a <= s
    ensures StepAt(BackJob(a, s), BackTrace(a, s), 0) && StepAt(BackJob(a, s), BackTrace(a, s), 1)
  {
    LeafArrives(a, a, []);
    GoneStep(a);
    BackStep(a, s);
  }

  lemma BackReady(a: Key, s: Key)
    requires Account(a) && Item(s) && a <= s
    ensures Ready(BackJob(a, s))
  {
    PrefixLess(a, s);
  }

  lemma BackRun(a: Key, s: Key)
    requires Account(a) && Item(s) && a <= s
    ensures Complete(BackJob(a, s), BackTrace(a, s))
  {
    BackReady(a, s);
    BackSteps(a, s);
    BackFold(a, s);
    TwoSteps(BackJob(a, s), BackTrace(a, s));
  }

  /** A storage item is updated after its account was deleted: the account is there again. */
  lemma AccountBack(a: Key, s: Key)
    requires Account(a) && Item(s) && a <= s
    ensures var job, tr := BackJob(a, s), BackTrace(a, s);
      Begins(job) && !Owned(job) && Complete(job, tr) &&
      a !in HeldSet(job, 2) && Holds(NodesAfter(job, tr), [], RootAfter(job, tr), a)
  {
    var job := BackJob(a, s);
    BackRun(a, s);
    BackFold(a, s);
    assert a !in HeldSet(job, 1);
    assert s[..ACCOUNT_NIBBLES] == a && job.keys[1] == s;
    assert [] + a == a;
  }

  // ---- the root for the next run

  /** A tree that was never reset: its root is not marked as present, also when there is a branch node for it. */
  predicate Fresh(t: Tree) {
    !t.rootPresent && if t.rows == [] then t.root == EMPTY && !t.rootChecked else t.rows[0].path == []
  }

  lemma {:induction false} FoldToFresh(t: Tree, key: Key)
    requires TreeOk(t) && Fresh(t)
    ensures Fresh(FoldTo(t, key))
    decreases |t.rows|
  {
    if NeedFolding(t, key) {
      FoldOk(t);
      assert Fold(t).rows[0].path == t.rows[0].path;
      FoldToFresh(Fold(t), key);
    }
  }

  lemma {:induction false} UnfoldToFresh(t: Tree, key: Key, branchFn: Key -> BranchNode)
    requires TreeOk(t) && Ahead(t, key) && BranchesOk(branchFn) && Fresh(t) && branchFn([]).BranchNode?
    ensures var u := UnfoldTo(t, key, branchFn); u.Some? ==> Fresh(u.value) && u.value.rows != []
    decreases STORAGE_NIBBLES - Depth(t), !t.rootChecked
  {
    var n := NeedUnfolding(t, key);
    UnfoldingOk(t, key);
    if n > 0 {
      UnfoldOk(t, key, n, branchFn);
      var u := Unfold(t, key, n, branchFn);
      if u.Some? {
        UnfoldToFresh(u.value, key, branchFn);
      }
    }
  }

  lemma FreshStep(job: Job, tr: Trace, n: nat)
    requires Through(job, tr) && n < |tr.arrivals| && job.branchFn([]).BranchNode? && Fresh(tr.trees[n])
    ensures Fresh(tr.trees[n + 1])
  {
    assert StepAt(job, tr, n);
    var t, key := tr.trees[n], job.keys[n];
    FoldToFresh(t, key);
    FoldedAhead(t, Before(job, n), key);
    UnfoldToFresh(FoldTo(t, key), key, job.branchFn);
    ChangeDiffers(tr.arrivals[n], key, job.deleted[n]);
  }

  lemma {:induction false} FreshTrace(job: Job, tr: Trace, n: nat)
    requires Through(job, tr) && n <= |tr.arrivals| && job.branchFn([]).BranchNode? && Fresh(job.start)
    ensures Fresh(tr.trees[n])
  {
    if n > 0 {
      FreshTrace(job, tr, n - 1);
      FreshStep(job, tr, n - 1);
    }
  }

  lemma {:induction false} FoldAllAbsent(t: Tree)
    requires TreeOk(t) && !t.rootPresent
    ensures !FoldAll(t).rootPresent
    decreases |t.rows|
  {
    if t.rows != [] {
      FoldOk(t);
      FoldAllAbsent(Fold(t));
    }
  }

  /** A run from such a tree leaves it so. */
  lemma FreshStays(job: Job, tr: Trace)
    requires Complete(job, tr) && job.branchFn([]).BranchNode? && Fresh(job.start)
    ensures !Result(job, tr).rootPresent
  {
    FreshTrace(job, tr, |job.keys|);
    FoldAllAbsent(tr.trees[|job.keys|]);
  }

  /** The next run unfolds the root, and all keys come as deleted. */
  lemma FreshDrops(t: Tree, key: Key, branchFn: Key -> BranchNode)
    requires TreeOk(t) && t.rows == [] && t.root == BRANCH && t.rootTouched && !t.rootPresent && KeyOk(key)
    requires BranchesOk(branchFn) && branchFn([]).BranchNode?
    ensures Ahead(t, key) && NeedUnfolding(t, key) == 1 && Unfolds(t, key, 1)
    ensures var u := Unfold(t, key, 1, branchFn); u.Some? && u.value.rows != [] && NoneLeft(Last(u.value))
  {
    UnfoldingOk(t, key);
  }

  /** When the branch node at the root comes down to one account, the root does not lead to it any more. */
  lemma StaleRoot(up: Cell, row: Row, x: nat, a: Key)
    requires Account(a) && up.down == [] && row.path == [] && |row.cells| == 16 && x < 16 && row.after == Only(x)
    requires row.cells[x] == Leaf(a).(down := a[1..])
    ensures FoldedInto(up, 0, row) == Leaf(a).(down := [])
    ensures FoldedInto(up, 0, row).down != Tip([], FoldedInto(up, 0, row))
  {
    OnesOf(x, 16);
    SomeOne(row.after, 16);
  }

  /** The next account then takes its place. */
  lemma RootForgets(t: Tree, a: Key, b: Key)
    requires TreeOk(t) && t.rows == [] && t.rootChecked && t.root == Leaf(a).(down := []) && Account(a) && Account(b)
    ensures Arrived(t, b) && NeedUnfolding(t, b) == 0 && Change(t, b, false).root == Leaf(b)
  {
    assert b[0..] == b;
  }
}
