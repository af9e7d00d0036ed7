/**
 * The keys of the tree over a whole run: they are the old ones, with those that are updated, and without those that are
 * deleted and what is below them. Every branch node that the root leads to afterwards is there.
 */
module HexKeys {
  import opened Options
  import opened ByteKeys
  import opened BranchBytes
  import opened HexCursor
  import opened HexRun
  import opened HexReach
  import opened HexStore
  import opened HexHeld
  import opened HexKept
  import opened HexGrown
  import opened HexChanged

  /** The keys of the tree before key n. */
  ghost function HeldSet(job: Job, n: nat): iset<Key>
    requires n <= |job.keys| == |job.deleted|
  {
    if n == 0 then iset k: Key | Holds(job.branchFn, [], RootOf(job.branchFn, job.start), k)
    else After(HeldSet(job, n - 1), job.keys[n - 1], job.deleted[n - 1])
  }

  /** At no time two accounts agree in all but the last nibble. */
  ghost predicate AllApart(job: Job)
    requires |job.keys| == |job.deleted|
  {
    forall n: nat {:trigger HeldSet(job, n)} :: n <= |job.keys| ==> Apart(HeldSet(job, n))
  }

  /** A storage item is updated only when its account is there. */
  ghost predicate Owned(job: Job)
    requires |job.keys| == |job.deleted|
  {
    forall n: nat {:trigger HeldSet(job, n)} :: n < |job.keys| ==>
        job.deleted[n] || |job.keys[n]| != STORAGE_NIBBLES || job.keys[n][..ACCOUNT_NIBBLES] in HeldSet(job, n)
  }

  /** The tree before the run: no root, or one whose branch nodes are there. */
  ghost predicate Begins(job: Job) {
    Ready(job) && var c := RootOf(job.branchFn, job.start);
      c == EMPTY || (Sound(job.branchFn, [], c) && Steers(job.keys, 0, [], c) && Live(job, job.start))
  }

  // ---- the start

  lemma {:induction false} HoldsKind(S: Key -> BranchNode, q: Key, c: Cell, k: Key)
    requires Sound(S, q, c) && Holds(S, q, c, k)
    ensures (Account(k) || Item(k)) && (Item(k) && |q| <= ACCOUNT_NIBBLES ==> Holds(S, q, c, k[..ACCOUNT_NIBBLES]))
    decreases |k| - |q|
  {
    if c.account != Some(k) && c.storage != Some(k) {
      var p := NodeOf(q, c);
      assert LeadsTo(S, q, c, p) && NodeOk(S, p);
      var n := k[|p|];
      ChildSound(S, q, c, p, n);
      HoldsKind(S, p + [n], S(p).cells[n], k);
      if Item(k) && |q| <= ACCOUNT_NIBBLES {
        var a := k[..ACCOUNT_NIBBLES];
        if c.account.Some? {
          assert c.account.value == a;
        } else {
          assert p <= a && a[|p|] == n;
          assert NodeHolds(S, p, a);
        }
      }
    }
  }

  /** Nodes that are the same everywhere. */
  lemma KeptSame(S: Key -> BranchNode, S': Key -> BranchNode, E: iset<Key>, c: Cell)
    requires Sound(S, [], c) && (forall p :: S(p) == S'(p)) && E == iset k: Key | Holds(S, [], c, k)
    ensures Kept(S', E, [], c)
  {
    forall p | LeadsTo(S', [], c, p) ensures NodeOk(S', p) {
      LeadsFrame(S, S', p + [0], [], c, p);
      assert NodeOk(S, p);
    }
    forall k: Key ensures k in E <==> Holds(S', [], c, k) {
      HoldsFrame(S, S', k + [0], [], c, k);
    }
  }

  lemma StartGood(job: Job)
    requires Begins(job) && AllApart(job)
    ensures Good(job, 0, HeldSet(job, 0), job.start)
  {
    var c, E := RootOf(job.branchFn, job.start), HeldSet(job, 0);
    StartKeeps(job);
    forall k: Key | k in E ensures Account(k) || (Item(k) && k[..ACCOUNT_NIBBLES] in E) {
      HoldsKind(job.branchFn, [], c, k);
    }
    if c != EMPTY {
      KeptSame(job.branchFn, Nodes(job, job.start), E, c);
    }
  }

  // ---- every key

  lemma {:induction false} FoldToGood(job: Job, n: nat, E: iset<Key>, t: Tree)
    requires Good(job, n, E, t) && n < |job.keys| && OnTrack(job, n, t)
    ensures Good(job, n, E, FoldTo(t, job.keys[n]))
    decreases |t.rows|
  {
    if NeedFolding(t, job.keys[n]) {
      Passed(job.keys, n, Current(t));
      assert Behind(job, n, Current(t));
      FoldGood(job, n, E, t);
      FoldCurrent(t);
      FoldOk(t);
      FoldToGood(job, n, E, Fold(t));
    }
  }

  lemma {:induction false} UnfoldToGood(job: Job, n: nat, E: iset<Key>, t: Tree)
    requires Good(job, n, E, t) && n < |job.keys| && Ahead(t, job.keys[n]) && BranchesOk(job.branchFn)
    ensures var u := UnfoldTo(t, job.keys[n], job.branchFn);
      u.Some? ==> Good(job, n, E, u.value) && Done(u.value, job.keys[n])
    decreases STORAGE_NIBBLES - Depth(t), !t.rootChecked
  {
    var key := job.keys[n];
    var m := NeedUnfolding(t, key);
    UnfoldingOk(t, key);
    if m > 0 {
      UnfoldOk(t, key, m, job.branchFn);
      UnfoldGood(job, n, E, t, m);
      var u := Unfold(t, key, m, job.branchFn);
      if u.Some? {
        UnfoldToGood(job, n, E, u.value);
      }
    }
  }

  lemma StepGood(job: Job, tr: Trace, n: nat, E: iset<Key>)
    requires Through(job, tr) && n < |tr.arrivals| && Good(job, n, E, tr.trees[n])
    requires RegularAt(E, job.keys[n], job.deleted[n])
    ensures Good(job, n + 1, After(E, job.keys[n], job.deleted[n]), tr.trees[n + 1])
  {
    Tracks(job, tr, n);
    assert StepAt(job, tr, n);
    FoldToGood(job, n, E, tr.trees[n]);
    FoldedAhead(tr.trees[n], Before(job, n), job.keys[n]);
    UnfoldToGood(job, n, E, FoldTo(tr.trees[n], job.keys[n]));
    ChangeGood(job, n, E, tr.arrivals[n]);
  }

  lemma StepRegular(job: Job, n: nat)
    requires n < |job.keys| == |job.deleted| && AllApart(job) && Owned(job)
    ensures RegularAt(HeldSet(job, n), job.keys[n], job.deleted[n])
  {
    assert HeldSet(job, n + 1) == After(HeldSet(job, n), job.keys[n], job.deleted[n]);
  }

  /** Before every key the tree stands for the keys so far. */
  lemma {:induction false} TraceGood(job: Job, tr: Trace, n: nat)
    requires Through(job, tr) && Begins(job) && AllApart(job) && Owned(job) && n <= |tr.arrivals|
    ensures Good(job, n, HeldSet(job, n), tr.trees[n])
  {
    if n == 0 {
      StartGood(job);
    } else {
      TraceGood(job, tr, n - 1);
      StepRegular(job, n - 1);
      StepGood(job, tr, n - 1, HeldSet(job, n - 1));
    }
  }

  lemma {:induction false} FoldAllStands(job: Job, E: iset<Key>, t: Tree)
    requires Good(job, |job.keys|, E, t) && OnTrack(job, |job.keys|, t)
    ensures RootStands(job, |job.keys|, E, FoldAll(t)) && UpdatesStand(job, |job.keys|, E, FoldAll(t).updates)
    decreases |t.rows|
  {
    var n := |job.keys|;
    assert t.rows != [] ==> Behind(job, n, Current(t));
    if |t.rows| == 1 {
      FoldToRoot(job, n, E, t);
      FoldUpdates(job, n, E, t);
    } else if |t.rows| > 1 {
      FoldGood(job, n, E, t);
      FoldCurrent(t);
      FoldOk(t);
      FoldAllStands(job, E, Fold(t));
    }
  }

  /** The branch nodes after the run. */
  ghost function NodesAfter(job: Job, tr: Trace): Key -> BranchNode
    requires Complete(job, tr)
  {
    Stored(job.branchFn, Result(job, tr).updates)
  }

  /** The root that the run leaves, or the branch node that it stands for. */
  ghost function RootAfter(job: Job, tr: Trace): Cell
    requires Complete(job, tr)
  {
    RootOf(NodesAfter(job, tr), Result(job, tr))
  }

  lemma RunStands(job: Job, tr: Trace)
    requires Complete(job, tr) && Begins(job) && AllApart(job) && Owned(job)
    ensures var n := |job.keys|; var E, t := HeldSet(job, n), Result(job, tr);
      RootStands(job, n, E, t) && UpdatesStand(job, n, E, t.updates)
  {
    var n := |job.keys|;
    TraceGood(job, tr, n);
    Tracks(job, tr, n);
    FoldAllStands(job, HeldSet(job, n), tr.trees[n]);
  }

  /** The cell at the root stands for the keys, and all its branch nodes are there. */
  ghost predicate Stands(S: Key -> BranchNode, c: Cell, E: iset<Key>) {
    && (forall k: Key {:trigger k in E} {:trigger Holds(S, [], c, k)} :: Holds(S, [], c, k) <==> k in E)
    && (c == EMPTY || Sound(S, [], c))
  }

  /**
   * The keys of the tree after the run are the old ones, with the updated ones and without the deleted ones, and every
   * branch node that the root leads to is there. An update lists a child exactly if there is a key below it, and one
   * below another child.
   */
  lemma KeysAfter(job: Job, tr: Trace)
    requires Complete(job, tr) && Begins(job) && AllApart(job) && Owned(job)
    ensures Stands(NodesAfter(job, tr), RootAfter(job, tr), HeldSet(job, |job.keys|))
    ensures var updates := Result(job, tr).updates;
      forall p: Key {:trigger p in updates} :: p in updates ==> Lists(HeldSet(job, |job.keys|), p, updates[p].after)
  {
    RunStands(job, tr);
  }

  /** No key changes the account of an earlier one. */
  lemma {:induction false} AccountStays(job: Job, i: nat, n: nat, a: Key)
    requires i <= n <= |job.keys| == |job.deleted| && Ascending(job.keys) && i < |job.keys|
    requires a <= job.keys[i] && |a| < |job.keys[i]| && a in HeldSet(job, n)
    ensures a in HeldSet(job, i)
    decreases n
  {
    if i < n {
      var m := n - 1;
      assert i < m ==> Less(job.keys[i], job.keys[m]);
      if a == job.keys[m] {
        PrefixLess(a, job.keys[i]);
        LessAsymmetric(a, job.keys[i]);
      }
      AccountStays(job, i, m, a);
    }
  }

  ghost predicate KeysStand(job: Job, tr: Trace)
    requires Complete(job, tr)
  {
    Stands(NodesAfter(job, tr), RootAfter(job, tr), HeldSet(job, |job.keys|))
  }

  /** It does so exactly if every storage item that is updated has its account. */
  lemma KeysExactly(job: Job, tr: Trace)
    requires Complete(job, tr) && Begins(job) && AllApart(job)
    ensures Owned(job) <==> KeysStand(job, tr)
  {
    if Owned(job) {
      KeysAfter(job, tr);
    }
    var n, S, c := |job.keys|, NodesAfter(job, tr), RootAfter(job, tr);
    if Stands(S, c, HeldSet(job, n)) {
      forall i: nat | i < n && !job.deleted[i] && |job.keys[i]| == STORAGE_NIBBLES
        ensures job.keys[i][..ACCOUNT_NIBBLES] in HeldSet(job, i)
      {
        HeldExactly(job, n, job.keys[i]);
        assert job.keys[i] in HeldSet(job, n) && KeyOk(job.keys[i]);
        HoldsKind(S, [], c, job.keys[i]);
        AccountStays(job, i, n, job.keys[i][..ACCOUNT_NIBBLES]);
      }
    }
  }

  /** A run that comes to its end. */
  lemma Ends(job: Job, tr: Trace)
    requires Complete(job, tr)
    ensures Rooted(job.branchFn, job.start) ==> NoneMissing(job)
    ensures Begins(job) && AllApart(job) ==> (Owned(job) <==> KeysStand(job, tr))
  {
    if Rooted(job.branchFn, job.start) {
      CompletesIff(job);
    }
    if Begins(job) && AllApart(job) {
      KeysExactly(job, tr);
    }
  }

  // ---- the keys after the run from the list of keys

  /** The key is in the list. */
  ghost predicate Listed(job: Job, n: nat, k: Key)
    requires n <= |job.keys|
  {
    exists i :: 0 <= i < n && job.keys[i] == k
  }

  /** The keys that are listed are there exactly if they are not deleted, the others as before unless they are below a
      deleted one. */
  lemma {:induction false} HeldExactly(job: Job, n: nat, k: Key)
    requires n <= |job.keys| == |job.deleted| && Ascending(job.keys)
    ensures forall i :: 0 <= i < n && job.keys[i] == k ==> (k in HeldSet(job, n) <==> !job.deleted[i])
    ensures !Listed(job, n, k) ==> (k in HeldSet(job, n) <==> k in HeldSet(job, 0) && !Dead(job, n, k))
  {
    if n > 0 {
      var m, key := n - 1, job.keys[n - 1];
      HeldExactly(job, m, k);
      forall i | 0 <= i < m && job.keys[i] == k ensures !(key <= k) {
        assert Less(k, key);
        LessIrreflexive(key);
        if key <= k {
          PrefixLess(key, k);
          LessAsymmetric(k, key);
        }
      }
      assert !Listed(job, n, k) ==> !Listed(job, m, k) && key != k;
      assert Dead(job, n, k) <==> Dead(job, m, k) || (job.deleted[m] && key <= k);
    }
  }

  // ---- the next run

  /** What is read by the nibbles is what is stored. */
  lemma {:induction false} LeadsStored(S: Key -> BranchNode, q: Key, c: Cell, p: Key)
    requires Sound(S, q, c) && q + c.down == Tip(q, c) && Leads(S, q, c, p)
    ensures LeadsTo(S, q, c, p)
    decreases |p| - |q|
  {
    var w := NodeOf(q, c);
    DerivedTip(q, c);
    if w != p {
      assert LeadsTo(S, q, c, w);
      var n := p[|w|];
      ChildSound(S, q, c, w, n);
      LeadsStored(S, w + [n], S(w).cells[n], p);
    }
  }

  lemma AfterOk(job: Job, tr: Trace)
    requires Complete(job, tr) && Begins(job) && AllApart(job) && Owned(job)
    ensures BranchesOk(NodesAfter(job, tr))
  {
    RunStands(job, tr);
    var S, updates := NodesAfter(job, tr), Result(job, tr).updates;
    forall p: Key | S(p).BranchNode? ensures CellsFit(S(p).cells, |p| + 1) {
      if p in updates {
        var u := updates[p];
        forall n: nat | n < 16 ensures Fits(S(p).cells[n], |p| + 1) {
          assert u.bitmap[n] ==> Fits(ReadBack(p + [n], u.cells[n]), |p| + 1);
        }
      }
    }
  }

  /** The tree as the next run finds it. */
  ghost function NextStart(job: Job, tr: Trace): Tree
    requires Complete(job, tr)
  {
    Result(job, tr).(updates := map[])
  }

  /** The nibbles of the root lead to what is in it. */
  ghost predicate Steered(job: Job, tr: Trace)
    requires Complete(job, tr)
  {
    RootAfter(job, tr) == EMPTY || RootAfter(job, tr).down == Tip([], RootAfter(job, tr))
  }

  /** No branch node is missing for the next run, whatever its keys are. */
  lemma NextWhole(job: Job, tr: Trace)
    requires Complete(job, tr) && Begins(job) && AllApart(job) && Owned(job) && Steered(job, tr)
    ensures Whole(NodesAfter(job, tr), NextStart(job, tr))
  {
    RunStands(job, tr);
    var S, t, c := NodesAfter(job, tr), NextStart(job, tr), RootAfter(job, tr);
    forall p: Key | Needed(S, t, p) ensures S(p).BranchNode? {
      assert Leads(S, [], c, p);
      assert [] + c.down == c.down;
      LeadsStored(S, [], c, p);
      assert NodeOk(S, p);
    }
  }

  lemma NextKeys(job: Job, tr: Trace, keys: seq<Key>, deleted: seq<bool>)
    requires Complete(job, tr) && Begins(job) && AllApart(job) && Owned(job) && |keys| == |deleted|
    ensures HeldSet(Job(NodesAfter(job, tr), NextStart(job, tr), keys, deleted), 0) == HeldSet(job, |job.keys|)
  {
    KeysAfter(job, tr);
    var next := Job(NodesAfter(job, tr), NextStart(job, tr), keys, deleted);
    assert RootOf(next.branchFn, next.start) == RootAfter(job, tr);
    forall k: Key ensures k in HeldSet(next, 0) <==> k in HeldSet(job, |job.keys|) {
      assert k in HeldSet(next, 0) <==> Holds(NodesAfter(job, tr), [], RootAfter(job, tr), k);
    }
  }

  lemma NextLive(job: Job, tr: Trace, keys: seq<Key>, deleted: seq<bool>)
    requires Complete(job, tr) && Begins(job) && AllApart(job) && Owned(job) && Result(job, tr).rootPresent
    ensures Live(Job(NodesAfter(job, tr), NextStart(job, tr), keys, deleted), NextStart(job, tr))
  {
    RunStands(job, tr);
  }

  /** The next run can start where this one ended, with the same keys. */
  lemma NextBegins(job: Job, tr: Trace, keys: seq<Key>, deleted: seq<bool>)
    requires Complete(job, tr) && Begins(job) && AllApart(job) && Owned(job) && Steered(job, tr)
    requires Result(job, tr).rootPresent && Ascending(keys) && |keys| == |deleted|
    ensures var next := Job(NodesAfter(job, tr), NextStart(job, tr), keys, deleted);
      Begins(next) && NoneMissing(next) && Completes(next) && HeldSet(next, 0) == HeldSet(job, |job.keys|)
  {
    var next := Job(NodesAfter(job, tr), NextStart(job, tr), keys, deleted);
    KeysAfter(job, tr);
    AfterOk(job, tr);
    NextWhole(job, tr);
    NextKeys(job, tr, keys, deleted);
    NextLive(job, tr, keys, deleted);
    assert Ready(next);
    CompletesIff(next);
    assert [] + RootAfter(job, tr).down == RootAfter(job, tr).down;
  }

  /** What Reset leaves of a tree. */
  function WithoutRoot(t: Tree): Tree {
    t.(root := EMPTY, rootChecked := false, rootTouched := false, rootPresent := true)
  }

  /** After Reset the next run has the same keys if the root is the branch node at the empty path, and no keys if there is
      no such node. */
  lemma NextReset(job: Job, tr: Trace, keys: seq<Key>, deleted: seq<bool>)
    requires Complete(job, tr) && Begins(job) && AllApart(job) && Owned(job) && Ascending(keys) && |keys| == |deleted|
    ensures var next := Job(NodesAfter(job, tr), WithoutRoot(NextStart(job, tr)), keys, deleted);
      && (RootAfter(job, tr) == BRANCH ==> Begins(next) && HeldSet(next, 0) == HeldSet(job, |job.keys|))
      && (next.branchFn([]).NoBranch? ==> HeldSet(next, 0) == iset{})
  {
    var next := Job(NodesAfter(job, tr), WithoutRoot(NextStart(job, tr)), keys, deleted);
    var S, E := NodesAfter(job, tr), HeldSet(job, |job.keys|);
    KeysAfter(job, tr);
    AfterOk(job, tr);
    if RootAfter(job, tr) == BRANCH {
      assert LeadsTo(S, [], BRANCH, []) && NodeOk(S, []);
      assert RootOf(S, next.start) == BRANCH;
      forall k: Key ensures k in HeldSet(next, 0) <==> k in E {
        assert k in HeldSet(next, 0) <==> Holds(S, [], BRANCH, k);
      }
    }
  }
}
