/**
 * What the branch nodes hold: the branch nodes after some updates, the keys that are found in them through extensions
 * and plain keys, and when a cell is sound.
 */
module HexStore {
  import opened Options
  import opened ByteKeys
  import opened HexCursor

  // ---- cells as they are read

  /** deriveHashedKeys: the nibbles below a cell that is read at a place, from its keys and its extension. */
  function Derived(q: Key, c: Cell): Key {
    (if c.account.Some? && |q| <= |c.account.value| then c.account.value[|q|..] else []) +
        (if c.storage.None? then [] else if |q| >= ACCOUNT_NIBBLES then Drop(c.storage.value, |q|) else
           Drop(c.storage.value, ACCOUNT_NIBBLES)) + c.ext
  }

  function Drop(k: Key, n: nat): Key { if n <= |k| then k[n..] else [] }

  /** A cell that is written and read again: the extension of a cell with a storage item is not written. */
  function ReadBack(q: Key, c: Cell): Cell {
    var cell := if c.storage.None? then c else c.(ext := []);
    cell.(down := Derived(q, cell))
  }

  /** The node at p after the updates: the cells that were written, and as they were those that were not touched. */
  function StoredAt(branchFn: Key -> BranchNode, updates: map<Key, BranchUpdate>, p: Key): BranchNode {
    if p !in updates then branchFn(p)
    else
      var u := updates[p];
      if u.after == Nothing() || |u.cells| != 16 then NoBranch else BranchNode(u.after, StoredCells(branchFn(p), u, p))
  }

  function StoredCells(b: BranchNode, u: BranchUpdate, p: Key): (r: seq<Cell>)
    requires |u.cells| == 16
    ensures |r| == 16
    ensures forall n :: 0 <= n < 16 ==> r[n] == if u.bitmap[n] then ReadBack(p + [n], u.cells[n]) else OldCell(b, n)
  {
    seq(16, n requires 0 <= n < 16 => if u.bitmap[n] then ReadBack(p + [n], u.cells[n]) else OldCell(b, n))
  }

  function OldCell(b: BranchNode, n: nat): Cell {
    if b.BranchNode? && n < |b.cells| then b.cells[n] else EMPTY
  }

  /** All nodes after the updates. */
  function Stored(branchFn: Key -> BranchNode, updates: map<Key, BranchUpdate>): Key -> BranchNode {
    p => StoredAt(branchFn, updates, p)
  }

  // ---- the keys below a cell

  /** The branch node that a cell with a hash stands for: behind the account if it has one, as the root of its
      storage. */
  function NodeOf(q: Key, c: Cell): Key { if c.account.Some? then c.account.value + c.ext else q + c.ext }

  /** The key is in the cell at q or below it. */
  predicate Holds(S: Key -> BranchNode, q: Key, c: Cell, k: Key)
    decreases |k| - |q|
  {
    || c.account == Some(k) || c.storage == Some(k)
    || (c.hashed && q <= NodeOf(q, c) <= k && |NodeOf(q, c)| < |k| && NodeHolds(S, NodeOf(q, c), k))
  }

  predicate NodeHolds(S: Key -> BranchNode, p: Key, k: Key)
    requires p <= k && |p| < |k|
    decreases |k| - |p|, 0
  {
    var b, n := S(p), k[|p|];
    b.BranchNode? && |b.cells| == 16 && n < 16 && b.bitmap[n] && Holds(S, p + [n], b.cells[n], k)
  }

  /** The cell at q leads to the branch node at p. */
  predicate LeadsTo(S: Key -> BranchNode, q: Key, c: Cell, p: Key)
    decreases |p| - |q|
  {
    c.hashed && q <= NodeOf(q, c) <= p &&
        (NodeOf(q, c) == p || NodeLeads(S, NodeOf(q, c), p))
  }

  predicate NodeLeads(S: Key -> BranchNode, w: Key, p: Key)
    requires w <= p && w != p
    decreases |p| - |w|, 0
  {
    var b, n := S(w), p[|w|];
    b.BranchNode? && |b.cells| == 16 && n < 16 && b.bitmap[n] && LeadsTo(S, w + [n], b.cells[n], p)
  }

  // ---- sound cells

  predicate Account(k: Key) { |k| == ACCOUNT_NIBBLES && Nibbles(k) }

  predicate Item(k: Key) { |k| == STORAGE_NIBBLES && Nibbles(k) }

  /** What is in a cell belongs to its place: an account, a storage item with its account above it, or the hash of a
      branch node of accounts or of the storage of an account. */
  predicate Shape(q: Key, c: Cell) {
    && Nibbles(c.ext) && (c.account.Some? || c.storage.Some? || c.hashed)
    && (c.account.Some? ==> Account(c.account.value) && q <= c.account.value)
    && (c.storage.Some? ==> Item(c.storage.value) && q <= c.storage.value && !c.hashed)
    && (c.storage.Some? && |q| <= ACCOUNT_NIBBLES ==> c.account == Some(c.storage.value[..ACCOUNT_NIBBLES]))
    && (!c.hashed ==> c.ext == [])
    && (c.hashed ==>
        |NodeOf(q, c)| < if c.account.None? && |q| <= ACCOUNT_NIBBLES then ACCOUNT_NIBBLES else STORAGE_NIBBLES)
  }

  /** Where the nibbles below a cell lead: to its storage item, its branch node or its account. */
  function Tip(q: Key, c: Cell): Key {
    if c.storage.Some? then c.storage.value
    else if c.hashed then NodeOf(q, c)
    else if c.account.Some? then c.account.value
    else q
  }

  /** What is derived leads to the tip. */
  lemma DerivedTip(q: Key, c: Cell)
    requires Shape(q, c)
    ensures q <= Tip(q, c) && q + Derived(q, c) == Tip(q, c)
  {
    if c.account.Some? {
      assert q + c.account.value[|q|..] == c.account.value;
    }
    if c.storage.Some? {
      var s := c.storage.value;
      if |q| <= ACCOUNT_NIBBLES {
        assert s == s[..ACCOUNT_NIBBLES] + s[ACCOUNT_NIBBLES..];
      } else {
        assert q + s[|q|..] == s;
      }
    }
  }

  /** A branch node with at least two children, all of them sound and leading to their tips. */
  predicate NodeOk(S: Key -> BranchNode, p: Key) {
    var b := S(p);
    && b.BranchNode? && |b.cells| == 16 && Ones16(b.bitmap, 16) >= 2
    && forall n {:trigger b.cells[n]} :: 0 <= n < 16 && b.bitmap[n] ==>
      Shape(p + [n], b.cells[n]) && p + [n] + b.cells[n].down == Tip(p + [n], b.cells[n])
  }

  /** A cell whose branch nodes are all there. */
  ghost predicate Sound(S: Key -> BranchNode, q: Key, c: Cell) {
    Shape(q, c) && forall p {:trigger LeadsTo(S, q, c, p)} :: LeadsTo(S, q, c, p) ==> NodeOk(S, p)
  }

  lemma LeadsBehind(S: Key -> BranchNode, q: Key, c: Cell, p: Key)
    requires LeadsTo(S, q, c, p)
    ensures q <= NodeOf(q, c) <= p
  {
  }

  /** Below a branch node are those that its children lead to. */
  lemma {:induction false} LeadsDown(S: Key -> BranchNode, q: Key, c: Cell, p: Key, n: nat, w: Key)
    requires LeadsTo(S, q, c, p)
    requires S(p).BranchNode? && |S(p).cells| == 16 && n < 16 && S(p).bitmap[n] && LeadsTo(S, p + [n], S(p).cells[n], w)
    ensures LeadsTo(S, q, c, w)
    decreases |p| - |q|
  {
    var at := NodeOf(q, c);
    LeadsBehind(S, p + [n], S(p).cells[n], w);
    if at == p {
      assert w[|p|] == (p + [n])[|p|];
    } else {
      var m := p[|at|];
      assert w[|at|] == (p + [n])[|at|];
      LeadsDown(S, at + [m], S(at).cells[m], p, n, w);
    }
  }

  lemma ChildSound(S: Key -> BranchNode, q: Key, c: Cell, p: Key, n: nat)
    requires Sound(S, q, c) && LeadsTo(S, q, c, p) && n < 16 && S(p).BranchNode? && S(p).bitmap[n]
    ensures |S(p).cells| == 16 && Sound(S, p + [n], S(p).cells[n])
    ensures p + [n] + S(p).cells[n].down == Tip(p + [n], S(p).cells[n])
  {
    assert NodeOk(S, p);
    var d := S(p).cells[n];
    forall w | LeadsTo(S, p + [n], d, w) ensures NodeOk(S, w) {
      LeadsDown(S, q, c, p, n, w);
    }
  }

  // ---- nodes elsewhere do not matter

  /** The nodes are the same but for the one at r. */
  ghost predicate SameBut(S: Key -> BranchNode, S': Key -> BranchNode, r: Key) {
    forall p {:trigger S(p)} {:trigger S'(p)} :: p != r ==> S(p) == S'(p)
  }

  /** For keys that do not go through r, and for cells below r. */
  lemma {:induction false} HoldsFrame(S: Key -> BranchNode, S': Key -> BranchNode, r: Key, q: Key, c: Cell, k: Key)
    requires SameBut(S, S', r) && (!(r <= k) || |r| < |q|)
    ensures Holds(S, q, c, k) == Holds(S', q, c, k)
    decreases |k| - |q|
  {
    if c.hashed && q <= NodeOf(q, c) <= k && |NodeOf(q, c)| < |k| {
      var p := NodeOf(q, c);
      assert p != r;
      var n := k[|p|];
      if S(p).BranchNode? && |S(p).cells| == 16 && n < 16 {
        HoldsFrame(S, S', r, p + [n], S(p).cells[n], k);
      }
    }
  }

  lemma {:induction false} LeadsFrame(S: Key -> BranchNode, S': Key -> BranchNode, r: Key, q: Key, c: Cell, p: Key)
    requires SameBut(S, S', r) && (!(r <= p) || |r| < |q|)
    ensures LeadsTo(S, q, c, p) == LeadsTo(S', q, c, p)
    decreases |p| - |q|
  {
    if c.hashed && q <= NodeOf(q, c) <= p && NodeOf(q, c) != p {
      var w := NodeOf(q, c);
      var n := p[|w|];
      if S(w).BranchNode? && |S(w).cells| == 16 && n < 16 {
        LeadsFrame(S, S', r, w + [n], S(w).cells[n], p);
      }
    }
  }

  /** A sound cell that is not on the way to r stays sound. */
  lemma {:induction false} SoundFrame(S: Key -> BranchNode, S': Key -> BranchNode, r: Key, q: Key, c: Cell)
    requires SameBut(S, S', r) && Sound(S, q, c) && !(q <= r)
    ensures Sound(S', q, c)
  {
    forall p | LeadsTo(S', q, c, p) ensures NodeOk(S', p) {
      LeadsBehind(S', q, c, p);
      if r <= p {
        assert |r| < |q|;
      }
      LeadsFrame(S, S', r, q, c, p);
      assert NodeOk(S, p) && p != r;
    }
  }

  // ---- what is held is below

  lemma HeldBehind(S: Key -> BranchNode, q: Key, c: Cell, k: Key)
    requires Shape(q, c) && Holds(S, q, c, k)
    ensures q <= k && (c.account == Some(k) || Tip(q, c) <= k)
  {
    DerivedTip(q, c);
  }

  /** Some key is in every sound cell, and a storage item in one that goes on below an account. */
  lemma {:induction false} Inhabited(S: Key -> BranchNode, q: Key, c: Cell) returns (k: Key)
    requires Sound(S, q, c) && |q| <= STORAGE_NIBBLES
    ensures Holds(S, q, c, k) && (Account(k) || Item(k)) && q <= k
    ensures (c.storage.Some? || c.hashed) && (|q| >= ACCOUNT_NIBBLES || c.account.Some?) ==> Item(k)
    decreases STORAGE_NIBBLES - |q|
  {
    if c.storage.Some? {
      k := c.storage.value;
    } else if c.hashed {
      DerivedTip(q, c);
      var p := NodeOf(q, c);
      assert LeadsTo(S, q, c, p) && NodeOk(S, p);
      SomeOne(S(p).bitmap, 16);
      var n :| 0 <= n < 16 && S(p).bitmap[n];
      ChildSound(S, q, c, p, n);
      k := Inhabited(S, p + [n], S(p).cells[n]);
      assert k[|p|] == (p + [n])[|p|] == n;
    } else {
      k := c.account.value;
    }
  }

  // ---- cells that move up and down

  /** The cell stands for the keys at and below its place. */
  ghost predicate Kept(S: Key -> BranchNode, E: iset<Key>, q: Key, c: Cell) {
    Sound(S, q, c) && forall k: Key {:trigger k in E} {:trigger Holds(S, q, c, k)} :: q <= k ==>
        (k in E <==> Holds(S, q, c, k))
  }

  /** The cell d at w is what the cell c at q has below it. */
  predicate Carries(q: Key, c: Cell, w: Key, d: Cell) {
    && q <= w && Shape(q, c) && Shape(w, d) && c.hashed == d.hashed && c.storage == d.storage
    && (c.hashed ==> NodeOf(q, c) == NodeOf(w, d))
    && (c.account == d.account || (c.account == Some(q) && d.account == None && w != q))
  }

  lemma CarriesAlike(S: Key -> BranchNode, q: Key, c: Cell, w: Key, d: Cell, k: Key)
    requires Carries(q, c, w, d)
    ensures LeadsTo(S, q, c, k) == LeadsTo(S, w, d, k)
    ensures Holds(S, q, c, k) == (Holds(S, w, d, k) || (c.account == Some(q) && k == q))
  {
    DerivedTip(q, c);
    DerivedTip(w, d);
  }

  lemma KeptBelow(S: Key -> BranchNode, E: iset<Key>, q: Key, c: Cell, w: Key, d: Cell)
    requires Carries(q, c, w, d) && Kept(S, E, q, c)
    ensures Kept(S, E, w, d)
    ensures forall k: Key {:trigger k in E} :: k in E && q <= k ==> w <= k || (c.account == Some(q) && k == q)
  {
    forall p | LeadsTo(S, w, d, p) ensures NodeOk(S, p) {
      CarriesAlike(S, q, c, w, d, p);
    }
    forall k: Key ensures w <= k ==> (k in E <==> Holds(S, w, d, k)) {
      CarriesAlike(S, q, c, w, d, k);
    }
    forall k: Key | k in E && q <= k ensures w <= k || (c.account == Some(q) && k == q) {
      CarriesAlike(S, q, c, w, d, k);
      if Holds(S, w, d, k) {
        HeldBehind(S, w, d, k);
      }
    }
  }

  lemma KeptAbove(S: Key -> BranchNode, E: iset<Key>, q: Key, c: Cell, w: Key, d: Cell)
    requires Carries(q, c, w, d) && Kept(S, E, w, d) && (c.account == Some(q) ==> q in E)
    requires forall k: Key {:trigger k in E} :: k in E && q <= k ==> w <= k || (c.account == Some(q) && k == q)
    ensures Kept(S, E, q, c)
  {
    forall p | LeadsTo(S, q, c, p) ensures NodeOk(S, p) {
      CarriesAlike(S, q, c, w, d, p);
    }
    forall k: Key ensures q <= k ==> (k in E <==> Holds(S, q, c, k)) {
      CarriesAlike(S, q, c, w, d, k);
      if Holds(S, w, d, k) {
        HeldBehind(S, w, d, k);
      }
    }
  }

  lemma Cut(q: Key, s: Key, t: Key)
    requires q + t <= q + s
    ensures |t| <= |s| && q + t + s[|t|..] == q + s
  {
    forall i | 0 <= i < |t| ensures t[i] == s[i] {
      assert (q + t)[|q| + i] == (q + s)[|q| + i];
    }
  }

  /** Unfolding a cell carries what is in it down, but never past the end of an account. */
  lemma LoweredCarries(q: Key, c: Cell, n: nat)
    requires Shape(q, c) && 0 < n <= |c.down| && q + c.down[..n] <= Tip(q, c)
    requires |q| < ACCOUNT_NIBBLES ==> |q| + n <= ACCOUNT_NIBBLES
    ensures var w := q + c.down[..n]; var d := Lowered(c, |w|, n);
      Carries(q, c, w, d) && Tip(w, d) == Tip(q, c)
  {
    var w := q + c.down[..n];
    var d := Lowered(c, |w|, n);
    DerivedTip(q, c);
    if c.account.Some? && |w| <= ACCOUNT_NIBBLES {
      assert w <= c.account.value;
    } else {
      assert c.account.Some? ==> c.account.value == q;
      if c.hashed {
        Cut(q, c.ext, c.down[..n]);
      }
    }
  }

  /** A cell with a row at P below it: rows break where accounts end, and the cell there keeps its account. */
  predicate Hangs(q: Key, up: Cell, P: Key) {
    && q <= P && |P| < STORAGE_NIBBLES && Nibbles(P)
    && (|q| < ACCOUNT_NIBBLES ==> |P| < ACCOUNT_NIBBLES)
    && (|q| == ACCOUNT_NIBBLES ==> up.account == Some(q))
    && (|q| > ACCOUNT_NIBBLES ==> up.account == None)
  }

  /** Folding a row with one child left carries the child up. */
  lemma LiftedCarries(q: Key, up: Cell, P: Key, x: nat, low: Cell)
    requires Hangs(q, up, P) && x < 16 && Shape(P + [x], low)
    ensures var c := Lifted(up, low, |P| + 1, P[|q|..], x); Carries(q, c, P + [x], low) && P <= Tip(q, c)
  {
    var w, c := P + [x], Lifted(up, low, |P| + 1, P[|q|..], x);
    DerivedTip(w, low);
    if low.storage.Some? && |q| == ACCOUNT_NIBBLES {
      assert low.storage.value[..ACCOUNT_NIBBLES] == q;
    }
    if low.account.None? {
      assert q + (P[|q|..] + [x] + low.ext) == w + low.ext;
    }
  }

  /** The keys at and below q are those below P, and perhaps the account at q. */
  ghost predicate Cover(E: iset<Key>, q: Key, P: Key) {
    forall k: Key {:trigger k in E} :: k in E && q <= k ==> k == q || (P <= k && |P| < |k|)
  }

  /** The branch node at P is in S, and its children stand for the keys below it. */
  ghost predicate NodeKept(S: Key -> BranchNode, E: iset<Key>, P: Key) {
    && NodeOk(S, P)
    && (forall n: nat {:trigger S(P).cells[n]} :: n < 16 && S(P).bitmap[n] ==> Kept(S, E, P + [n], S(P).cells[n]))
    && forall k: Key {:trigger k in E} :: k in E && P <= k && |P| < |k| ==> k[|P|] < 16 && S(P).bitmap[k[|P|]]
  }

  lemma NodeStands(S: Key -> BranchNode, E: iset<Key>, P: Key, k: Key)
    requires NodeKept(S, E, P) && P <= k && |P| < |k|
    ensures NodeHolds(S, P, k) <==> k in E
  {
    var n := k[|P|];
    assert P + [n] <= k;
    if n < 16 && S(P).bitmap[n] {
      assert Kept(S, E, P + [n], S(P).cells[n]);
    }
  }

  /** Folding a row with more children makes a cell that stands for the branch node. */
  lemma AboveKept(S: Key -> BranchNode, E: iset<Key>, q: Key, up: Cell, P: Key)
    requires NodeKept(S, E, P) && Hangs(q, up, P) && Cover(E, q, P) && (|q| == ACCOUNT_NIBBLES <==> q in E)
    requires |P| == ACCOUNT_NIBBLES - 1 ==> up.account == None
    ensures var c := Above(up, |P| + 1, P[|q|..]); Kept(S, E, q, c) && q + c.down == Tip(q, c)
  {
    var c := Above(up, |P| + 1, P[|q|..]);
    assert q + P[|q|..] == P;
    assert NodeOf(q, c) == P && Shape(q, c);
    forall p | LeadsTo(S, q, c, p) ensures NodeOk(S, p) {
      if p != P {
        assert NodeLeads(S, P, p);
        assert Kept(S, E, P + [p[|P|]], S(P).cells[p[|P|]]);
        assert LeadsTo(S, P + [p[|P|]], S(P).cells[p[|P|]], p);
      }
    }
    forall k: Key | q <= k ensures k in E <==> Holds(S, q, c, k) {
      if P <= k && |P| < |k| {
        NodeStands(S, E, P, k);
      }
    }
  }

  /** An update elsewhere leaves what a cell stands for. */
  lemma KeptFrame(S: Key -> BranchNode, S': Key -> BranchNode, E: iset<Key>, r: Key, q: Key, c: Cell)
    requires SameBut(S, S', r) && Kept(S, E, q, c) && !(q <= r)
    ensures Kept(S', E, q, c)
  {
    SoundFrame(S, S', r, q, c);
    forall k: Key | q <= k ensures k in E <==> Holds(S', q, c, k) {
      HoldsFrame(S, S', r, q, c, k);
    }
  }

  /** Writing a cell and reading it again leaves what it stands for. */
  lemma KeptRead(S: Key -> BranchNode, E: iset<Key>, q: Key, c: Cell)
    requires Kept(S, E, q, c)
    ensures Kept(S, E, q, ReadBack(q, c)) && q + ReadBack(q, c).down == Tip(q, ReadBack(q, c))
  {
    var d := ReadBack(q, c);
    assert Carries(q, c, q, d);
    KeptBelow(S, E, q, c, q, d);
    DerivedTip(q, d);
  }
}
