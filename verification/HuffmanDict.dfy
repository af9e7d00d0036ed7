/** The dictionary of a Huffman code as it is written to the file: the symbols sorted by
    reversed code, each with the depth of its leaf. This order is the depth-first order
    of the tree, so that depths and order determine the codes. */
module HuffmanDict {
  import opened Words
  import opened HuffmanTree
  import opened HuffmanBuild

  /** SetDepth. */
  method SetDepth(t: Tree<nat>, d: nat, depth: array<nat>)
    requires Proper(t, depth.Length)
    modifies depth
    ensures forall s :: 0 <= s < depth.Length && !In(t, s) ==> depth[s] == old(depth[s])
    ensures Depths(t, d, depth[..])
  {
    match t
    case Leaf(s) => depth[s] := d;
    case Node(l, r) =>
      SetDepth(l, d + 1, depth);
      ghost var before := depth[..];
      SetDepth(r, d + 1, depth);
      NodeDepths(t, d, before, depth[..]);
  }

  ghost predicate DepthOf(t: Tree<nat>, k: nat, d: nat, depth: seq<nat>)
    requires k < Size(t) && Proper(t, |depth|)
  {
    SymIn(t, k, |depth|);
    depth[Sym(t, k)] == d + |Path(t, k)|
  }

  ghost predicate Depths(t: Tree<nat>, d: nat, depth: seq<nat>)
    requires Proper(t, |depth|)
  {
    forall k :: 0 <= k < Size(t) ==> DepthOf(t, k, d, depth)
  }

  lemma NodeDepths(t: Tree<nat>, d: nat, before: seq<nat>, after: seq<nat>)
    requires t.Node? && |before| == |after| && Proper(t, |after|)
    requires forall s :: 0 <= s < |after| && !In(t.right, s) ==> after[s] == before[s]
    requires Depths(t.left, d + 1, before) && Depths(t.right, d + 1, after)
    ensures Depths(t, d, after)
  {
    forall k | 0 <= k < Size(t) ensures DepthOf(t, k, d, after) {
      if k < Size(t.left) {
        SymIn(t.left, k, |after|);
        assert DepthOf(t.left, k, d + 1, before);
      } else {
        assert DepthOf(t.right, k - Size(t.left), d + 1, after);
      }
    }
  }

  // ---- the order of the dictionary

  /** patternListLess once SetDepth has reset the uses: by reversed code. Words have
      n = 64 bits; what follows holds for every width that holds the codes. */
  function Key(code: seq<nat>, s: nat, n: nat): nat
    requires s < |code|
  {
    Reverse(code[s], n)
  }

  /** What sorting the list leaves: every symbol once, keys not descending. */
  ghost predicate SortedDict(order: seq<nat>, code: seq<nat>, n: nat) {
    && (forall i :: 0 <= i < |order| ==> order[i] < |code|)
    && (forall s: nat :: s < |code| ==> s in order)
    && (forall i, j :: 0 <= i < j < |order| ==>
        order[i] != order[j] && Key(code, order[i], n) <= Key(code, order[j], n))
  }

  ghost function DepthFirst(t: Tree<nat>): seq<nat> { seq(Size(t), k requires 0 <= k < Size(t) => Sym(t, k)) }

  /** The key of a leaf is its reversed path. */
  lemma {:induction false} LeafKey(t: Tree<nat>, k: nat, code: seq<nat>, codeBits: seq<nat>, n: nat)
    requires |code| == |codeBits| && Proper(t, |code|) && Coded(t, code, codeBits) && Height(t) <= n <= 64
    requires k < Size(t)
    ensures Sym(t, k) < |code| && Key(code, Sym(t, k), n) == Reverse(Value(Path(t, k)), n)
  {
    assert SymCoded(t, k, code, codeBits);
    SymIn(t, k, |code|);
    PathInHeight(t, k);
    ValueFits(Path(t, k));
  }

  lemma ValueFits(path: seq<bool>)
    requires |path| <= 64
    ensures Value(path) < TWO64
  {
    ValueBelow(path);
    PowerGrows(|path|, 64);
    TwoPower64();
  }

  lemma {:induction false} KeysAscend(t: Tree<nat>, i: nat, j: nat, code: seq<nat>, codeBits: seq<nat>, n: nat)
    requires |code| == |codeBits| && Proper(t, |code|) && Coded(t, code, codeBits) && Height(t) <= n <= 64
    requires i < j < Size(t)
    ensures Sym(t, i) < |code| && Sym(t, j) < |code| && Key(code, Sym(t, i), n) < Key(code, Sym(t, j), n)
  {
    LeafKey(t, i, code, codeBits, n);
    LeafKey(t, j, code, codeBits, n);
    ReversedAscend(t, i, j, n);
  }

  ghost predicate Ascending(s: seq<nat>, code: seq<nat>, n: nat) {
    && (forall i :: 0 <= i < |s| ==> s[i] < |code|)
    && forall i, j :: 0 <= i < j < |s| ==> Key(code, s[i], n) < Key(code, s[j], n)
  }

  /** Two ascending lists of all symbols agree up to m. */
  lemma {:induction false} SameOrder(a: seq<nat>, b: seq<nat>, code: seq<nat>, n: nat, m: nat)
    requires Ascending(a, code, n) && Ascending(b, code, n) && m <= |a| && m <= |b|
    requires (forall s: nat :: s < |code| ==> s in a) && (forall s: nat :: s < |code| ==> s in b)
    ensures forall i :: 0 <= i < m ==> a[i] == b[i]
  {
    if m > 0 {
      SameOrder(a, b, code, n, m - 1);
      NextSame(a, b, code, n, m - 1);
      NextSame(b, a, code, n, m - 1);
    }
  }

  /** The next of a is not before the next of b. */
  lemma NextSame(a: seq<nat>, b: seq<nat>, code: seq<nat>, n: nat, m: nat)
    requires Ascending(a, code, n) && Ascending(b, code, n) && m < |a| && m < |b|
    requires forall s: nat :: s < |code| ==> s in b
    requires forall i :: 0 <= i < m ==> a[i] == b[i]
    ensures Key(code, b[m], n) <= Key(code, a[m], n) && (Key(code, b[m], n) == Key(code, a[m], n) ==> b[m] == a[m])
  {
    assert a[m] in b;
    var j :| 0 <= j < |b| && b[j] == a[m];
  }

  /** A list cannot go on once the other has ended. */
  lemma SameLength(a: seq<nat>, b: seq<nat>, code: seq<nat>, n: nat)
    requires Ascending(a, code, n) && Ascending(b, code, n)
    requires (forall s: nat :: s < |code| ==> s in a) && (forall s: nat :: s < |code| ==> s in b)
    ensures |b| <= |a|
  {
    if |a| < |b| {
      assert b[|a|] in a;
      var j :| 0 <= j < |a| && a[j] == b[|a|];
      assert Key(code, b[j], n) < Key(code, b[|a|], n);
      SameOrder(a, b, code, n, |a|);
      assert false;
    }
  }

  /** The written order is the depth-first order of the tree. */
  lemma {:induction false} WrittenDepthFirst(t: Tree<nat>, order: seq<nat>, code: seq<nat>, codeBits: seq<nat>, n: nat)
    requires |code| == |codeBits| && Holds(t, |code|) && Coded(t, code, codeBits) && Height(t) <= n <= 64
    requires SortedDict(order, code, n)
    ensures order == DepthFirst(t)
  {
    var leaves := DepthFirst(t);
    LeavesAscend(t, code, codeBits, n);
    forall i, j | 0 <= i < j < |order| ensures Key(code, order[i], n) < Key(code, order[j], n) {
      DistinctKeys(t, order[i], order[j], code, codeBits, n);
    }
    SameLength(order, leaves, code, n);
    SameLength(leaves, order, code, n);
    SameOrder(order, leaves, code, n, |order|);
  }

  lemma {:induction false} LeavesAscend(t: Tree<nat>, code: seq<nat>, codeBits: seq<nat>, n: nat)
    requires |code| == |codeBits| && Holds(t, |code|) && Coded(t, code, codeBits) && Height(t) <= n <= 64
    ensures Ascending(DepthFirst(t), code, n) && forall s: nat :: s < |code| ==> s in DepthFirst(t)
  {
    var leaves := DepthFirst(t);
    forall k | 0 <= k < |leaves| ensures leaves[k] < |code| {
      SymIn(t, k, |code|);
    }
    forall i, j | 0 <= i < j < |leaves| ensures Key(code, leaves[i], n) < Key(code, leaves[j], n) {
      KeysAscend(t, i, j, code, codeBits, n);
    }
    forall s: nat | s < |code| ensures s in leaves {
      var k := InSym(t, s);
      assert leaves[k] == s;
    }
  }

  /** Different symbols have different keys. */
  lemma {:induction false} DistinctKeys(t: Tree<nat>, x: nat, y: nat, code: seq<nat>, codeBits: seq<nat>, n: nat)
    requires |code| == |codeBits| && Holds(t, |code|) && Coded(t, code, codeBits) && Height(t) <= n <= 64
    requires x < |code| && y < |code| && x != y
    ensures Key(code, x, n) != Key(code, y, n)
  {
    var i := InSym(t, x);
    var j := InSym(t, y);
    if i < j {
      KeysAscend(t, i, j, code, codeBits, n);
    } else {
      KeysAscend(t, j, i, code, codeBits, n);
    }
  }
}
