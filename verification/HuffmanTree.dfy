/** Binary code trees: the leaves in depth-first order, their paths as codes, and the
    fact that no code is a prefix of another. */
module HuffmanTree {
  import opened Words

  /** A leaf holds a symbol. */
  datatype Tree<T> = Leaf(sym: T) | Node(left: Tree<T>, right: Tree<T>)

  function Size<T>(t: Tree<T>): (n: nat)
    ensures n > 0
  {
    match t
    case Leaf(_) => 1
    case Node(l, r) => Size(l) + Size(r)
  }

  /** The symbol of leaf k in depth-first order. */
  function Sym<T>(t: Tree<T>, k: nat): T
    requires k < Size(t)
  {
    match t
    case Leaf(s) => s
    case Node(l, r) => if k < Size(l) then Sym(l, k) else Sym(r, k - Size(l))
  }

  /** The branches from the root to leaf k: false is left. */
  function Path<T>(t: Tree<T>, k: nat): seq<bool>
    requires k < Size(t)
  {
    match t
    case Leaf(_) => []
    case Node(l, r) => if k < Size(l) then [false] + Path(l, k) else [true] + Path(r, k - Size(l))
  }

  function Height<T>(t: Tree<T>): nat {
    match t
    case Leaf(_) => 0
    case Node(l, r) => 1 + if Height(l) > Height(r) then Height(l) else Height(r)
  }

  lemma {:induction false} PathInHeight<T>(t: Tree<T>, k: nat)
    requires k < Size(t)
    ensures |Path(t, k)| <= Height(t)
  {
    match t
    case Leaf(_) =>
    case Node(l, r) =>
      if k < Size(l) {
        PathInHeight(l, k);
      } else {
        PathInHeight(r, k - Size(l));
      }
  }

  /** Some leaf is as deep as the tree is high. */
  lemma {:induction false} DeepestLeaf<T>(t: Tree<T>) returns (k: nat)
    ensures k < Size(t) && |Path(t, k)| == Height(t)
  {
    match t
    case Leaf(_) => k := 0;
    case Node(l, r) =>
      if Height(l) > Height(r) {
        k := DeepestLeaf(l);
      } else {
        var i := DeepestLeaf(r);
        k := Size(l) + i;
      }
  }

  /** No path is a prefix of another: bits that start with the paths of two leaves start
      with the same leaf's path. */
  lemma {:induction false} PrefixFree<T>(t: Tree<T>, i: nat, j: nat, data: seq<bool>, at: nat)
    requires i < Size(t) && j < Size(t) && Here(data, at, Path(t, i)) && Here(data, at, Path(t, j))
    ensures i == j
  {
    match t
    case Leaf(_) =>
    case Node(l, r) =>
      FirstBit(data, at, Path(t, i));
      FirstBit(data, at, Path(t, j));
      if i < Size(l) {
        assert Path(t, i)[1..] == Path(l, i);
        assert Path(t, j)[1..] == Path(l, j);
        PrefixFree(l, i, j, data, at + 1);
      } else {
        assert Path(t, i)[1..] == Path(r, i - Size(l));
        assert Path(t, j)[1..] == Path(r, j - Size(l));
        PrefixFree(r, i - Size(l), j - Size(l), data, at + 1);
      }
  }

  lemma FirstBit(data: seq<bool>, at: nat, path: seq<bool>)
    requires path != [] && Here(data, at, path)
    ensures data[at] == path[0] && Here(data, at + 1, path[1..])
  {
    forall i | 0 <= i < |path| - 1 ensures path[1..][i] == data[at + 1 + i] {
      assert path[i + 1] == data[at + (i + 1)];
    }
  }

  // ---- the symbols of a tree

  ghost predicate In<T>(t: Tree<T>, s: T) {
    match t
    case Leaf(x) => s == x
    case Node(l, r) => In(l, s) || In(r, s)
  }

  /** No symbol occurs in both trees. */
  ghost predicate Apart(a: Tree<nat>, b: Tree<nat>) { forall s: nat :: In(a, s) ==> !In(b, s) }

  /** No symbol occurs twice, and all are below n. */
  ghost predicate Proper(t: Tree<nat>, n: nat) {
    match t
    case Leaf(s) => s < n
    case Node(l, r) => Proper(l, n) && Proper(r, n) && Apart(l, r)
  }

  /** The tree holds exactly the symbols below n, each once. */
  ghost predicate Holds(t: Tree<nat>, n: nat) { Proper(t, n) && forall s: nat :: s < n ==> In(t, s) }

  lemma {:induction false} SymIn(t: Tree<nat>, k: nat, n: nat)
    requires k < Size(t) && Proper(t, n)
    ensures Sym(t, k) < n && In(t, Sym(t, k))
  {
    match t
    case Leaf(_) =>
    case Node(l, r) =>
      if k < Size(l) {
        SymIn(l, k, n);
      } else {
        SymIn(r, k - Size(l), n);
      }
  }

  /** Every symbol of the tree is the symbol of some leaf. */
  lemma {:induction false} InSym<T>(t: Tree<T>, s: T) returns (k: nat)
    requires In(t, s)
    ensures k < Size(t) && Sym(t, k) == s
  {
    match t
    case Leaf(_) => k := 0;
    case Node(l, r) =>
      if In(l, s) {
        k := InSym(l, s);
      } else {
        var i := InSym(r, s);
        k := Size(l) + i;
      }
  }

  // ---- codes as numbers

  /** The number of a path whose first branch is the lowest bit. */
  function Value(path: seq<bool>): nat {
    if path == [] then 0 else (if path[0] then 1 else 0) + 2 * Value(path[1..])
  }

  lemma {:induction false} ValueBelow(path: seq<bool>)
    ensures Value(path) < Pow2(|path|)
  {
    if path != [] {
      ValueBelow(path[1..]);
    }
  }

  /** bits.Reverse64 for n = 64: the lowest bit of x becomes the highest of n. */
  function Reverse(x: nat, n: nat): nat {
    if n == 0 then 0 else (if x % 2 == 1 then Pow2(n - 1) else 0) + Reverse(x / 2, n - 1)
  }

  lemma {:induction false} ReverseBelow(x: nat, n: nat)
    ensures Reverse(x, n) < Pow2(n)
  {
    if n > 0 {
      ReverseBelow(x / 2, n - 1);
    }
  }

  /** Reversed codes ascend in depth-first order. */
  lemma {:induction false} ReversedAscend<T>(t: Tree<T>, i: nat, j: nat, n: nat)
    requires i < j < Size(t) && Height(t) <= n
    ensures Reverse(Value(Path(t, i)), n) < Reverse(Value(Path(t, j)), n)
  {
    match t
    case Leaf(_) =>
    case Node(l, r) =>
      ReverseNode(t, i, n);
      ReverseNode(t, j, n);
      if j < Size(l) {
        ReversedAscend(l, i, j, n - 1);
      } else if i < Size(l) {
        ReverseBelow(Value(Path(l, i)), n - 1);
      } else {
        ReversedAscend(r, i - Size(l), j - Size(l), n - 1);
      }
  }

  lemma ReverseNode<T>(t: Tree<T>, k: nat, n: nat)
    requires t.Node? && k < Size(t) && n > 0
    ensures var m := Size(t.left);
      Reverse(Value(Path(t, k)), n) ==
        if k < m then Reverse(Value(Path(t.left, k)), n - 1)
        else Pow2(n - 1) + Reverse(Value(Path(t.right, k - m)), n - 1)
  {
    var rest := if k < Size(t.left) then Path(t.left, k) else Path(t.right, k - Size(t.left));
    assert Path(t, k)[1..] == rest;
  }
}
