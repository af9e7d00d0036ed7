/** How deep a Huffman tree can be: a tree of height h carries at least as many uses as the
    Fibonacci number of h, because the sibling of every merged tree weighs at least as
    much as that tree's own children. */
module HuffmanDepth {
  import opened HuffmanTree
  import opened HuffmanCost
  import opened Sums

  /** 1, 2, 3, 5, 8, ... */
  function Fib(n: nat): (r: nat)
    ensures r > 0
  {
    if n == 0 then 1 else if n == 1 then 2 else Fib(n - 1) + Fib(n - 2)
  }

  lemma {:induction false} FibGrows(a: nat, b: nat)
    requires a <= b
    ensures Fib(a) <= Fib(b)
    decreases b
  {
    if a < b {
      FibGrows(a, b - 1);
    }
  }

  /** Merging two weights keeps the total. */
  lemma {:induction false} TotalMerged(w: seq<nat>, a: nat, b: nat, w1: seq<nat>, w2: seq<nat>)
    requires Merged(w, a, b, w1, w2)
    ensures Total(w2) == Total(w)
  {
    SumRemoved(w, a, |w| - 1);
    SumRemoved(w1, b, |w1| - 1);
    TotalSnoc(RemoveAt(w1, b), w[a] + w1[b]);
  }

  /** The uses of all symbols of a tree. */
  ghost function Weight(t: Tree<nat>, uses: seq<nat>): nat {
    match t
    case Leaf(s) => if s < |uses| then uses[s] else 0
    case Node(l, r) => Weight(l, uses) + Weight(r, uses)
  }

  /** Every subtree weighs at least the Fibonacci number of its height. */
  ghost predicate Heavy(t: Tree<nat>, uses: seq<nat>) {
    Weight(t, uses) >= Fib(Height(t)) && (t.Node? ==> Heavy(t.left, uses) && Heavy(t.right, uses))
  }

  /** The tree is not lighter than `last`, and its children are not heavier. */
  ghost predicate Settled(t: Tree<nat>, uses: seq<nat>, last: nat) {
    && Heavy(t, uses) && Weight(t, uses) >= last
    && (t.Node? ==> Weight(t.left, uses) <= last && Weight(t.right, uses) <= last)
  }

  /** Two settled trees make a heavy tree. */
  lemma {:induction false} PairHeavy(x: Tree<nat>, y: Tree<nat>, uses: seq<nat>, last: nat)
    requires Settled(x, uses, last) && Settled(y, uses, last)
    ensures Heavy(Node(x, y), uses)
  {
    if Height(x) > Height(y) {
      TallerAndOther(x, y, uses, last);
    } else {
      TallerAndOther(y, x, uses, last);
    }
  }

  /** A tree and its taller sibling, which has a child that is as heavy as its height asks
      and not heavier than the tree. */
  lemma {:induction false} TallerAndOther(c: Tree<nat>, s: Tree<nat>, uses: seq<nat>, last: nat)
    requires Settled(c, uses, last) && Settled(s, uses, last)
    requires Height(s) <= Height(c)
    ensures Weight(c, uses) + Weight(s, uses) >= Fib(Height(c) + 1)
  {
    if c.Node? {
      var g := if Height(c.left) > Height(c.right) then c.left else c.right;
      assert Heavy(g, uses);
    } else {
      assert Weight(c, uses) >= 1 && Weight(s, uses) >= 1;
    }
  }

  /** The lighter of two merged trees has left all others, so that the heavier becomes the
      new mark. */
  lemma {:induction false} SettledOn(t: Tree<nat>, uses: seq<nat>, last: nat, mark: nat)
    requires Settled(t, uses, last) && last <= mark <= Weight(t, uses)
    ensures Settled(t, uses, mark)
  {
  }

  /** A tree with fewer uses than the Fibonacci number is less high. */
  lemma {:induction false} HeightBound(t: Tree<nat>, uses: seq<nat>, n: nat)
    requires Heavy(t, uses) && Weight(t, uses) < Fib(n)
    ensures Height(t) < n
  {
    if Height(t) >= n {
      FibGrows(n, Height(t));
    }
  }
}
