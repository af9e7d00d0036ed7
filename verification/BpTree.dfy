/** The 2-3 B+ tree of the bptree package, as a value: its shape, its leaves and what a forest of equally high trees
    holds. */
module BpTree {
  import opened Options
  import opened Sums
  import opened BpItems

  /** A leaf has its items and the first key of the following leaf; an internal node has children and the keys
      between them. */
  datatype Node = Leaf(items: seq<Item>, next: Option<nat>) | Internal(children: seq<Node>, keys: seq<nat>)

  // ---- contents

  /** The items of the leaves, from left to right. */
  function Contents(n: Node): seq<Item>
  {
    match n
    case Leaf(items, _) => items
    case Internal(children, _) => AllContents(children)
  }

  function AllContents(ns: seq<Node>): seq<Item>
  {
    if ns == [] then [] else Contents(ns[0]) + AllContents(ns[1..])
  }

  lemma {:induction false} ContentsJoined(a: seq<Node>, b: seq<Node>)
    ensures AllContents(a + b) == AllContents(a) + AllContents(b)
  {
    if a == [] {
      assert a + b == b;
    } else {
      ContentsJoined(a[1..], b);
      assert (a + b)[0] == a[0] && (a + b)[1..] == a[1..] + b;
      assert AllContents(a + b) == Contents(a[0]) + AllContents(a[1..] + b);
      Regroup(Contents(a[0]), AllContents(a[1..]), AllContents(b));
    }
  }

  function First(n: Node): nat
  {
    match n
    case Leaf(items, _) => if items == [] then 0 else items[0].key
    case Internal(children, _) => if children == [] then 0 else First(children[0])
  }

  // ---- shape

  /** What follows tree i of a forest: the first key of the next tree, or behind the last one the given end. */
  function Follows(ns: seq<Node>, i: nat, end: Option<nat>): Option<nat>
    requires i < |ns|
  {
    if i + 1 < |ns| then Some(First(ns[i + 1])) else end
  }

  /** A tree of height h whose last leaf points to the given end: 1 or 2 items in a leaf, 2 or 3 children in an
      internal node, and every key of an internal node is the first key to its right. */
  ghost predicate Shaped(n: Node, h: nat, end: Option<nat>)
    decreases h, 0
  {
    match n
    case Leaf(items, next) => h == 0 && 1 <= |items| <= 2 && next == end
    case Internal(children, keys) =>
      h > 0 && 2 <= |children| <= 3 && Forest(children, h - 1, end) && keys == Between(children)
  }

  /** Trees of height h one behind the other. */
  ghost predicate Forest(ns: seq<Node>, h: nat, end: Option<nat>)
    decreases h, 1
  {
    ns != [] && forall i :: 0 <= i < |ns| ==> Shaped(ns[i], h, Follows(ns, i, end))
  }

  /** The keys between the trees of a forest. */
  function Between(ns: seq<Node>): (r: seq<nat>)
    ensures |r| == if ns == [] then 0 else |ns| - 1
  {
    seq(if ns == [] then 0 else |ns| - 1, i requires 0 <= i < |ns| - 1 => First(ns[i + 1]))
  }

  /** The keys that follow the trees, as far as there are any. */
  function NextKeys(ns: seq<Node>, end: Option<nat>): seq<nat> { Between(ns) + if end.Some? then [end.value] else [] }

  lemma {:induction false} FirstIsFirst(n: Node, h: nat, end: Option<nat>)
    requires Shaped(n, h, end)
    ensures Contents(n) != [] && Contents(n)[0].key == First(n)
  {
    if n.Internal? {
      FirstIsFirst(n.children[0], h - 1, Follows(n.children, 0, end));
    }
  }

  lemma ForestFirst(ns: seq<Node>, h: nat, end: Option<nat>)
    requires Forest(ns, h, end)
    ensures AllContents(ns) != [] && AllContents(ns)[0].key == First(ns[0])
  {
    FirstIsFirst(ns[0], h, Follows(ns, 0, end));
  }

  lemma {:induction false} ForestJoined(a: seq<Node>, b: seq<Node>, h: nat, end: Option<nat>)
    requires Forest(b, h, end) && Forest(a, h, Some(First(b[0])))
    ensures Forest(a + b, h, end) && NextKeys(a + b, end) == NextKeys(a, Some(First(b[0]))) + NextKeys(b, end)
  {
    var r, m := a + b, Some(First(b[0]));
    forall i | 0 <= i < |r| ensures Shaped(r[i], h, Follows(r, i, end)) {
      if i < |a| {
        assert Shaped(a[i], h, Follows(a, i, m)) && Follows(r, i, end) == Follows(a, i, m);
      } else {
        assert Shaped(b[i - |a|], h, Follows(b, i - |a|, end)) && Follows(r, i, end) == Follows(b, i - |a|, end);
      }
    }
    assert Between(r) == Between(a) + [First(b[0])] + Between(b);
  }

  /** A part of a forest is a forest, which ends where the rest begins. */
  lemma {:induction false} ForestPart(ns: seq<Node>, h: nat, end: Option<nat>, k: nat)
    requires Forest(ns, h, end) && 0 < k < |ns|
    ensures Forest(ns[..k], h, Some(First(ns[k]))) && Forest(ns[k..], h, end)
  {
    var a, b := ns[..k], ns[k..];
    forall i | 0 <= i < |a| ensures Shaped(a[i], h, Follows(a, i, Some(First(ns[k])))) {
      assert Shaped(ns[i], h, Follows(ns, i, end)) && Follows(ns, i, end) == Follows(a, i, Some(First(ns[k])));
    }
    forall i | 0 <= i < |b| ensures Shaped(b[i], h, Follows(b, i, end)) {
      assert Shaped(ns[k + i], h, Follows(ns, k + i, end)) && Follows(ns, k + i, end) == Follows(b, i, end);
    }
  }

  lemma BetweenPart(ns: seq<Node>, k: nat)
    requires 0 < k < |ns|
    ensures Between(ns[..k]) == Between(ns)[..k - 1] && Between(ns)[k - 1] == First(ns[k])
    ensures Between(ns[k..]) == Between(ns)[k..]
  {
  }

  /** Two or three trees make one that is one higher. */
  lemma Grown(ns: seq<Node>, h: nat, end: Option<nat>)
    requires Forest(ns, h, end) && 2 <= |ns| <= 3
    ensures Shaped(Internal(ns, Between(ns)), h + 1, end) && First(Internal(ns, Between(ns))) == First(ns[0])
    ensures Contents(Internal(ns, Between(ns))) == AllContents(ns)
  {
  }

  lemma Single(n: Node, h: nat, end: Option<nat>)
    requires Shaped(n, h, end)
    ensures Forest([n], h, end) && AllContents([n]) == Contents(n) && Between([n]) == []
    ensures NextKeys([n], end) == if end.Some? then [end.value] else []
  {
    assert [n][1..] == [];
    assert AllContents([n]) == Contents(n) + AllContents([]);
  }
}
