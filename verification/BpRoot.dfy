/** The tree with its root: every batch leaves a well-shaped tree with the merged items, which passes the tree's own
    check. */
module BpRoot {
  import opened Options
  import opened BpItems
  import opened BpTree
  import opened BpUpsert

  // ---- the check of the tree

  /** Some internal node of the tree has the key. */
  ghost predicate InnerKey(n: Node, key: nat) {
    n.Internal? && (key in n.keys || exists i :: 0 <= i < |n.children| && InnerKey(n.children[i], key))
  }

  /** Some leaf points to the key. */
  ghost predicate PointedTo(n: Node, key: nat) {
    match n
    case Leaf(_, next) => next == Some(key)
    case Internal(children, _) => exists i :: 0 <= i < |children| && PointedTo(children[i], key)
  }

  /** What the check finds: the sizes are right, and every key of an internal node is in no other below it and is
      pointed to by a leaf. */
  ghost predicate IsValid(n: Node) {
    match n
    case Leaf(items, _) => 1 <= |items| <= 2
    case Internal(children, keys) =>
      && 1 <= |keys| <= 2 && |children| == |keys| + 1
      && (forall k :: 0 <= k < |keys| ==> KeyValid(n, keys[k]))
      && forall i :: 0 <= i < |children| ==> IsValid(children[i])
  }

  ghost predicate KeyValid(n: Node, key: nat)
    requires n.Internal?
  {
    PointedTo(n, key) && forall i :: 0 <= i < |n.children| ==> !InnerKey(n.children[i], key)
  }

  /** The nodes of a tree, every one behind those below it. */
  function PostOrder(n: Node): (r: seq<Node>)
    ensures |r| > 0 && r[|r| - 1] == n
    decreases n, 0
  {
    if n.Leaf? then [n] else AllPostOrder(n.children, |n.children|) + [n]
  }

  function AllPostOrder(ns: seq<Node>, i: nat): seq<Node>
    requires i <= |ns|
    decreases ns, i
  {
    if i == 0 then [] else AllPostOrder(ns, i - 1) + PostOrder(ns[i - 1])
  }

  method WalkNodesPostOrder(n: Node) returns (nodes: seq<Node>)
    ensures nodes == PostOrder(n)
    decreases n
  {
    nodes := [];
    if n.Internal? {
      for i := 0 to |n.children|
        invariant nodes == AllPostOrder(n.children, i)
      {
        var childNodes := WalkNodesPostOrder(n.children[i]);
        nodes := nodes + childNodes;
      }
    }
    nodes := nodes + [n];
  }

  /** Some internal node among the given ones has the key; some leaf among them points to it. */
  ghost predicate KeyAmong(nodes: seq<Node>, key: nat) {
    exists j {:trigger nodes[j]} :: 0 <= j < |nodes| && nodes[j].Internal? && key in nodes[j].keys
  }

  ghost predicate NextAmong(nodes: seq<Node>, key: nat) {
    exists j {:trigger nodes[j]} :: 0 <= j < |nodes| && nodes[j].Leaf? && nodes[j].next == Some(key)
  }

  lemma {:induction false} AmongJoined(a: seq<Node>, b: seq<Node>, key: nat)
    ensures KeyAmong(a + b, key) <==> KeyAmong(a, key) || KeyAmong(b, key)
    ensures NextAmong(a + b, key) <==> NextAmong(a, key) || NextAmong(b, key)
  {
    var all := a + b;
    assert forall j {:trigger a[j]} :: 0 <= j < |a| ==> a[j] == all[j];
    assert forall j {:trigger b[j]} :: 0 <= j < |b| ==> b[j] == all[|a| + j];
    assert forall j {:trigger all[j]} :: 0 <= j < |all| ==> all[j] == if j < |a| then a[j] else b[j - |a|];
  }

  /** The walk meets every node. */
  lemma {:induction false} Walked(n: Node, key: nat)
    ensures KeyAmong(PostOrder(n), key) <==> InnerKey(n, key)
    ensures NextAmong(PostOrder(n), key) <==> PointedTo(n, key)
    decreases n, 0
  {
    assert [n][0] == n;
    if n.Internal? {
      WalkedAll(n.children, |n.children|, key);
      AmongJoined(AllPostOrder(n.children, |n.children|), [n], key);
    }
  }

  lemma {:induction false} WalkedAll(ns: seq<Node>, i: nat, key: nat)
    requires i <= |ns|
    ensures KeyAmong(AllPostOrder(ns, i), key) <==> exists j :: 0 <= j < i && InnerKey(ns[j], key)
    ensures NextAmong(AllPostOrder(ns, i), key) <==> exists j :: 0 <= j < i && PointedTo(ns[j], key)
    decreases ns, i
  {
    if i > 0 {
      WalkedAll(ns, i - 1, key);
      Walked(ns[i - 1], key);
      AmongJoined(AllPostOrder(ns, i - 1), PostOrder(ns[i - 1]), key);
    }
  }

  /** One key of an internal node against all nodes below. */
  method CheckKey(n: Node, key: nat, subtree: seq<Node>) returns (ok: bool)
    requires n.Internal? && subtree == PostOrder(n)
    ensures ok <==> KeyValid(n, key)
  {
    ghost var below := AllPostOrder(n.children, |n.children|);
    WalkedAll(n.children, |n.children|, key);
    assert subtree == below + [n];
    var hasNextKey := false;
    for i := 0 to |subtree|
      invariant hasNextKey <==> NextAmong(subtree[..i], key)
      invariant forall j {:trigger below[j]} :: 0 <= j < i && j < |below| ==>
          !(below[j].Internal? && key in below[j].keys)
    {
      var node := subtree[i];
      AmongJoined(subtree[..i], [node], key);
      assert subtree[..i + 1] == subtree[..i] + [node] && [node][0] == node;
      if node.Internal? {
        if i != |subtree| - 1 && key in node.keys {
          assert below[i] == node;
          return false;
        }
      } else if node.next == Some(key) {
        hasNextKey := true;
      }
    }
    assert subtree[..|subtree|] == subtree;
    AmongJoined(below, [n], key);
    ok := hasNextKey;
  }

  /** The key that a leaf points to is the first key of the next leaf. */
  predicate Linked(previous: Node, next: Node) {
    previous.Leaf? && next.Leaf? ==> next.items != [] && previous.next == Some(next.items[0].key)
  }

  /** The loop over neighbours looks at them only where the first is no leaf, so that it rejects nothing. */
  method CheckChained(subtree: seq<Node>) returns (ok: bool)
    ensures ok
  {
    ok := true;
    for i := 0 to |subtree|
      invariant ok
    {
      if !subtree[i].Leaf? && i != |subtree| - 1 {
        var previous, next := subtree[i], subtree[i + 1];
        ok := ok && !(previous.Leaf? && next.Leaf? && !Linked(previous, next));
      }
    }
  }

  method CheckKeys(n: Node, subtree: seq<Node>) returns (ok: bool)
    requires n.Internal? && subtree == PostOrder(n)
    ensures ok <==> forall k :: 0 <= k < |n.keys| ==> KeyValid(n, n.keys[k])
  {
    for k := 0 to |n.keys|
      invariant forall j :: 0 <= j < k ==> KeyValid(n, n.keys[j])
    {
      ok := CheckKey(n, n.keys[k], subtree);
      if !ok {
        return;
      }
    }
    ok := true;
  }

  /** isValid. */
  method CheckNode(n: Node) returns (ok: bool)
    ensures ok <==> IsValid(n)
    decreases n
  {
    if n.Leaf? {
      return |n.items| == 1 || |n.items| == 2;
    }
    if |n.keys| != 1 && |n.keys| != 2 {
      return false;
    }
    if (|n.keys| == 1 && |n.children| != 2) || (|n.keys| == 2 && |n.children| != 3) {
      return false;
    }
    var subtree := WalkNodesPostOrder(n);
    var keysOk := CheckKeys(n, subtree);
    if !keysOk {
      return false;
    }
    ok := CheckChained(subtree);
    for i := |n.children| downto 0
      invariant ok && forall j :: i <= j < |n.children| ==> IsValid(n.children[j])
    {
      ok := CheckNode(n.children[i]);
      if !ok {
        return;
      }
    }
  }

  // ---- what the check does not see

  /** Trees that differ only in the items of their leaves, not in how many there are. */
  predicate SameButItems(a: Node, b: Node) {
    match (a, b)
    case (Leaf(_, _), Leaf(_, _)) => |a.items| == |b.items| && a.next == b.next
    case (Internal(_, _), Internal(_, _)) =>
      && a.keys == b.keys && |a.children| == |b.children|
      && forall i {:trigger a.children[i]} :: 0 <= i < |a.children| ==> SameButItems(a.children[i], b.children[i])
    case _ => false
  }

  lemma {:induction false} SameKeys(a: Node, b: Node, key: nat)
    requires SameButItems(a, b)
    ensures InnerKey(a, key) <==> InnerKey(b, key)
    ensures PointedTo(a, key) <==> PointedTo(b, key)
    decreases a
  {
    if a.Internal? {
      forall i {:trigger a.children[i]} {:trigger b.children[i]} | 0 <= i < |a.children|
        ensures InnerKey(a.children[i], key) <==> InnerKey(b.children[i], key)
        ensures PointedTo(a.children[i], key) <==> PointedTo(b.children[i], key)
      {
        SameKeys(a.children[i], b.children[i], key);
      }
    }
  }

  /** The check does not look at the items of the leaves. */
  lemma {:induction false} ItemsUnchecked(a: Node, b: Node)
    requires SameButItems(a, b)
    ensures IsValid(a) <==> IsValid(b)
    decreases a
  {
    if a.Internal? {
      forall k | 0 <= k < |a.keys| && |a.children| == |a.keys| + 1
        ensures KeyValid(a, a.keys[k]) <==> KeyValid(b, b.keys[k])
      {
        SameKeys(a, b, a.keys[k]);
        forall i {:trigger a.children[i]} {:trigger b.children[i]} | 0 <= i < |a.children|
          ensures InnerKey(a.children[i], a.keys[k]) <==> InnerKey(b.children[i], a.keys[k])
        {
          SameKeys(a.children[i], b.children[i], a.keys[k]);
        }
      }
      forall i {:trigger a.children[i]} {:trigger b.children[i]} | 0 <= i < |a.children|
        ensures IsValid(a.children[i]) <==> IsValid(b.children[i])
      {
        ItemsUnchecked(a.children[i], b.children[i]);
      }
    }
  }

  /** The same tree with one key for all items. */
  function Rekeyed(n: Node, key: nat): Node {
    match n
    case Leaf(items, next) => Leaf(seq(|items|, i requires 0 <= i < |items| => Item(key, items[i].value)), next)
    case Internal(children, keys) =>
      Internal(seq(|children|, i requires 0 <= i < |children| => Rekeyed(children[i], key)), keys)
  }

  lemma {:induction false} RekeyedSame(n: Node, key: nat)
    ensures SameButItems(n, Rekeyed(n, key))
    ensures IsValid(n) ==> First(Rekeyed(n, key)) == key
    decreases n
  {
    if n.Internal? {
      forall i | 0 <= i < |n.children| ensures SameButItems(n.children[i], Rekeyed(n, key).children[i]) {
        RekeyedSame(n.children[i], key);
      }
      if IsValid(n) {
        RekeyedSame(n.children[0], key);
      }
    }
  }

  ghost predicate Chained(n: Node) { exists h: nat :: Shaped(n, h, None) }

  /** Every tree of more than a leaf that passes the check passes it too with items with which its leaves are not
      chained. */
  lemma ChainUnchecked(n: Node)
    requires n.Internal? && IsValid(n)
    ensures var m := Rekeyed(n, n.keys[0] + 1); SameButItems(n, m) && IsValid(m) && !Chained(m)
  {
    var key := n.keys[0] + 1;
    var m := Rekeyed(n, key);
    RekeyedSame(n, key);
    ItemsUnchecked(n, m);
    RekeyedSame(n.children[1], key);
    forall h: nat ensures !Shaped(m, h, None) {
      assert Between(m.children)[0] == First(m.children[1]) == key;
    }
  }

  /** Every key of an internal node is behind the first key, and a key of the tree. */
  lemma {:induction false} InnerKeyInside(n: Node, h: nat, end: Option<nat>, key: nat)
    requires Shaped(n, h, end) && InnerKey(n, key)
    ensures exists i :: 0 < i < |Contents(n)| && Contents(n)[i].key == key
    decreases h
  {
    if key in n.keys {
      var k :| 0 <= k < |n.keys| && n.keys[k] == key;
      InChild(n, h, end, k + 1, 0);
      assert Shaped(n.children[k + 1], h - 1, Follows(n.children, k + 1, end));
      FirstIsFirst(n.children[k + 1], h - 1, Follows(n.children, k + 1, end));
    } else {
      var i :| 0 <= i < |n.children| && InnerKey(n.children[i], key);
      assert Shaped(n.children[i], h - 1, Follows(n.children, i, end));
      InnerKeyInside(n.children[i], h - 1, Follows(n.children, i, end), key);
      var j :| 0 < j < |Contents(n.children[i])| && Contents(n.children[i])[j].key == key;
      InChild(n, h, end, i, j);
    }
  }

  /** Where item j of child i is among all items. */
  lemma {:induction false} InChild(n: Node, h: nat, end: Option<nat>, i: nat, j: nat)
    requires n.Internal? && Shaped(n, h, end) && i < |n.children| && (j < |Contents(n.children[i])| || j == 0)
    ensures j < |Contents(n.children[i])|
    ensures var at := |AllContents(n.children[..i])| + j;
            at < |Contents(n)| && Contents(n)[at] == Contents(n.children[i])[j] && (i > 0 ==> at > 0)
  {
    var c := n.children;
    assert Shaped(c[i], h - 1, Follows(c, i, end));
    FirstIsFirst(c[i], h - 1, Follows(c, i, end));
    assert c == c[..i] + c[i..] && c[i..][0] == c[i];
    ContentsJoined(c[..i], c[i..]);
    if i > 0 {
      assert Shaped(c[0], h - 1, Follows(c, 0, end)) && c[..i][0] == c[0];
      FirstIsFirst(c[0], h - 1, Follows(c, 0, end));
    }
  }

  /** Some leaf points behind the tree, if there is something. */
  lemma {:induction false} EndPointedTo(n: Node, h: nat, key: nat)
    requires Shaped(n, h, Some(key))
    ensures PointedTo(n, key)
    decreases h
  {
    if n.Internal? {
      var last := |n.children| - 1;
      assert Shaped(n.children[last], h - 1, Follows(n.children, last, Some(key)));
      EndPointedTo(n.children[last], h - 1, key);
    }
  }

  /** The first key of a child is no key of an internal node in any child. */
  lemma {:induction false} FirstKeyElsewhere(n: Node, h: nat, end: Option<nat>, k: nat, i: nat)
    requires n.Internal? && Shaped(n, h, end) && Strict(Contents(n)) && k < |n.children| && i < |n.children|
    ensures !InnerKey(n.children[i], First(n.children[k]))
  {
    var key := First(n.children[k]);
    InChild(n, h, end, k, 0);
    assert Shaped(n.children[k], h - 1, Follows(n.children, k, end)) &&
        Shaped(n.children[i], h - 1, Follows(n.children, i, end));
    FirstIsFirst(n.children[k], h - 1, Follows(n.children, k, end));
    if InnerKey(n.children[i], key) {
      InnerKeyInside(n.children[i], h - 1, Follows(n.children, i, end), key);
      var j :| 0 < j < |Contents(n.children[i])| && Contents(n.children[i])[j].key == key;
      InChild(n, h, end, i, j);
      PlacesDiffer(n, k, i, j);
      assert false;
    }
  }

  /** A first item and a later one of some child are at different places. */
  lemma {:induction false} PlacesDiffer(n: Node, k: nat, i: nat, j: nat)
    requires n.Internal? && k < |n.children| && i < |n.children| && 0 < j < |Contents(n.children[i])|
    ensures |AllContents(n.children[..k])| != |AllContents(n.children[..i])| + j
  {
    var c := n.children;
    if k <= i {
      assert c[..i] == c[..k] + c[k..i];
      ContentsJoined(c[..k], c[k..i]);
    } else {
      assert c[..k] == c[..i] + c[i..k] && c[i..k][0] == c[i];
      ContentsJoined(c[..i], c[i..k]);
    }
  }

  /** Well-shaped trees with strictly sorted items pass the check. */
  lemma {:induction false} ShapedIsValid(n: Node, h: nat, end: Option<nat>)
    requires Shaped(n, h, end) && Strict(Contents(n))
    ensures IsValid(n)
    decreases h
  {
    if n.Internal? {
      forall k | 0 <= k < |n.keys| ensures KeyValid(n, n.keys[k]) {
        assert Shaped(n.children[k], h - 1, Follows(n.children, k, end));
        EndPointedTo(n.children[k], h - 1, n.keys[k]);
        forall i | 0 <= i < |n.children| ensures !InnerKey(n.children[i], n.keys[k]) {
          FirstKeyElsewhere(n, h, end, k + 1, i);
        }
      }
      forall i | 0 <= i < |n.children| ensures IsValid(n.children[i]) {
        assert Shaped(n.children[i], h - 1, Follows(n.children, i, end));
        ChildStrict(n.children, i);
        ShapedIsValid(n.children[i], h - 1, Follows(n.children, i, end));
      }
    }
  }

  // ---- the root

  class Tree23 {
    var root: Option<Node>
    ghost var height: nat

    /** The items in the tree. */
    ghost function Items(): seq<Item>
      reads this
    {
      if root.Some? then Contents(root.value) else []
    }

    /** The leaves are all at one depth and chained, the last one ends the chain, and every size and key is right. */
    ghost predicate WellShaped()
      reads this
    {
      root.Some? ==> Shaped(root.value, height, None)
    }

    ghost predicate Valid()
      reads this
    {
      WellShaped() && Strict(Items())
    }

    constructor ()
      ensures Valid() && Items() == []
    {
      root := None;
    }

    /** UpsertWithStats: a batch that is not sorted is refused. */
    method Upsert(items: seq<Item>) returns (ok: bool)
      requires Valid()
      modifies this
      ensures ok <==> Sorted(items)
      ensures !ok ==> Valid() && Items() == old(Items())
      ensures ok ==> WellShaped() && Items() == Merge(old(Items()), items) && (Valid() <==> Strict(items))
    {
      ok := IsSorted(items);
      if !ok {
        return;
      }
      ghost var had := Items();
      MergeStrict(had, items);
      var nodes, intermediateKeys; ghost var h;
      if root.None? {
        if |items| == 0 {
          return;
        }
        nodes, intermediateKeys := SplitLeaf(items, None);
        h := 0;
      } else {
        var newFirstKey;
        nodes, newFirstKey, intermediateKeys := UpsertNode(root.value, items, height, None);
        h := height;
      }
      assert AllContents(nodes) == Merge(had, items);
      if |nodes| == 1 {
        assert nodes == [nodes[0]] && Shaped(nodes[0], h, Follows(nodes, 0, None));
        OneTree(nodes[0]);
        root, height := Some(nodes[0]), h;
      } else {
        var node;
        node, height := Promote(nodes, intermediateKeys, h);
        root := Some(node);
      }
    }
  }

  method IsSorted(items: seq<Item>) returns (r: bool)
    ensures r <==> Sorted(items)
  {
    for i := 0 to |items|
      invariant forall j, k :: 0 <= j < k < i ==> items[j].key <= items[k].key
    {
      if i > 0 && items[i].key < items[i - 1].key {
        return false;
      }
    }
    r := true;
  }

  // ---- every run

  /** What the batches leave. */
  ghost function Built(batches: seq<seq<Item>>, n: nat): seq<Item>
    requires n <= |batches|
  {
    if n == 0 then [] else Merge(Built(batches, n - 1), batches[n - 1])
  }

  /** The keys are those of all batches. */
  lemma {:induction false} BuiltKeys(batches: seq<seq<Item>>, n: nat, key: nat)
    requires n <= |batches|
    ensures Has(Built(batches, n), key) <==> exists b :: 0 <= b < n && Has(batches[b], key)
  {
    if n > 0 {
      BuiltKeys(batches, n - 1, key);
      MergeKeys(Built(batches, n - 1), batches[n - 1], key);
    }
  }

  /** A key keeps the value with which it first came. */
  lemma {:induction false} FirstValueStays(batches: seq<seq<Item>>, n: nat, b: nat, x: Item)
    requires b < n <= |batches| && x in batches[b] && forall c :: 0 <= c < b ==> !Has(batches[c], x.key)
    ensures x in Built(batches, n)
  {
    if b == n - 1 {
      BuiltKeys(batches, b, x.key);
      MergeAddsNew(Built(batches, b), batches[b], x);
    } else {
      FirstValueStays(batches, n - 1, b, x);
      MergeKeepsOld(Built(batches, n - 1), batches[n - 1], x);
    }
  }

  lemma {:induction false} SameKeySameItem(s: seq<Item>, x: Item, y: Item)
    requires Strict(s) && x in s && y in s && x.key == y.key
    ensures x == y
  {
    var i :| 0 <= i < |s| && s[i] == x;
    var j :| 0 <= j < |s| && s[j] == y;
    assert i == j;
  }

  /** An item of a batch is in the tree afterwards exactly if its key was not there, or was there with the same
      value: an existing key is not updated. */
  lemma UpdatesNothing(had: seq<Item>, items: seq<Item>, x: Item)
    requires Strict(had) && Strict(items) && x in items
    ensures x in Merge(had, items) <==> !Has(had, x.key) || x in had
  {
    MergeStrict(had, items);
    if !Has(had, x.key) {
      MergeAddsNew(had, items, x);
    } else {
      var i :| 0 <= i < |had| && had[i].key == x.key;
      MergeKeepsOld(had, items, had[i]);
      if x in Merge(had, items) {
        SameKeySameItem(Merge(had, items), x, had[i]);
      }
    }
  }

  /** Batches one after the other, each strictly sorted: a valid tree that passes the check, with the items that the
      batches leave. */
  method UpsertAll(batches: seq<seq<Item>>) returns (t: Tree23)
    requires forall b :: 0 <= b < |batches| ==> Strict(batches[b])
    ensures fresh(t) && t.Valid() && t.Items() == Built(batches, |batches|) && (t.root.Some? ==> IsValid(t.root.value))
  {
    t := new Tree23();
    for b := 0 to |batches|
      invariant fresh(t) && t.Valid() && t.Items() == Built(batches, b)
    {
      var ok := t.Upsert(batches[b]);
    }
    if t.root.Some? {
      ShapedIsValid(t.root.value, t.height, None);
    }
  }
}
