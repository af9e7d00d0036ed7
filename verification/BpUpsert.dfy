/** Bulk insertion into the 2-3 B+ tree: a sorted batch is spread over the children, leaves and nodes that get too
    large are split, and what does not fit below one root is promoted. */
module BpUpsert {
  import opened Options
  import opened Sums
  import opened BpItems
  import opened BpTree

  // ---- leaves

  /** sort.Search: the first item that is not below the key. */
  function Search(items: seq<Item>, key: nat): (r: nat)
    ensures r <= |items|
  {
    if items == [] || items[0].key >= key then 0 else 1 + Search(items[1..], key)
  }

  lemma {:induction false} SearchCuts(items: seq<Item>, key: nat)
    requires Sorted(items)
    ensures Cut(items, Search(items, key), key)
  {
    if items != [] && items[0].key < key {
      SearchCuts(items[1..], key);
      var r := Search(items[1..], key);
      assert Cut(items[1..], r, key);
      forall i | 0 <= i < |items| ensures if i < 1 + r then items[i].key < key else key <= items[i].key {
        assert i > 0 ==> items[i] == items[1..][i - 1];
      }
    }
  }

  /** addOrReplaceLeaf1. */
  method AddToOne(x: Item, items: seq<Item>) returns (r: seq<Item>)
    requires Sorted(items)
    ensures r == Merge([x], items)
  {
    var index0 := Search(items, x.key);
    SearchCuts(items, x.key);
    MergeSmaller([x], items, index0);
    MergeFirst([x], items[index0..]);
    if index0 < |items| {
      r := items[..index0] + [x];
      if items[index0].key == x.key {
        r := r + items[index0 + 1..];
      } else {
        r := r + items[index0..];
      }
    } else {
      r := items + [x];
    }
  }

  lemma {:induction false} MergeTwo(x: Item, y: Item, items: seq<Item>, index0: nat)
    requires Cut(items, index0, x.key)
    ensures Merge([x, y], items) == items[..index0] + [x] + Merge([y], Dropped(x.key, items[index0..]))
  {
    MergeSmaller([x, y], items, index0);
    MergeFirst([x, y], items[index0..]);
    assert [x, y][1..] == [y];
    Regroup(items[..index0], [x], Merge([y], Dropped(x.key, items[index0..])));
  }

  lemma {:induction false} MergeOne(y: Item, items: seq<Item>, k: nat)
    requires Cut(items, k, y.key)
    ensures Merge([y], items) == items[..k] + [y] + Dropped(y.key, items[k..])
  {
    MergeSmaller([y], items, k);
    MergeFirst([y], items[k..]);
    assert [y][1..] == [] && Merge([], Dropped(y.key, items[k..])) == Dropped(y.key, items[k..]);
    Regroup(items[..k], [y], Dropped(y.key, items[k..]));
  }

  lemma FourParts<T>(a: seq<T>, b: seq<T>, c: seq<T>, d: seq<T>)
    ensures a + (b + c + d) == a + b + c + d
  {
  }

  /** addOrReplaceLeaf2. */
  method AddToTwo(x: Item, y: Item, items: seq<Item>) returns (r: seq<Item>)
    requires Sorted(items) && x.key < y.key
    ensures r == Merge([x, y], items)
  {
    var index0, index1 := Search(items, x.key), Search(items, y.key);
    SearchCuts(items, x.key);
    SearchCuts(items, y.key);
    TwoCuts(x, y, items, index0, index1);
    var from := index0;
    if index0 < |items| {
      r := items[..index0] + [x];
      if items[index0].key == x.key {
        from := index0 + 1;
      }
      r := r + items[from..index1] + [y];
      if index1 < |items| {
        if items[index1].key == y.key {
          r := r + items[index1 + 1..];
        } else {
          r := r + items[index1..];
        }
      }
    } else {
      r := items + [x, y];
    }
  }

  lemma {:induction false} CutLater(items: seq<Item>, k: nat, key: nat, from: nat)
    requires Cut(items, k, key) && from <= k
    ensures Cut(items[from..], k - from, key) && items[from..][..k - from] == items[from..k]
    ensures items[from..][k - from..] == items[k..]
  {
  }

  function Behind(items: seq<Item>, index: nat, key: nat): nat {
    if index < |items| && items[index].key == key then index + 1 else index
  }

  lemma {:induction false} CutsInOrder(items: seq<Item>, index0: nat, key0: nat, index1: nat, key1: nat)
    requires key0 < key1 && Cut(items, index0, key0) && Cut(items, index1, key1)
    ensures index0 <= Behind(items, index0, key0) <= index1
    ensures Dropped(key0, items[index0..]) == items[Behind(items, index0, key0)..]
  {
    if index1 < |items| {
      assert key1 <= items[index1].key;
    }
  }

  lemma {:induction false} TwoCuts(x: Item, y: Item, items: seq<Item>, index0: nat, index1: nat)
    requires x.key < y.key && Cut(items, index0, x.key) && Cut(items, index1, y.key)
    ensures var from := Behind(items, index0, x.key);
            && index0 <= from <= index1
            && Merge([x, y], items) == items[..index0] + [x] + items[from..index1] + [y] +
                Dropped(y.key, items[index1..])
  {
    var from := Behind(items, index0, x.key);
    CutsInOrder(items, index0, x.key, index1, y.key);
    var b, d := items[from..index1], Dropped(y.key, items[index1..]);
    assert Merge([y], items[from..]) == b + [y] + d by {
      CutLater(items, index1, y.key, from);
      MergeOne(y, items[from..], index1 - from);
    }
    assert Merge([x, y], items) == items[..index0] + [x] + (b + [y] + d) by {
      MergeTwo(x, y, items, index0);
    }
    FourParts(items[..index0] + [x], b, [y], d);
  }

  /** addOrReplaceLeaf: an existing key stays as it is, others are put in order. */
  method AddOrReplaceLeaf(had: seq<Item>, items: seq<Item>) returns (r: seq<Item>)
    requires |had| <= 2 && Strict(had) && Sorted(items)
    ensures r == Merge(had, items)
  {
    if |had| == 0 {
      r := items;
      assert Merge([], items) == items;
    } else if |had| == 1 {
      assert had == [had[0]];
      r := AddToOne(had[0], items);
    } else {
      assert had == [had[0], had[1]];
      r := AddToTwo(had[0], had[1], items);
    }
  }

  /** The leaves made so far, which end where the rest starts. */
  ghost predicate LeavesTo(nodes: seq<Node>, keys: seq<nat>, start: nat, done: seq<Item>) {
    if nodes == [] then keys == [] && done == []
    else Forest(nodes, 0, Some(start)) && keys == NextKeys(nodes, Some(start)) && AllContents(nodes) == done
  }

  lemma LeafAdded(nodes: seq<Node>, keys: seq<nat>, leaf: Node, done: seq<Item>, end: Option<nat>)
    requires leaf.Leaf? && 1 <= |leaf.items| <= 2 && leaf.next == end && LeavesTo(nodes, keys, leaf.items[0].key, done)
    ensures var r := nodes + [leaf];
            && Forest(r, 0, end) && AllContents(r) == done + leaf.items && First(r[0]) == (done + leaf.items)[0].key
            && NextKeys(r, end) == keys + if end.Some? then [end.value] else []
  {
    Single(leaf, 0, end);
    ContentsJoined(nodes, [leaf]);
    if nodes != [] {
      ForestJoined(nodes, [leaf], 0, end);
      ForestFirst(nodes, 0, Some(leaf.items[0].key));
    } else {
      assert nodes + [leaf] == [leaf] && done + leaf.items == leaf.items;
    }
  }

  /** Leaves of two items as long as there are more than two, and one for what is left. */
  method SplitLeaf(items: seq<Item>, next: Option<nat>) returns (nodes: seq<Node>, intermediateKeys: seq<nat>)
    requires items != []
    ensures Forest(nodes, 0, next) && AllContents(nodes) == items && intermediateKeys == NextKeys(nodes, next)
    ensures First(nodes[0]) == items[0].key
  {
    nodes, intermediateKeys := [], [];
    var rest := items;
    ghost var done: seq<Item> := [];
    while |rest| > 2
      invariant rest != [] && done + rest == items && LeavesTo(nodes, intermediateKeys, rest[0].key, done)
    {
      var leaf := Leaf(rest[..2], Some(rest[2].key));
      LeafAdded(nodes, intermediateKeys, leaf, done, leaf.next);
      nodes, intermediateKeys := nodes + [leaf], intermediateKeys + [rest[2].key];
      assert rest == rest[..2] + rest[2..];
      Regroup(done, rest[..2], rest[2..]);
      done, rest := done + rest[..2], rest[2..];
    }
    LeafAdded(nodes, intermediateKeys, Leaf(rest, next), done, next);
    nodes := nodes + [Leaf(rest, next)];
    if next.Some? {
      intermediateKeys := intermediateKeys + [next.value];
    } else {
      assert intermediateKeys + [] == intermediateKeys;
    }
  }

  // ---- nodes

  /** The trees made so far of the children, which end where the rest starts. */
  ghost predicate GroupsTo(nodes: seq<Node>, keys: seq<nat>, h: nat, start: nat, done: seq<Node>) {
    if nodes == [] then keys == [] && done == []
    else
      && done != [] && Forest(nodes, h, Some(start)) && keys == NextKeys(nodes, Some(start))
      && AllContents(nodes) == AllContents(done)
         && First(nodes[0]) == First(done[0])
  }

  lemma GroupAdded(nodes: seq<Node>, keys: seq<nat>, h: nat, part: seq<Node>, done: seq<Node>, end: Option<nat>)
    requires Forest(part, h, end) && 2 <= |part| <= 3 && GroupsTo(nodes, keys, h + 1, First(part[0]), done)
    ensures var r := nodes + [Internal(part, Between(part))];
            && Forest(r, h + 1, end) && AllContents(r) == AllContents(done + part)
            && First(r[0]) == First((done + part)[0])
            && NextKeys(r, end) == keys + if end.Some? then [end.value] else []
  {
    var n := Internal(part, Between(part));
    Grown(part, h, end);
    Single(n, h + 1, end);
    ContentsJoined(nodes, [n]);
    ContentsJoined(done, part);
    if nodes != [] {
      ForestJoined(nodes, [n], h + 1, end);
    } else {
      assert nodes + [n] == [n] && done + part == part;
    }
  }

  lemma TwoKeys(rest: seq<Node>, end: Option<nat>)
    requires |rest| > 2
    ensures var keys := NextKeys(rest, end);
            |keys| >= 2 && keys[..1] == Between(rest[..2]) && keys[1] == First(rest[2]) &&
                keys[2..] == NextKeys(rest[2..], end)
  {
    BetweenPart(rest, 2);
  }

  lemma LastKeys(rest: seq<Node>, end: Option<nat>)
    requires rest != []
    ensures var keys, n := NextKeys(rest, end), |rest| - 1;
            |keys| >= n && keys[..n] == Between(rest) && keys[n..] == if end.Some? then [end.value] else []
  {
  }

  /** Some of the children have become nodes; the rest and its keys are still to come. */
  ghost predicate Grouping(children: seq<Node>, done: seq<Node>, rest: seq<Node>, restKeys: seq<nat>, nodes: seq<Node>,
                           keys: seq<nat>,
                           h: nat, end: Option<nat>) {
    && |rest| >= 2 && Forest(rest, h, end) && restKeys == NextKeys(rest, end) && done + rest == children
    && GroupsTo(nodes, keys, h + 1, First(rest[0]), done) && 2 * |nodes| + |rest| == |children|
  }

  lemma {:induction false} GroupNext(children: seq<Node>, done: seq<Node>, rest: seq<Node>, restKeys: seq<nat>,
                                     nodes: seq<Node>, keys: seq<nat>,
                                     h: nat, end: Option<nat>)
    requires Grouping(children, done, rest, restKeys, nodes, keys, h, end) && |rest| > 3
    ensures |restKeys| >= 2
    ensures Grouping(children, done + rest[..2], rest[2..], restKeys[2..], nodes + [Internal(rest[..2], restKeys[..1])],
        keys + [restKeys[1]], h, end)
  {
    ForestPart(rest, h, end, 2);
    TwoKeys(rest, end);
    GroupAdded(nodes, keys, h, rest[..2], done, Some(First(rest[2])));
    assert rest == rest[..2] + rest[2..];
    Regroup(done, rest[..2], rest[2..]);
  }

  lemma {:induction false} GroupEnd(children: seq<Node>, done: seq<Node>, rest: seq<Node>, restKeys: seq<nat>,
                                    nodes: seq<Node>, keys: seq<nat>,
                                    h: nat, end: Option<nat>)
    requires Grouping(children, done, rest, restKeys, nodes, keys, h, end) && |rest| <= 3
    ensures var n := |rest| - 1;
      n <= |restKeys| && Grouped(children, nodes + [Internal(rest, restKeys[..n])], keys + restKeys[n..], h, end)
  {
    LastKeys(rest, end);
    GroupAdded(nodes, keys, h, rest, done, end);
  }

  ghost predicate Grouped(children: seq<Node>, nodes: seq<Node>, keys: seq<nat>, h: nat, end: Option<nat>) {
    && Forest(nodes, h + 1, end) && AllContents(nodes) == AllContents(children) && keys == NextKeys(nodes, end)
    && |nodes| == |children| / 2 > 0 && First(nodes[0]) == First(children[0])
  }

  /** Nodes of two children as long as there are more than three, and one for what is left. */
  method Group(children: seq<Node>, newKeys: seq<nat>, ghost h: nat, ghost end: Option<nat>)
      returns (nodes: seq<Node>, intermediateKeys: seq<nat>)
    requires Forest(children, h, end) && |children| >= 2 && newKeys == NextKeys(children, end)
    ensures Grouped(children, nodes, intermediateKeys, h, end)
  {
    nodes, intermediateKeys := [], [];
    var rest, keys := children, newKeys;
    ghost var done: seq<Node> := [];
    assert done + rest == children;
    while |rest| > 3
      invariant Grouping(children, done, rest, keys, nodes, intermediateKeys, h, end)
    {
      GroupNext(children, done, rest, keys, nodes, intermediateKeys, h, end);
      nodes := nodes + [Internal(rest[..2], keys[..1])];
      intermediateKeys := intermediateKeys + [keys[1]];
      done, rest, keys := done + rest[..2], rest[2..], keys[2..];
    }
    GroupEnd(children, done, rest, keys, nodes, intermediateKeys, h, end);
    var n := |rest| - 1;
    nodes, intermediateKeys := nodes + [Internal(rest, keys[..n])], intermediateKeys + keys[n..];
  }

  /** Levels of nodes until one root is left. */
  method Promote(nodes: seq<Node>, intermediateKeys: seq<nat>, ghost h: nat) returns (root: Node, ghost height: nat)
    requires Forest(nodes, h, None) && |nodes| >= 2 && intermediateKeys == NextKeys(nodes, None)
    ensures Shaped(root, height, None) && Contents(root) == AllContents(nodes)
    decreases |nodes|
  {
    if |nodes| > 3 {
      var promotedNodes, promotedKeys := Group(nodes, intermediateKeys, h, None);
      root, height := Promote(promotedNodes, promotedKeys, h + 1);
    } else {
      Grown(nodes, h, None);
      assert intermediateKeys == Between(nodes);
      root, height := Internal(nodes, intermediateKeys), h + 1;
    }
  }

  // ---- the recursion

  /** The batch has an item in front of everything. */
  predicate Lowers(n: Node, items: seq<Item>) { items != [] && items[0].key < First(n) }

  function NewFirst(n: Node, items: seq<Item>): nat { if Lowers(n, items) then items[0].key else First(n) }

  /** What upsert of a tree gives: equally high trees with the merged items, the keys that follow them, and its new
      first key. */
  ghost predicate Upserted(n: Node, items: seq<Item>, h: nat, end: Option<nat>, nodes: seq<Node>,
                           newFirstKey: Option<nat>, keys: seq<nat>) {
    && Forest(nodes, h, end) && AllContents(nodes) == Merge(Contents(n), items) && keys == NextKeys(nodes, end)
    && First(nodes[0]) == NewFirst(n, items) && newFirstKey == if Lowers(n, items) then Some(items[0].key) else None
  }

  lemma Untouched(n: Node, h: nat, end: Option<nat>)
    requires Shaped(n, h, end)
    ensures Upserted(n, [], h, end, [n], None, if end.Some? then [end.value] else [])
  {
    Single(n, h, end);
  }

  /** The items of every child, and what is left from each child on. */
  ghost predicate Spread(keys: seq<nat>, items: seq<Item>, subsets: seq<seq<Item>>, rests: seq<seq<Item>>, n: nat) {
    && n <= |keys| && |subsets| == n && |rests| == n + 1 && rests[0] == items
    && forall i :: 0 <= i < n ==> SpreadAt(keys, subsets, rests, i)
  }

  ghost predicate SpreadAt(keys: seq<nat>, subsets: seq<seq<Item>>, rests: seq<seq<Item>>, i: nat)
    requires i < |keys| && i < |subsets| && i + 1 < |rests|
  {
    && Sorted(rests[i]) && Sorted(rests[i + 1]) && Cut(rests[i], |subsets[i]|, keys[i])
    && subsets[i] == rests[i][..|subsets[i]|] && rests[i + 1] == rests[i][|subsets[i]|..]
  }

  lemma SpreadNext(keys: seq<nat>, items: seq<Item>, subsets: seq<seq<Item>>, rests: seq<seq<Item>>, n: nat, k: nat)
    requires Spread(keys, items, subsets, rests, n) && n < |keys| && Sorted(rests[n]) && Cut(rests[n], k, keys[n])
    ensures Spread(keys, items, subsets + [rests[n][..k]], rests + [rests[n][k..]], n + 1) && Sorted(rests[n][k..])
  {
    var ss, rs := subsets + [rests[n][..k]], rests + [rests[n][k..]];
    forall i | 0 <= i < n + 1 ensures SpreadAt(keys, ss, rs, i) {
      assert i < n ==> SpreadAt(keys, subsets, rests, i);
    }
  }

  /** splitItems. */
  method SplitItems(keys: seq<nat>, items: seq<Item>) returns (itemSubsets: seq<seq<Item>>, ghost rests: seq<seq<Item>>)
    requires Sorted(items) && keys != []
    ensures |itemSubsets| == |keys| + 1 && Spread(keys, items, itemSubsets[..|keys|], rests, |keys|)
    ensures itemSubsets[|keys|] == rests[|keys|]
    ensures forall i :: 0 <= i <= |keys| ==> Sorted(itemSubsets[i])
  {
    itemSubsets, rests := [], [items];
    var kvItems := items;
    for i := 0 to |keys|
      invariant Spread(keys, items, itemSubsets, rests, i) && rests[i] == kvItems && Sorted(kvItems)
      invariant forall j :: 0 <= j < i ==> Sorted(itemSubsets[j])
    {
      var splitIndex := Search(kvItems, keys[i]);
      SearchCuts(kvItems, keys[i]);
      SpreadNext(keys, items, itemSubsets, rests, i, splitIndex);
      itemSubsets, rests := itemSubsets + [kvItems[..splitIndex]], rests + [kvItems[splitIndex..]];
      kvItems := kvItems[splitIndex..];
    }
    assert (itemSubsets + [kvItems])[..|keys|] == itemSubsets;
    itemSubsets := itemSubsets + [kvItems];
  }

  lemma StrictParts(a: seq<Item>, b: seq<Item>)
    requires Strict(a + b)
    ensures Strict(a) && Strict(b) && (b != [] ==> Cut(a, |a|, b[0].key))
  {
    var s := a + b;
    forall i, j | 0 <= i < j < |a| ensures a[i].key < a[j].key {
      assert s[i].key < s[j].key;
    }
    forall i, j | 0 <= i < j < |b| ensures b[i].key < b[j].key {
      assert s[|a| + i].key < s[|a| + j].key;
    }
    if b != [] {
      forall i | 0 <= i < |a| ensures a[i].key < b[0].key {
        assert s[i].key < s[|a|].key;
      }
    }
  }

  /** The children from i on have been replaced. */
  ghost predicate ReplacedFrom(children: seq<Node>, i: nat, items: seq<Item>, h: nat, end: Option<nat>,
                               newChildren: seq<Node>, newKeys: seq<nat>)
    requires i <= |children|
  {
    if i == |children| then newChildren == [] && newKeys == []
    else && Forest(newChildren, h, end) && AllContents(newChildren) == Merge(AllContents(children[i..]), items)
         && newKeys == NextKeys(newChildren, end) && First(newChildren[0]) == NewFirst(children[i], items)
         && |newChildren| >= |children| - i
  }

  lemma OneTree(n: Node)
    ensures AllContents([n]) == Contents(n)
  {
    assert [n][1..] == [];
    assert AllContents([n]) == Contents(n) + AllContents([]);
  }

  lemma LastReplaced(children: seq<Node>, i: nat, items: seq<Item>, h: nat, end: Option<nat>, nodes: seq<Node>,
                     fk: Option<nat>, keys: seq<nat>)
    requires i + 1 == |children| && Upserted(children[i], items, h, end, nodes, fk, keys)
    ensures ReplacedFrom(children, i, items, h, end, nodes, keys)
  {
    assert children[i..] == [children[i]];
    OneTree(children[i]);
  }

  /** The tree in front of the others: none of its items is in their range, and none of theirs in its own. */
  lemma {:induction false} OneReplaced(n: Node, others: seq<Node>, items: seq<Item>, k: nat, h: nat, end: Option<nat>,
                   nodes: seq<Node>, fk: Option<nat>, keys: seq<nat>, newChildren: seq<Node>, newKeys: seq<nat>)
    requires Forest(others, h, end) && Shaped(n, h, Some(First(others[0]))) && Strict(Contents(n) + AllContents(others))
    requires Cut(items, k, First(others[0])) && Upserted(n, items[..k], h, Some(First(others[0])), nodes, fk, keys)
    requires ReplacedFrom(others, 0, items[k..], h, end, newChildren, newKeys)
    ensures Forest(nodes + newChildren, h, end)
    ensures AllContents(nodes + newChildren) == Merge(Contents(n) + AllContents(others), items)
    ensures keys + newKeys == NextKeys(nodes + newChildren, end)
    ensures First((nodes + newChildren)[0]) == NewFirst(n, items)
  {
    var a, b := Contents(n), AllContents(others);
    assert others[0..] == others;
    ForestFirst(others, h, end);
    FirstIsFirst(n, h, Some(First(others[0])));
    StrictParts(a, b);
    MergeSplit(a, b, items, k);
    ContentsJoined(nodes, newChildren);
    assert !Lowers(others[0], items[k..]);
    ForestJoined(nodes, newChildren, h, end);
    assert k > 0 ==> items[..k][0] == items[0];
    assert k == 0 && items != [] ==> items[0].key >= First(others[0]) > First(n);
  }

  lemma {:induction false} FromChild(children: seq<Node>, i: nat, h: nat, end: Option<nat>)
    requires i + 1 < |children| && Forest(children, h, end) && Strict(AllContents(children))
    ensures Forest(children[i + 1..], h, end) && Shaped(children[i], h, Some(First(children[i + 1])))
    ensures AllContents(children[i..]) == Contents(children[i]) + AllContents(children[i + 1..])
    ensures Strict(AllContents(children[i..]))
  {
    ForestPart(children, h, end, i + 1);
    assert children[i..][0] == children[i] && children[i..][1..] == children[i + 1..];
    assert children == children[..i] + children[i..];
    ContentsJoined(children[..i], children[i..]);
    StrictParts(AllContents(children[..i]), AllContents(children[i..]));
    assert Shaped(children[i], h, Follows(children, i, end));
  }

  /** Child i goes in front of what the later children have become. */
  lemma {:induction false} ChildReplaced(children: seq<Node>, i: nat, items: seq<Item>, k: nat, h: nat,
                                         end: Option<nat>,
                     nodes: seq<Node>, fk: Option<nat>, keys: seq<nat>, newChildren: seq<Node>, newKeys: seq<nat>)
    requires i + 1 < |children| && Forest(children, h, end) && Strict(AllContents(children))
    requires Cut(items, k, First(children[i + 1]))
    requires Upserted(children[i], items[..k], h, Some(First(children[i + 1])), nodes, fk, keys)
    requires ReplacedFrom(children, i + 1, items[k..], h, end, newChildren, newKeys)
    ensures ReplacedFrom(children, i, items, h, end, nodes + newChildren, keys + newKeys)
  {
    var others := children[i + 1..];
    FromChild(children, i, h, end);
    assert others[0..] == others && others[0] == children[i + 1];
    assert ReplacedFrom(others, 0, items[k..], h, end, newChildren, newKeys);
    OneReplaced(children[i], others, items, k, h, end, nodes, fk, keys, newChildren, newKeys);
  }

  lemma ChildStrict(children: seq<Node>, i: nat)
    requires i < |children| && Strict(AllContents(children))
    ensures Strict(Contents(children[i]))
  {
    assert children == children[..i] + children[i..] && children[i..][0] == children[i];
    ContentsJoined(children[..i], children[i..]);
    StrictParts(AllContents(children[..i]), AllContents(children[i..]));
    StrictParts(Contents(children[i]), AllContents(children[i..][1..]));
  }

  method UpsertNode(n: Node, items: seq<Item>, ghost h: nat, ghost end: Option<nat>)
      returns (nodes: seq<Node>, newFirstKey: Option<nat>, intermediateKeys: seq<nat>)
    requires Shaped(n, h, end) && Strict(Contents(n)) && Sorted(items)
    ensures Upserted(n, items, h, end, nodes, newFirstKey, intermediateKeys)
    decreases h, 1
  {
    if n.Leaf? {
      nodes, newFirstKey, intermediateKeys := UpsertLeaf(n, items);
    } else {
      nodes, newFirstKey, intermediateKeys := UpsertInternal(n, items, h, end);
    }
  }

  method UpsertLeaf(n: Node, items: seq<Item>)
      returns (nodes: seq<Node>, newFirstKey: Option<nat>, intermediateKeys: seq<nat>)
    requires n.Leaf? && Shaped(n, 0, n.next) && Strict(n.items) && Sorted(items)
    ensures Upserted(n, items, 0, n.next, nodes, newFirstKey, intermediateKeys)
  {
    if |items| == 0 {
      Untouched(n, 0, n.next);
      return [n], None, if n.next.Some? then [n.next.value] else [];
    }
    var merged := AddOrReplaceLeaf(n.items, items);
    newFirstKey := if merged[0].key != n.items[0].key then Some(merged[0].key) else None;
    nodes, intermediateKeys := SplitLeaf(merged, n.next);
  }

  method UpsertInternal(n: Node, items: seq<Item>, ghost h: nat, ghost end: Option<nat>)
      returns (nodes: seq<Node>, newFirstKey: Option<nat>, intermediateKeys: seq<nat>)
    requires n.Internal? && Shaped(n, h, end) && Strict(Contents(n)) && Sorted(items)
    ensures Upserted(n, items, h, end, nodes, newFirstKey, intermediateKeys)
    decreases h, 0
  {
    if |items| == 0 {
      Untouched(n, h, end);
      var next := LastNext(n, h, end);
      return [n], None, if next.Some? then [next.value] else [];
    }
    var itemSubsets; ghost var rests;
    itemSubsets, rests := SplitItems(n.keys, items);
    AllSpread(n.children, items, itemSubsets, rests);
    FirstChild(n.children, itemSubsets, rests, h - 1, end);
    var newChildren, newKeys;
    newChildren, newFirstKey, newKeys := UpsertChildren(n.children, itemSubsets, rests, h - 1, end);
    nodes, intermediateKeys := Regrouped(n.children, items, newChildren, newKeys, h - 1, end);
  }

  /** The children's items: from each child on a rest is left, of which it takes what is below the next child. */
  ghost predicate Taken(children: seq<Node>, subsets: seq<seq<Item>>, rests: seq<seq<Item>>) {
    |subsets| == |rests| == |children| && forall i :: 0 <= i < |children| ==> TakenAt(children, subsets, rests, i)
  }

  ghost predicate TakenAt(children: seq<Node>, subsets: seq<seq<Item>>, rests: seq<seq<Item>>, i: nat)
    requires i < |children| == |subsets| == |rests|
  {
    && Sorted(subsets[i])
    && if i + 1 == |children| then subsets[i] == rests[i]
       else
         && Cut(rests[i], |subsets[i]|, First(children[i + 1])) && subsets[i] == rests[i][..|subsets[i]|]
         && rests[i + 1] == rests[i][|subsets[i]|..]
  }

  lemma AllSpread(children: seq<Node>, items: seq<Item>, subsets: seq<seq<Item>>, rests: seq<seq<Item>>)
    requires children != [] && |subsets| == |children| && (forall i :: 0 <= i < |subsets| ==> Sorted(subsets[i]))
    requires var keys := Between(children);
      Spread(keys, items, subsets[..|keys|], rests, |keys|) && subsets[|keys|] == rests[|keys|]
    ensures Taken(children, subsets, rests) && rests[0] == items
  {
    var keys := Between(children);
    forall i | 0 <= i < |children| ensures TakenAt(children, subsets, rests, i) {
      assert i < |keys| ==> SpreadAt(keys, subsets[..|keys|], rests, i);
    }
  }

  /** The batch has an item in front of everything exactly if the first child gets one. */
  lemma FirstChild(children: seq<Node>, itemSubsets: seq<seq<Item>>, rests: seq<seq<Item>>, h: nat, end: Option<nat>)
    requires Forest(children, h, end) && Strict(AllContents(children)) && Taken(children, itemSubsets, rests)
    ensures Lowers(children[0], itemSubsets[0]) <==> Lowers(children[0], rests[0])
    ensures Lowers(children[0], itemSubsets[0]) ==> itemSubsets[0][0] == rests[0][0]
  {
    assert TakenAt(children, itemSubsets, rests, 0);
    if |children| > 1 && itemSubsets[0] == [] && rests[0] != [] {
      FromChild(children, 0, h, end);
      ForestFirst(children[1..], h, end);
      FirstIsFirst(children[0], h, Some(First(children[1])));
      assert children[0..] == children;
      StrictParts(Contents(children[0]), AllContents(children[1..]));
      assert First(children[0]) < First(children[1]) <= rests[0][0].key;
    }
  }

  /** One child, behind which all are done. */
  method UpsertChild(children: seq<Node>, i: nat, itemSubsets: seq<seq<Item>>, newChildren: seq<Node>,
                     newKeys: seq<nat>,
                     ghost rests: seq<seq<Item>>, ghost h: nat, ghost end: Option<nat>)
      returns (newChildren': seq<Node>, childNewFirstKey: Option<nat>, newKeys': seq<nat>)
    requires Forest(children, h, end) && Strict(AllContents(children)) && Taken(children, itemSubsets, rests)
    requires i < |children|
    requires ReplacedFrom(children, i + 1, if i + 1 < |children| then rests[i + 1] else [], h, end, newChildren,
        newKeys)
    ensures ReplacedFrom(children, i, rests[i], h, end, newChildren', newKeys')
    ensures childNewFirstKey == if Lowers(children[i], itemSubsets[i]) then Some(itemSubsets[i][0].key) else None
    decreases h, 2
  {
    assert TakenAt(children, itemSubsets, rests, i) && Shaped(children[i], h, Follows(children, i, end));
    ChildStrict(children, i);
    var childNodes, childKeys;
    childNodes, childNewFirstKey, childKeys := UpsertNode(children[i], itemSubsets[i], h, Follows(children, i, end));
    newChildren', newKeys' := childNodes + newChildren, childKeys + newKeys;
    if i + 1 == |children| {
      LastReplaced(children, i, rests[i], h, end, childNodes, childNewFirstKey, childKeys);
      assert childNodes + [] == childNodes && childKeys + [] == childKeys;
    } else {
      ChildReplaced(children, i, rests[i], |itemSubsets[i]|, h, end, childNodes, childNewFirstKey, childKeys,
          newChildren, newKeys);
    }
  }

  /** A later child never has a new first key: all its items are at or behind the key in front of it. */
  lemma LaterChild(children: seq<Node>, itemSubsets: seq<seq<Item>>, rests: seq<seq<Item>>, i: nat)
    requires Taken(children, itemSubsets, rests) && 0 < i < |children|
    ensures !Lowers(children[i], itemSubsets[i])
  {
    assert TakenAt(children, itemSubsets, rests, i - 1) && TakenAt(children, itemSubsets, rests, i);
    if itemSubsets[i] != [] {
      assert itemSubsets[i][0] == rests[i][0] == rests[i - 1][|itemSubsets[i - 1]|];
    }
  }

  /** All children, from the last to the first. The new first key of the first one is passed up; no other has one. */
  method UpsertChildren(children: seq<Node>, itemSubsets: seq<seq<Item>>, ghost rests: seq<seq<Item>>, ghost h: nat,
                        ghost end: Option<nat>)
      returns (newChildren: seq<Node>, newFirstKey: Option<nat>, newKeys: seq<nat>)
    requires Forest(children, h, end) && Strict(AllContents(children)) && Taken(children, itemSubsets, rests)
    ensures ReplacedFrom(children, 0, rests[0], h, end, newChildren, newKeys)
    ensures newFirstKey == if Lowers(children[0], itemSubsets[0]) then Some(itemSubsets[0][0].key) else None
    decreases h, 3
  {
    newChildren, newKeys, newFirstKey := [], [], None;
    var i: nat := |children|;
    while i > 0
      invariant i <= |children|
      invariant ReplacedFrom(children, i, if i < |children| then rests[i] else [], h, end, newChildren, newKeys)
      invariant i > 0 ==> newFirstKey.None?
      invariant i == 0 ==>
        newFirstKey == if Lowers(children[0], itemSubsets[0]) then Some(itemSubsets[0][0].key) else None
    {
      i := i - 1;
      var childNewFirstKey;
      newChildren, childNewFirstKey, newKeys := UpsertChild(children, i, itemSubsets, newChildren, newKeys, rests, h,
          end);
      if i > 0 {
        LaterChild(children, itemSubsets, rests, i);
      }
      newFirstKey := childNewFirstKey;
    }
  }

  /** The new children below one node, or below several. */
  method Regrouped(ghost children: seq<Node>, ghost items: seq<Item>, newChildren: seq<Node>, newKeys: seq<nat>,
                   ghost h: nat, ghost end: Option<nat>)
      returns (nodes: seq<Node>, intermediateKeys: seq<nat>)
    requires |children| >= 2 && ReplacedFrom(children, 0, items, h, end, newChildren, newKeys)
    ensures Forest(nodes, h + 1, end) && AllContents(nodes) == Merge(AllContents(children), items)
    ensures intermediateKeys == NextKeys(nodes, end) && First(nodes[0]) == NewFirst(children[0], items)
  {
    assert children[0..] == children;
    if |newChildren| > 3 {
      nodes, intermediateKeys := Group(newChildren, newKeys, h, end);
    } else {
      Grown(newChildren, h, end);
      LastKeys(newChildren, end);
      var c := |newChildren| - 1;
      nodes, intermediateKeys := [Internal(newChildren, newKeys[..c])], newKeys[c..];
      Single(nodes[0], h + 1, end);
    }
  }

  /** lastLeaf().nextKey(). */
  method LastNext(n: Node, ghost h: nat, ghost end: Option<nat>) returns (next: Option<nat>)
    requires Shaped(n, h, end)
    ensures next == end
  {
    var last := n;
    ghost var k := h;
    while last.Internal?
      invariant Shaped(last, k, end)
      decreases k
    {
      assert Shaped(last.children[|last.children| - 1], k - 1, Follows(last.children, |last.children| - 1, end));
      last, k := last.children[|last.children| - 1], k - 1;
    }
    next := last.next;
  }
}
