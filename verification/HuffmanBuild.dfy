/** The construction of the Huffman codes in reducedict: symbols sorted by uses, a heap
    of merged trees, and codes that grow by one bit at every merge. */
module HuffmanBuild {
  import opened Arith
  import opened Words
  import opened HuffmanTree
  import opened HuffmanCost
  import opened HuffmanDepth
  import opened Sums

  /** A tree on the heap, with its uses and the order of its creation. */
  datatype Huff = Huff(tree: Tree<nat>, uses: nat, tieBreaker: nat)

  /** The order of the heap: by uses, then by creation. */
  predicate Less(a: Huff, b: Huff) {
    a.uses < b.uses || (a.uses == b.uses && a.tieBreaker < b.tieBreaker)
  }

  /** Every symbol's code is its path, with the first branch in the lowest bit of a
      uint64, and its number of bits is the length of the path. */
  ghost predicate Coded(t: Tree<nat>, code: seq<nat>, codeBits: seq<nat>)
    requires |code| == |codeBits| && Proper(t, |code|)
  {
    forall k :: 0 <= k < Size(t) ==> SymCoded(t, k, code, codeBits)
  }

  ghost predicate SymCoded(t: Tree<nat>, k: nat, code: seq<nat>, codeBits: seq<nat>)
    requires k < Size(t) && |code| == |codeBits| && Proper(t, |code|)
  {
    SymIn(t, k, |code|);
    codeBits[Sym(t, k)] == |Path(t, k)| && code[Sym(t, k)] == Value(Path(t, k)) % TWO64
  }

  /** The bit has been put below the codes of the tree's symbols, and of no others. */
  ghost predicate BitAdded(t: Tree<nat>, bit: nat, code: seq<nat>, codeBits: seq<nat>, code': seq<nat>,
                           codeBits': seq<nat>) {
    && |code| == |codeBits| == |code'| == |codeBits'|
    && forall s :: 0 <= s < |code| ==>
         if In(t, s) then code'[s] == (2 * code[s] + bit) % TWO64 && codeBits'[s] == codeBits[s] + 1
         else code'[s] == code[s] && codeBits'[s] == codeBits[s]
  }

  /** AddZero and AddOne: put a bit below the codes of all leaves. */
  method AddBit(t: Tree<nat>, bit: nat, code: array<nat>, codeBits: array<nat>, ghost uses: seq<nat>)
    requires bit < 2 && code != codeBits && code.Length == codeBits.Length == |uses| && Proper(t, |uses|)
    modifies code, codeBits
    ensures BitAdded(t, bit, old(code[..]), old(codeBits[..]), code[..], codeBits[..])
    ensures Cost(uses, codeBits[..], |uses|) == old(Cost(uses, codeBits[..], |uses|)) + Weight(t, uses)
  {
    match t
    case Leaf(s) =>
      code[s] := (2 * code[s] + bit) % TWO64;
      LeafDeeper(uses, codeBits[..], s);
      codeBits[s] := codeBits[s] + 1;
      assert codeBits[..] == old(codeBits[..])[s := old(codeBits[s]) + 1];
    case Node(l, r) =>
      AddBit(l, bit, code, codeBits, uses);
      AddBit(r, bit, code, codeBits, uses);
  }

  lemma {:induction false} LeafDeeper(uses: seq<nat>, bits: seq<nat>, s: nat)
    requires s < |uses| == |bits|
    ensures Cost(uses, bits[s := bits[s] + 1], |uses|) == Cost(uses, bits, |uses|) + uses[s]
  {
    CostUpdated(uses, bits, s, bits[s] + 1, |uses|);
    MulIsProduct(uses[s], bits[s]);
    MulIsProduct(uses[s], bits[s] + 1);
  }

  /** Two coded trees become a coded tree once a 0 is added on the left and a 1 on the
      right. */
  lemma {:induction false} MergeCoded(l: Tree<nat>, r: Tree<nat>, c0: seq<nat>, b0: seq<nat>, c1: seq<nat>,
                                      b1: seq<nat>, c2: seq<nat>, b2: seq<nat>)
    requires |c0| == |b0| && Proper(Node(l, r), |c0|) && Coded(l, c0, b0) && Coded(r, c0, b0)
    requires BitAdded(l, 0, c0, b0, c1, b1) && BitAdded(r, 1, c1, b1, c2, b2)
    ensures Coded(Node(l, r), c2, b2)
  {
    var t := Node(l, r);
    forall k | 0 <= k < Size(t) ensures SymCoded(t, k, c2, b2) {
      if k < Size(l) {
        SymIn(l, k, |c0|);
        assert SymCoded(l, k, c0, b0);
        LongerCode(Path(l, k), false);
      } else {
        SymIn(r, k - Size(l), |c0|);
        assert SymCoded(r, k - Size(l), c0, b0);
        LongerCode(Path(r, k - Size(l)), true);
      }
    }
  }

  lemma {:induction false} LongerCode(path: seq<bool>, bit: bool)
    ensures Value([bit] + path) % TWO64 == (2 * (Value(path) % TWO64) + if bit then 1 else 0) % TWO64
  {
    assert ([bit] + path)[1..] == path;
    DoubleWrapped(Value(path), if bit then 1 else 0);
  }

  lemma DoubleWrapped(v: nat, b: nat)
    ensures (2 * v + b) % TWO64 == (2 * (v % TWO64) + b) % TWO64
  {
    var q := v / TWO64;
    assert 2 * v + b == 2 * (v % TWO64) + b + 2 * q * TWO64;
  }

  /** Other trees keep their codes. */
  lemma {:induction false} OtherCoded(t: Tree<nat>, l: Tree<nat>, bit: nat, c0: seq<nat>, b0: seq<nat>, c1: seq<nat>,
                                      b1: seq<nat>)
    requires |c0| == |b0| && Proper(t, |c0|) && Coded(t, c0, b0) && Apart(t, l) && BitAdded(l, bit, c0, b0, c1, b1)
    ensures Coded(t, c1, b1)
  {
    forall k | 0 <= k < Size(t) ensures SymCoded(t, k, c1, b1) {
      SymIn(t, k, |c0|);
      assert SymCoded(t, k, c0, b0);
    }
  }

  // ---- the trees that are still to be merged

  /** The symbols from i on as single leaves, and the trees on the heap. */
  ghost function Pool(heap: seq<Huff>, i: nat, uses: seq<nat>): (r: seq<Huff>)
    requires i <= |uses|
  {
    seq(|uses| - i + |heap|, k requires 0 <= k < |uses| - i + |heap| =>
      if k < |uses| - i then Huff(Leaf(i + k), uses[i + k], 0) else heap[k - (|uses| - i)])
  }

  ghost function Weights(pool: seq<Huff>): (r: seq<nat>)
    ensures |r| == |pool| && forall k :: 0 <= k < |r| ==> r[k] == pool[k].uses
  {
    seq(|pool|, k requires 0 <= k < |pool| => pool[k].uses)
  }

  ghost predicate TreesOk(pool: seq<Huff>, uses: seq<nat>) {
    forall k :: 0 <= k < |pool| ==> Proper(pool[k].tree, |uses|) && pool[k].uses == Weight(pool[k].tree, uses)
  }

  ghost predicate AllApart(pool: seq<Huff>) {
    forall j, k :: 0 <= j < |pool| && 0 <= k < |pool| && j != k ==> Apart(pool[j].tree, pool[k].tree)
  }

  ghost predicate Covered(pool: seq<Huff>, s: nat) { exists k :: 0 <= k < |pool| && In(pool[k].tree, s) }

  ghost predicate AllCoded(pool: seq<Huff>, code: seq<nat>, codeBits: seq<nat>)
    requires |code| == |codeBits| && forall k :: 0 <= k < |pool| ==> Proper(pool[k].tree, |code|)
  {
    forall k :: 0 <= k < |pool| ==> Coded(pool[k].tree, code, codeBits)
  }

  /** The trees are disjoint, hold every symbol, and are coded. */
  ghost predicate PoolOk(pool: seq<Huff>, uses: seq<nat>, code: seq<nat>, codeBits: seq<nat>) {
    && |code| == |codeBits| == |uses| && TreesOk(pool, uses) && AllApart(pool)
    && (forall s: nat :: s < |uses| ==> Covered(pool, s)) && AllCoded(pool, code, codeBits)
  }

  /** The trees at a and then at b, taken out of the pool and merged. */
  ghost function Joined(x: Huff, y: Huff, tie: nat): Huff { Huff(Node(x.tree, y.tree), x.uses + y.uses, tie) }

  ghost predicate Merges(pool: seq<Huff>, a: nat, p1: seq<Huff>, b: nat, p2: seq<Huff>, tie: nat) {
    a < |pool| && p1 == RemoveAt(pool, a) && b < |p1| && p2 == RemoveAt(p1, b) + [Joined(pool[a], p1[b], tie)]
  }

  /** The place in the pool of a tree that is not merged, and of the second tree. */
  function Origin(a: nat, k: nat): nat { if k < a then k else k + 1 }

  lemma MergedApart(pool: seq<Huff>, a: nat, p1: seq<Huff>, b: nat, p2: seq<Huff>, tie: nat)
    requires Merges(pool, a, p1, b, p2, tie) && AllApart(pool)
    ensures AllApart(p2) && Apart(pool[a].tree, p1[b].tree)
  {
    assert p1[b] == pool[Origin(a, b)];
    forall j, k | 0 <= j < |p2| && 0 <= k < |p2| && j != k ensures Apart(p2[j].tree, p2[k].tree) {
      if j < |p2| - 1 {
        assert p2[j] == p1[Origin(b, j)] == pool[Origin(a, Origin(b, j))];
      }
      if k < |p2| - 1 {
        assert p2[k] == p1[Origin(b, k)] == pool[Origin(a, Origin(b, k))];
      }
    }
  }

  lemma MergedCovered(pool: seq<Huff>, a: nat, p1: seq<Huff>, b: nat, p2: seq<Huff>, tie: nat, s: nat)
    requires Merges(pool, a, p1, b, p2, tie) && Covered(pool, s)
    ensures Covered(p2, s)
  {
    var k :| 0 <= k < |pool| && In(pool[k].tree, s);
    if k == a {
      assert In(p2[|p2| - 1].tree, s);
    } else {
      var j := if k < a then k else k - 1;
      assert p1[j] == pool[k];
      if j == b {
        assert In(p2[|p2| - 1].tree, s);
      } else {
        var i := if j < b then j else j - 1;
        assert p2[i] == p1[j];
      }
    }
  }

  lemma MergedCoded(pool: seq<Huff>, a: nat, p1: seq<Huff>, b: nat, p2: seq<Huff>, tie: nat, uses: seq<nat>,
                    c0: seq<nat>, b0: seq<nat>, c1: seq<nat>, b1: seq<nat>, c2: seq<nat>, b2: seq<nat>)
    requires Merges(pool, a, p1, b, p2, tie) && PoolOk(pool, uses, c0, b0)
    requires BitAdded(pool[a].tree, 0, c0, b0, c1, b1) && BitAdded(p1[b].tree, 1, c1, b1, c2, b2)
    ensures PoolOk(p2, uses, c2, b2)
  {
    MergedApart(pool, a, p1, b, p2, tie);
    forall s: nat | s < |uses| ensures Covered(p2, s) {
      MergedCovered(pool, a, p1, b, p2, tie, s);
    }
    assert p1[b] == pool[Origin(a, b)];
    forall k | 0 <= k < |p2|
      ensures Proper(p2[k].tree, |uses|) && p2[k].uses == Weight(p2[k].tree, uses) && Coded(p2[k].tree, c2, b2) {
      if k < |p2| - 1 {
        var o := Origin(a, Origin(b, k));
        assert p2[k] == pool[o];
        OtherCoded(pool[o].tree, pool[a].tree, 0, c0, b0, c1, b1);
        OtherCoded(pool[o].tree, p1[b].tree, 1, c1, b1, c2, b2);
      } else {
        MergeCoded(pool[a].tree, p1[b].tree, c0, b0, c1, b1, c2, b2);
      }
    }
  }

  /** At the start every symbol is a leaf with an empty code. */
  lemma StartPool(uses: seq<nat>, code: seq<nat>, codeBits: seq<nat>)
    requires |code| == |codeBits| == |uses| && forall s :: 0 <= s < |uses| ==> code[s] == codeBits[s] == 0
    ensures PoolOk(Pool([], 0, uses), uses, code, codeBits) && Weights(Pool([], 0, uses)) == uses
  {
    var pool := Pool([], 0, uses);
    forall s: nat | s < |uses| ensures Covered(pool, s) {
      assert In(pool[s].tree, s);
    }
    forall k | 0 <= k < |pool| ensures Coded(pool[k].tree, code, codeBits) {
      assert SymCoded(pool[k].tree, 0, code, codeBits);
    }
  }

  // ---- the loop

  ghost predicate SortedUses(uses: seq<nat>) { forall i, j :: 0 <= i < j < |uses| ==> uses[i] <= uses[j] }

  /** The symbols from i on have no code yet. */
  ghost predicate Uncoded(code: seq<nat>, codeBits: seq<nat>, i: nat) {
    |code| == |codeBits| && forall s :: i <= s < |code| ==> code[s] == codeBits[s] == 0
  }

  /** The top of the heap. */
  method Top(heap: seq<Huff>) returns (k: nat)
    requires heap != []
    ensures k < |heap| && forall j :: 0 <= j < |heap| ==> !Less(heap[j], heap[k])
  {
    k := 0;
    for j := 1 to |heap|
      invariant k < |heap| && forall i :: 0 <= i < j ==> !Less(heap[i], heap[k])
    {
      if Less(heap[j], heap[k]) {
        k := j;
      }
    }
  }

  /** x is the lightest tree of the pool, at a, and the rest is the pool after. */
  ghost predicate Lightest(pool: seq<Huff>, a: nat, x: Huff, rest: seq<Huff>) {
    a < |pool| && x == pool[a] && rest == RemoveAt(pool, a) && forall k :: 0 <= k < |pool| ==> x.uses <= pool[k].uses
  }

  lemma TopLightest(heap: seq<Huff>, i: nat, uses: seq<nat>, top: nat)
    requires i <= |uses| && top < |heap| && SortedUses(uses) && (i >= |uses| || heap[top].uses < uses[i])
    requires forall j :: 0 <= j < |heap| ==> !Less(heap[j], heap[top])
    ensures Lightest(Pool(heap, i, uses), |uses| - i + top, heap[top], Pool(RemoveAt(heap, top), i, uses))
  {
    assert Pool(RemoveAt(heap, top), i, uses) == RemoveAt(Pool(heap, i, uses), |uses| - i + top);
  }

  lemma ListedLightest(heap: seq<Huff>, i: nat, uses: seq<nat>, top: nat)
    requires i < |uses| && SortedUses(uses)
    requires heap == [] || (top < |heap| && uses[i] <= heap[top].uses &&
        forall j :: 0 <= j < |heap| ==> !Less(heap[j], heap[top]))
    ensures Lightest(Pool(heap, i, uses), 0, Huff(Leaf(i), uses[i], 0), Pool(heap, i + 1, uses))
  {
    assert Pool(heap, i + 1, uses) == RemoveAt(Pool(heap, i, uses), 0);
  }

  /** Take the next child of a new node from the heap or from the list, whichever has
      fewer uses, and put its bit below the codes of its symbols. */
  method Take(heap: seq<Huff>, i: nat, uses: seq<nat>, bit: nat, code: array<nat>, codeBits: array<nat>)
      returns (x: Huff, heap': seq<Huff>, i': nat, ghost a: nat)
    requires i <= |uses| && |uses| - i + |heap| > 0 && SortedUses(uses) && bit < 2
    requires code != codeBits && code.Length == codeBits.Length == |uses| && Uncoded(code[..], codeBits[..], i)
    requires TreesOk(Pool(heap, i, uses), uses) && AllApart(Pool(heap, i, uses))
    modifies code, codeBits
    ensures i' <= |uses| && Lightest(Pool(heap, i, uses), a, x, Pool(heap', i', uses))
    ensures BitAdded(x.tree, bit, old(code[..]), old(codeBits[..]), code[..], codeBits[..])
    ensures Uncoded(code[..], codeBits[..], i')
    ensures Cost(uses, codeBits[..], |uses|) == old(Cost(uses, codeBits[..], |uses|)) + x.uses
  {
    var top := 0;
    if |heap| > 0 {
      top := Top(heap);
    }
    if |heap| > 0 && (i >= |uses| || heap[top].uses < uses[i]) {
      TopLightest(heap, i, uses, top);
      HeapSymbols(heap, i, uses, top);
      x, heap', i', a := heap[top], RemoveAt(heap, top), i, |uses| - i + top;
      AddBit(x.tree, bit, code, codeBits, uses);
    } else {
      ListedLightest(heap, i, uses, top);
      x, heap', i', a := Huff(Leaf(i), uses[i], 0), heap, i + 1, 0;
      FirstBit(i, bit, code, codeBits, uses);
    }
  }

  /** A listed symbol gets its first bit. */
  method FirstBit(i: nat, bit: nat, code: array<nat>, codeBits: array<nat>, ghost uses: seq<nat>)
    requires i < |uses| && bit < 2 && code != codeBits && code.Length == codeBits.Length == |uses|
    requires Uncoded(code[..], codeBits[..], i)
    modifies code, codeBits
    ensures BitAdded(Leaf(i), bit, old(code[..]), old(codeBits[..]), code[..], codeBits[..])
    ensures Uncoded(code[..], codeBits[..], i + 1)
    ensures Cost(uses, codeBits[..], |uses|) == old(Cost(uses, codeBits[..], |uses|)) + uses[i]
  {
    LeafDeeper(uses, codeBits[..], i);
    code[i], codeBits[i] := bit, 1;
    assert codeBits[..] == old(codeBits[..])[i := old(codeBits[i]) + 1];
  }

  /** The trees on the heap hold none of the listed symbols. */
  lemma HeapSymbols(heap: seq<Huff>, i: nat, uses: seq<nat>, h: nat)
    requires i <= |uses| && h < |heap| && AllApart(Pool(heap, i, uses))
    ensures forall s :: i <= s < |uses| ==> !In(heap[h].tree, s)
  {
    var pool := Pool(heap, i, uses);
    forall s | i <= s < |uses| ensures !In(heap[h].tree, s) {
      assert pool[s - i].tree == Leaf(s) && pool[|uses| - i + h] == heap[h];
      assert Apart(pool[s - i].tree, pool[|uses| - i + h].tree);
    }
  }

  /** No code for the pool's weights on top of the cost so far is cheaper than any code. */
  ghost predicate Bounded(pool: seq<Huff>, uses: seq<nat>, cost: nat) {
    forall c: nat :: LowerBound(Weights(pool), c) ==> LowerBound(uses, c + cost)
  }

  lemma BoundedMerge(pool: seq<Huff>, a: nat, x: Huff, p1: seq<Huff>, b: nat, y: Huff, rest: seq<Huff>, p2: seq<Huff>,
                     tie: nat,
                     uses: seq<nat>, cost: nat)
    requires Lightest(pool, a, x, p1) && Lightest(p1, b, y, rest) && p2 == rest + [Joined(x, y, tie)]
    requires Bounded(pool, uses, cost)
    ensures Bounded(p2, uses, cost + x.uses + y.uses)
  {
    var w, w1, w2 := Weights(pool), Weights(p1), Weights(p2);
    assert w1 == RemoveAt(w, a) && w2 == RemoveAt(w1, b) + [w[a] + w1[b]];
    forall c: nat | LowerBound(w2, c) ensures LowerBound(uses, c + (cost + x.uses + y.uses)) {
      GreedyStep(w, a, b, w1, w2, c);
      assert LowerBound(w, c + x.uses + y.uses);
    }
  }

  /** All trees of the pool are settled, and together they have all the uses. */
  ghost predicate AllSettled(pool: seq<Huff>, uses: seq<nat>, last: nat) {
    Total(Weights(pool)) == Total(uses) && forall k :: 0 <= k < |pool| ==> Settled(pool[k].tree, uses, last)
  }

  lemma SettledMerge(pool: seq<Huff>, a: nat, x: Huff, p1: seq<Huff>, b: nat, y: Huff, rest: seq<Huff>, p2: seq<Huff>,
                     tie: nat,
                     uses: seq<nat>, last: nat)
    requires Lightest(pool, a, x, p1) && Lightest(p1, b, y, rest) && p2 == rest + [Joined(x, y, tie)]
    requires TreesOk(pool, uses) && AllSettled(pool, uses, last)
    ensures AllSettled(p2, uses, y.uses)
  {
    var w, w1, w2 := Weights(pool), Weights(p1), Weights(p2);
    assert w1 == RemoveAt(w, a) && w2 == RemoveAt(w1, b) + [w[a] + w1[b]];
    TotalMerged(w, a, b, w1, w2);
    assert y == pool[Origin(a, b)];
    PairHeavy(x.tree, y.tree, uses, last);
    forall k | 0 <= k < |p2| ensures Settled(p2[k].tree, uses, y.uses) {
      if k < |p2| - 1 {
        assert p2[k] == p1[Origin(b, k)] == pool[Origin(a, Origin(b, k))];
        SettledOn(p2[k].tree, uses, last, y.uses);
      }
    }
  }

  /** One new node. */
  method MergeTwo(heap: seq<Huff>, i: nat, uses: seq<nat>, tieBreaker: nat, code: array<nat>, codeBits: array<nat>,
                  ghost last: nat)
      returns (heap': seq<Huff>, i': nat, ghost last': nat)
    requires i <= |uses| && |uses| - i + |heap| > 1 && SortedUses(uses)
    requires code != codeBits && code.Length == codeBits.Length == |uses| && Uncoded(code[..], codeBits[..], i)
    requires PoolOk(Pool(heap, i, uses), uses, code[..], codeBits[..])
    requires Bounded(Pool(heap, i, uses), uses, Cost(uses, codeBits[..], |uses|))
    requires AllSettled(Pool(heap, i, uses), uses, last)
    modifies code, codeBits
    ensures i' <= |uses| && |uses| - i' + |heap'| == |uses| - i + |heap| - 1 && heap' != []
    ensures Uncoded(code[..], codeBits[..], i')
    ensures PoolOk(Pool(heap', i', uses), uses, code[..], codeBits[..])
    ensures Bounded(Pool(heap', i', uses), uses, Cost(uses, codeBits[..], |uses|))
    ensures AllSettled(Pool(heap', i', uses), uses, last')
  {
    ghost var pool, c0, b0, cost := Pool(heap, i, uses), code[..], codeBits[..], Cost(uses, codeBits[..], |uses|);
    var x, h1, i1; ghost var a;
    x, h1, i1, a := Take(heap, i, uses, 0, code, codeBits);
    ghost var p1, c1, b1 := Pool(h1, i1, uses), code[..], codeBits[..];
    RestOk(pool, a, p1, uses);
    var y, h2; ghost var b;
    y, h2, i', b := Take(h1, i1, uses, 1, code, codeBits);
    heap' := h2 + [Huff(Node(x.tree, y.tree), x.uses + y.uses, tieBreaker)];
    ghost var p2 := Pool(heap', i', uses);
    assert p2 == Pool(h2, i', uses) + [Joined(x, y, tieBreaker)];
    MergedCoded(pool, a, p1, b, p2, tieBreaker, uses, c0, b0, c1, b1, code[..], codeBits[..]);
    BoundedMerge(pool, a, x, p1, b, y, Pool(h2, i', uses), p2, tieBreaker, uses, cost);
    SettledMerge(pool, a, x, p1, b, y, Pool(h2, i', uses), p2, tieBreaker, uses, last);
    last' := y.uses;
  }

  lemma RestOk(pool: seq<Huff>, a: nat, p1: seq<Huff>, uses: seq<nat>)
    requires a < |pool| && p1 == RemoveAt(pool, a) && TreesOk(pool, uses) && AllApart(pool)
    ensures TreesOk(p1, uses) && AllApart(p1)
  {
    forall j, k | 0 <= j < |p1| && 0 <= k < |p1| && j != k ensures Apart(p1[j].tree, p1[k].tree) {
      assert p1[j] == pool[Origin(a, j)] && p1[k] == pool[Origin(a, k)];
    }
  }

  /** No prefix-free code is cheaper than these lengths. */
  ghost predicate Optimal(uses: seq<nat>, lengths: seq<nat>)
    requires |lengths| == |uses|
  {
    forall codes :: |codes| == |uses| && PrefixFreeCodes(codes) ==>
        Cost(uses, lengths, |uses|) <= Cost(uses, Lengths(codes), |uses|)
  }

  /** The whole construction. A single symbol has an empty code. Codes have at most 64 bits
      as long as there are fewer uses than Fib(65) = 44945570212853. */
  method BuildCodes(uses: seq<nat>) returns (root: Tree<nat>, code: array<nat>, codeBits: array<nat>)
    requires uses != [] && SortedUses(uses) && forall s :: 0 <= s < |uses| ==> uses[s] > 0
    ensures fresh(code) && fresh(codeBits) && code.Length == codeBits.Length == |uses|
    ensures Holds(root, |uses|) && Coded(root, code[..], codeBits[..])
    ensures Optimal(uses, codeBits[..]) && forall n: nat :: Total(uses) < Fib(n) ==> Height(root) < n
  {
    code := new nat[|uses|](i => 0);
    codeBits := new nat[|uses|](i => 0);
    var heap, i, tieBreaker := [], 0, 0;
    StartPool(uses, code[..], codeBits[..]);
    StartBounded(uses, codeBits[..]);
    ghost var last := 0;
    StartSettled(uses);
    while |heap| + (|uses| - i) > 1
      invariant i <= |uses| && |uses| - i + |heap| > 0 && Uncoded(code[..], codeBits[..], i)
      invariant PoolOk(Pool(heap, i, uses), uses, code[..], codeBits[..])
      invariant Bounded(Pool(heap, i, uses), uses, Cost(uses, codeBits[..], |uses|))
      invariant AllSettled(Pool(heap, i, uses), uses, last)
      decreases |heap| + (|uses| - i)
    {
      heap, i, last := MergeTwo(heap, i, uses, tieBreaker, code, codeBits, last);
      tieBreaker := tieBreaker + 1;
    }
    root := if |heap| > 0 then heap[0].tree else Leaf(i);
    LastTree(Pool(heap, i, uses), root, uses, code[..], codeBits[..]);
    LastHeight(Pool(heap, i, uses), root, uses, last);
  }

  lemma StartSettled(uses: seq<nat>)
    requires forall s :: 0 <= s < |uses| ==> uses[s] > 0
    ensures AllSettled(Pool([], 0, uses), uses, 0)
  {
    assert Weights(Pool([], 0, uses)) == uses;
  }

  lemma LastHeight(pool: seq<Huff>, root: Tree<nat>, uses: seq<nat>, last: nat)
    requires |pool| == 1 && pool[0].tree == root && TreesOk(pool, uses) && AllSettled(pool, uses, last)
    ensures forall n: nat :: Total(uses) < Fib(n) ==> Height(root) < n
  {
    assert Weights(pool) == [] + [pool[0].uses];
    TotalSnoc([], pool[0].uses);
    forall n: nat | Total(uses) < Fib(n) ensures Height(root) < n {
      HeightBound(root, uses, n);
    }
  }

  lemma StartBounded(uses: seq<nat>, bits: seq<nat>)
    requires |bits| == |uses| && forall s :: 0 <= s < |uses| ==> bits[s] == 0
    ensures Bounded(Pool([], 0, uses), uses, Cost(uses, bits, |uses|))
  {
    NoCost(uses, bits, |uses|);
    assert Weights(Pool([], 0, uses)) == uses;
  }

  lemma {:induction false} NoCost(uses: seq<nat>, bits: seq<nat>, n: nat)
    requires n <= |bits| == |uses| && forall s :: 0 <= s < |uses| ==> bits[s] == 0
    ensures Cost(uses, bits, n) == 0
  {
    if n > 0 {
      NoCost(uses, bits, n - 1);
      MulIsProduct(uses[n - 1], 0);
    }
  }

  lemma LastTree(pool: seq<Huff>, root: Tree<nat>, uses: seq<nat>, code: seq<nat>, codeBits: seq<nat>)
    requires |pool| == 1 && pool[0].tree == root && PoolOk(pool, uses, code, codeBits)
    requires Bounded(pool, uses, Cost(uses, codeBits, |uses|))
    ensures Holds(root, |uses|) && Coded(root, code, codeBits) && Optimal(uses, codeBits)
  {
    forall s: nat | s < |uses| ensures In(root, s) {
      assert Covered(pool, s);
    }
    assert LowerBound(Weights(pool), 0);
    forall codes | |codes| == |uses| && PrefixFreeCodes(codes)
      ensures Cost(uses, codeBits, |uses|) <= Cost(uses, Lengths(codes), |uses|) {
      BoundForCodes(uses, 0 + Cost(uses, codeBits, |uses|), codes);
    }
  }
}
