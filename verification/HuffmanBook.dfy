/** From symbols and their uses to a code for the writer and a dictionary for the reader. */
module HuffmanBook {
  import opened Words
  import opened Sums
  import opened HuffmanTree
  import opened HuffmanDepth
  import opened HuffmanBuild
  import opened HuffmanDict
  import opened HuffmanCoder
  import opened DecodeTables
  import opened WordLayout
  import opened Sorting
  import opened Reencode

  /** The tree with other symbols: leaf s becomes leaf labels[s]. */
  ghost function Relabel<T>(t: Tree<nat>, labels: seq<T>): Tree<T>
    requires Proper(t, |labels|)
  {
    match t
    case Leaf(s) => Leaf(labels[s])
    case Node(l, r) => Node(Relabel(l, labels), Relabel(r, labels))
  }

  lemma {:induction false} RelabelSize<T>(t: Tree<nat>, labels: seq<T>)
    requires Proper(t, |labels|)
    ensures Size(Relabel(t, labels)) == Size(t)
  {
    match t
    case Leaf(_) =>
    case Node(l, r) =>
      RelabelSize(l, labels);
      RelabelSize(r, labels);
  }

  lemma {:induction false} RelabelLeaf<T>(t: Tree<nat>, labels: seq<T>, k: nat)
    requires Proper(t, |labels|) && k < Size(t)
    ensures Sym(t, k) < |labels| && k < Size(Relabel(t, labels))
    ensures Path(Relabel(t, labels), k) == Path(t, k) && Sym(Relabel(t, labels), k) == labels[Sym(t, k)]
  {
    match t
    case Leaf(_) =>
    case Node(l, r) =>
      RelabelSize(l, labels);
      RelabelSize(r, labels);
      if k < Size(l) {
        RelabelLeaf(l, labels, k);
      } else {
        RelabelLeaf(r, labels, k - Size(l));
      }
  }

  lemma {:induction false} RelabelIn<T>(t: Tree<nat>, labels: seq<T>, s: nat)
    requires Proper(t, |labels|) && In(t, s)
    ensures s < |labels| && In(Relabel(t, labels), labels[s])
  {
    match t
    case Leaf(_) =>
    case Node(l, r) =>
      if In(l, s) {
        RelabelIn(l, labels, s);
      } else {
        RelabelIn(r, labels, s);
      }
  }

  lemma {:induction false} LabelIn<T>(t: Tree<nat>, labels: seq<T>, v: T)
    requires Proper(t, |labels|) && In(Relabel(t, labels), v)
    ensures v in labels
  {
    match t
    case Leaf(_) =>
    case Node(l, r) =>
      if In(Relabel(l, labels), v) {
        LabelIn(l, labels, v);
      } else {
        LabelIn(r, labels, v);
      }
  }

  /** The bits that are written for a symbol are its code in the relabelled tree. */
  lemma {:induction false} WrittenCode<T>(t: Tree<nat>, labels: seq<T>, code: seq<nat>, codeBits: seq<nat>, s: nat)
    requires |code| == |codeBits| == |labels| && Holds(t, |labels|) && Coded(t, code, codeBits) && Height(t) <= 64
    requires AllDifferent(labels) && s < |labels|
    ensures In(Relabel(t, labels), labels[s]) && ToBits(code[s], codeBits[s]) == CodeOf(Relabel(t, labels), labels[s])
  {
    RelabelIn(t, labels, s);
    var k := CodeIsPath(Relabel(t, labels), labels[s]);
    RelabelSize(t, labels);
    RelabelLeaf(t, labels, k);
    assert Sym(t, k) == s;
    LeafBits(t, code, codeBits, k);
  }

  lemma {:induction false} LeafBits(t: Tree<nat>, code: seq<nat>, codeBits: seq<nat>, k: nat)
    requires |code| == |codeBits| && Proper(t, |code|) && Coded(t, code, codeBits) && Height(t) <= 64 && k < Size(t)
    ensures Sym(t, k) < |code| && ToBits(code[Sym(t, k)], codeBits[Sym(t, k)]) == Path(t, k)
  {
    SymIn(t, k, |code|);
    assert SymCoded(t, k, code, codeBits);
    PathInHeight(t, k);
    ValueFits(Path(t, k));
    PathBits(Path(t, k));
  }

  /** No stored code word starts another: bits that start with the words of two symbols are of one symbol. */
  lemma WordsPrefixFree(t: Tree<nat>, code: seq<nat>, codeBits: seq<nat>, r: nat, s: nat, data: seq<bool>, at: nat)
    requires |code| == |codeBits| && Holds(t, |code|) && Coded(t, code, codeBits) && Height(t) <= 64 && r < |code|
    requires s < |code|
    requires Here(data, at, ToBits(code[r], codeBits[r])) && Here(data, at, ToBits(code[s], codeBits[s]))
    ensures r == s
  {
    var i := CodeIsPath(t, r);
    var j := CodeIsPath(t, s);
    LeafBits(t, code, codeBits, i);
    LeafBits(t, code, codeBits, j);
    PrefixFree(t, i, j, data, at);
  }

  /** A dictionary in the order in which it is written: depths and symbols. */
  datatype Dictionary<T> = Dictionary(depths: seq<nat>, syms: seq<T>)

  ghost predicate DictionaryOf<T>(d: Dictionary<T>, t: Tree<T>) {
    |d.depths| == Size(t) && ListedAt(t, 0, d.depths, d.syms, 0)
  }

  /** It has as many entries as there are values, each a value, and none deeper than a code word is wide. */
  ghost predicate ListsValues<T>(d: Dictionary<T>, values: seq<T>) {
    && |d.depths| == |d.syms| == |values|
    && forall k :: 0 <= k < |values| ==> d.depths[k] <= 64 && d.syms[k] in values
  }

  /** The codes of the values, and every symbol of the tree is a value. */
  ghost predicate CodesOf<T(!new)>(codes: seq<Code>, values: seq<T>, t: Tree<T>) {
    && |codes| == |values| && (forall v :: 0 <= v < |values| ==> CodeIs(codes[v], values[v], t))
    && forall x: T :: In(t, x) ==> x in values
  }

  ghost predicate CodeIs<T>(c: Code, v: T, t: Tree<T>) {
    In(t, v) && ToBits(c.code, c.codeBits) == CodeOf(t, v)
  }

  lemma {:induction false} WrittenDictionary<T>(t: Tree<nat>, labels: seq<T>, order: seq<nat>, code: seq<nat>,
                                                codeBits: seq<nat>, depth: seq<nat>, n: nat)
    requires |code| == |codeBits| == |labels| == |depth| && Holds(t, |labels|) && Coded(t, code, codeBits)
    requires Height(t) <= n <= 64
    requires SortedDict(order, code, n) && Depths(t, 0, depth)
    ensures (forall k :: 0 <= k < |order| ==> order[k] < |labels|)
    ensures DictionaryOf(Dictionary(Permuted(order, depth), Permuted(order, labels)), Relabel(t, labels))
  {
    WrittenDepthFirst(t, order, code, codeBits, n);
    RelabelSize(t, labels);
    var u := Relabel(t, labels);
    var depths, syms := Permuted(order, depth), Permuted(order, labels);
    forall k | 0 <= k < Size(u) ensures depths[0 + k] == 0 + |Path(u, k)| && syms[0 + k] == Sym(u, k) {
      RelabelLeaf(t, labels, k);
      assert DepthOf(t, k, 0, depth);
    }
  }

  /** reducedict's dictionary construction: list the symbols by uses, build the codes, then
      write the symbols with their depths in the order of the reversed codes. */
  method MakeBook<T(!new)>(values: seq<T>, uses: seq<nat>)
      returns (codes: seq<Code>, d: Dictionary<T>, ghost t: Tree<T>)
    requires |values| == |uses| > 0 && AllDifferent(values) && (forall i :: 0 <= i < |uses| ==> uses[i] > 0)
    requires Total(uses) < Fib(65)
    ensures CodesOf(codes, values, t) && DictionaryOf(d, t) && ListsValues(d, values)
  {
    var list := Sort(uses);
    ListedUses(list, uses);
    var root, code, codeBits := BuildCodes(Permuted(list, uses));
    var depth := new nat[|uses|](i => 0);
    SetDepth(root, 0, depth);
    var order := SortByKey(code[..], 64);
    ghost var labels := Permuted(list, values);
    ListedLabels(list, uses, values);
    WrittenDictionary(root, labels, order, code[..], codeBits[..], depth[..], 64);
    d := Dictionary(Permuted(order, depth[..]), Permuted(order, Permuted(list, values)));
    t := Relabel(root, labels);
    DictionaryLists(d, root, order, list, values, depth[..], code[..], codeBits[..]);
    codes := ListCodes(list, uses, values, code[..], codeBits[..], root);
  }

  lemma DictionaryLists<T>(d: Dictionary<T>, root: Tree<nat>, order: seq<nat>, list: seq<nat>, values: seq<T>,
                           depth: seq<nat>, code: seq<nat>, codeBits: seq<nat>)
    requires |order| == |code| == |codeBits| == |depth| == |list| == |values|
    requires (forall i :: 0 <= i < |list| ==> list[i] < |values|)
    requires Holds(root, |values|) && Coded(root, code, codeBits) && Height(root) <= 64 && SortedDict(order, code, 64)
    requires Depths(root, 0, depth)
    requires (forall k :: 0 <= k < |order| ==> order[k] < |values|)
    requires d == Dictionary(Permuted(order, depth), Permuted(order, Permuted(list, values)))
    ensures ListsValues(d, values)
  {
    WrittenDepthFirst(root, order, code, codeBits, 64);
    forall k | 0 <= k < |d.depths| ensures d.depths[k] <= 64 {
      PathInHeight(root, k);
      assert DepthOf(root, k, 0, depth);
    }
  }

  lemma ListedUses(list: seq<nat>, uses: seq<nat>)
    requires SortedOrder(list, uses) && uses != [] && forall i :: 0 <= i < |uses| ==> uses[i] > 0
    ensures var u := Permuted(list, uses); u != [] && SortedUses(u) && forall i :: 0 <= i < |u| ==> u[i] > 0
  {
  }

  lemma ListedLabels<T>(list: seq<nat>, uses: seq<nat>, values: seq<T>)
    requires SortedOrder(list, uses) && |values| == |uses| && AllDifferent(values)
    ensures AllDifferent(Permuted(list, values)) && forall v :: 0 <= v < |values| ==> v in list
  {
    var labels := Permuted(list, values);
    forall i, j | 0 <= i < j < |labels| ensures labels[i] != labels[j] {
      assert list[i] != list[j];
    }
  }

  /** The list sorted by reversed code. */
  method SortByKey(code: seq<nat>, n: nat) returns (order: seq<nat>)
    ensures SortedDict(order, code, n) && |order| == |code|
  {
    var keys: seq<nat> := [];
    for s := 0 to |code|
      invariant |keys| == s && forall i :: 0 <= i < s ==> keys[i] == Key(code, i, n)
    {
      keys := keys + [Key(code, s, n)];
    }
    order := Sort(keys);
  }

  /** The codes of the values, by the place of each value in the list. */
  method ListCodes<T(!new)>(list: seq<nat>, uses: seq<nat>, values: seq<T>, code: seq<nat>, codeBits: seq<nat>,
                     ghost root: Tree<nat>)
      returns (codes: seq<Code>)
    requires SortedOrder(list, uses) && |values| == |uses| == |code| == |codeBits| && AllDifferent(values)
    requires Holds(root, |values|) && Coded(root, code, codeBits) && Height(root) <= 64
    ensures CodesOf(codes, values, Relabel(root, Permuted(list, values)))
  {
    ghost var labels := Permuted(list, values);
    ListedLabels(list, uses, values);
    codes := seq(|values|, v => Code(0, 0));
    for s := 0 to |list|
      invariant |codes| == |values|
      invariant forall i :: 0 <= i < s ==> codes[list[i]] == Code(code[i], codeBits[i])
    {
      codes := codes[list[s] := Code(code[s], codeBits[s])];
    }
    forall v | 0 <= v < |values| ensures CodeIs(codes[v], values[v], Relabel(root, labels)) {
      assert v in list;
      var s :| 0 <= s < |list| && list[s] == v;
      WrittenCode(root, labels, code, codeBits, s);
    }
    forall x: T | In(Relabel(root, labels), x) ensures x in values {
      LabelIn(root, labels, x);
    }
  }
}
