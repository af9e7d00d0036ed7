/** The decoder's tables: every level looks up to 9 bits, deeper codes continue in linked
    tables, and wide tables may be condensed to a list of codewords. Built from nothing
    but the depths of the leaves in depth-first order. */
module DecodeTables {
  import opened Words
  import opened HuffmanTree

  /** A symbol and the number of bits of its code in this table, or a deeper table. */
  datatype Cell<T> = Empty | Hit(sym: T, len: nat) | Link(table: Table<T>)

  datatype Codeword<T> = Codeword(code: nat, len: nat, cell: Cell<T>)

  datatype Table<T> = Dense(bitLen: nat, cells: seq<Cell<T>>) | Condensed(bitLen: nat, words: seq<Codeword<T>>)

  // ---- bits of table indices

  function Low(c: nat, k: nat): nat {
    if k == 0 then 0 else c % 2 + 2 * Low(c / 2, k - 1)
  }

  predicate BitOf(c: nat, k: nat) {
    if k == 0 then c % 2 == 1 else BitOf(c / 2, k - 1)
  }

  lemma {:induction false} LowNext(c: nat, k: nat)
    ensures Low(c, k + 1) == Low(c, k) + if BitOf(c, k) then Pow2(k) else 0
  {
    if k > 0 {
      LowNext(c / 2, k - 1);
    }
  }

  lemma {:induction false} LowBelow(c: nat, k: nat)
    ensures Low(c, k) < Pow2(k) && Low(c, k) <= c
  {
    if k > 0 {
      LowBelow(c / 2, k - 1);
    }
  }

  lemma {:induction false} LowSelf(c: nat, k: nat)
    requires c < Pow2(k)
    ensures Low(c, k) == c
  {
    if k > 0 {
      LowSelf(c / 2, k - 1);
    }
  }

  lemma {:induction false} LowStep(c: nat, k: nat)
    ensures Low(c + Pow2(k), k) == Low(c, k)
  {
    if k > 0 {
      assert (c + Pow2(k)) / 2 == c / 2 + Pow2(k - 1) && (c + Pow2(k)) % 2 == c % 2;
      LowStep(c / 2, k - 1);
    }
  }

  /** Indices with the same low bits are 2^k apart. */
  lemma {:induction false} LowGap(a: nat, b: nat, k: nat)
    requires a < b && Low(a, k) == Low(b, k)
    ensures b >= a + Pow2(k)
  {
    if k > 0 {
      assert a % 2 == b % 2;
      LowGap(a / 2, b / 2, k - 1);
    }
  }

  // ---- looking up

  /** The codeword's cell is meant for index c. */
  ghost predicate Matches<T>(w: Codeword<T>, c: nat) {
    if w.cell.Link? then w.code == c else Low(c, w.len) == w.code
  }

  /** condensedWordDistances[power], from j on: the multiples of step below 512. */
  function Distances(step: nat, j: nat): seq<nat>
    requires step > 0
    decreases 512 - j
  {
    if j >= 512 then [] else [j] + Distances(step, j + step)
  }

  predicate CheckDistance(power: nat, d: nat) { power > 0 && d in Distances(Pow2(power), Pow2(power)) }

  /** a - b as a uint16. */
  function Minus(a: nat, b: nat): (d: nat)
    requires a < 512 && b < 512
    ensures d == if a >= b then a - b else 0x1_0000 + a - b
  {
    (a - b) % 0x1_0000
  }

  /** The test of condensedTableSearch on one codeword. */
  predicate Accepts<T>(w: Codeword<T>, code: nat) {
    w.code == code ||
    (w.code < 512 && code < 512 && Minus(code, w.code) % 2 == 0 && CheckDistance(w.len, Minus(code, w.code)))
  }

  lemma {:induction false} DistancesSpec(k: nat, j: nat, d: nat)
    requires Low(j, k) == 0
    ensures d in Distances(Pow2(k), j) <==> j <= d < 512 && Low(d, k) == 0
    decreases 512 - j
  {
    if j < 512 {
      LowStep(j, k);
      DistancesSpec(k, j + Pow2(k), d);
      if j < d && Low(d, k) == 0 {
        LowGap(j, d, k);
      }
    }
  }

  /** The test accepts exactly the indices that the codeword is meant for. */
  lemma {:induction false} AcceptsMatches<T>(w: Codeword<T>, code: nat)
    requires code < 512 && w.code < 512 && w.len <= 9 && (w.cell.Link? ==> w.len == 0)
    requires (!w.cell.Link? ==> 0 < w.len && w.code < Pow2(w.len))
    ensures Accepts(w, code) <==> Matches(w, code)
  {
    if !w.cell.Link? {
      var k, d := w.len, Minus(code, w.code);
      LowSelf(w.code, k);
      LowBelow(code, k);
      CheckDistanceSpec(k, d);
      if code >= w.code {
        LowDifference(code, w.code, k);
        NearZero(d, k);
      }
    }
  }

  lemma CheckDistanceSpec(k: nat, d: nat)
    requires k > 0
    ensures CheckDistance(k, d) <==> Pow2(k) <= d < 512 && Low(d, k) == 0
  {
    LowStep(0, k);
    LowZero(k);
    DistancesSpec(k, Pow2(k), d);
  }

  /** Without low bits a number is 0 or at least 2^k, and even. */
  lemma NearZero(d: nat, k: nat)
    requires k > 0
    ensures Low(d, k) == 0 ==> d % 2 == 0 && (d == 0 || d >= Pow2(k))
  {
    LowZero(k);
    if Low(d, k) == 0 && d > 0 {
      LowGap(0, d, k);
    }
  }

  lemma {:induction false} LowZero(k: nat)
    ensures Low(0, k) == 0
  {
    if k > 0 {
      LowZero(k - 1);
    }
  }

  /** A difference has no low bits exactly when the low bits agree. */
  lemma {:induction false} LowDifference(a: nat, b: nat, k: nat)
    requires a >= b
    ensures Low(a - b, k) == 0 <==> Low(a, k) == Low(b, k)
  {
    if k > 0 {
      if a % 2 == b % 2 {
        assert (a - b) / 2 == a / 2 - b / 2 && (a - b) % 2 == 0;
        LowDifference(a / 2, b / 2, k - 1);
      }
    }
  }

  /** The first codeword that accepts the code. */
  function Search<T>(words: seq<Codeword<T>>, code: nat, i: nat): Cell<T>
    requires i <= |words|
    decreases |words| - i
  {
    if i == |words| then Empty else if Accepts(words[i], code) then words[i].cell else Search(words, code, i + 1)
  }

  /** condensedTableSearch, or the cell of a table that is not condensed. */
  function Lookup<T>(t: Table<T>, code: nat): Cell<T> {
    match t
    case Dense(_, cells) => if code < |cells| then cells[code] else Empty
    case Condensed(_, words) => Search(words, code, 0)
  }

  ghost predicate Shaped<T>(t: Table<T>) { t.bitLen <= 9 && (t.Dense? ==> |t.cells| == Pow2(t.bitLen)) }

  lemma {:induction false} SearchSnoc<T>(words: seq<Codeword<T>>, w: Codeword<T>, code: nat, i: nat)
    requires i <= |words|
    ensures Search(words + [w], code, i) ==
      if Search(words, code, i) != Empty then Search(words, code, i) else if Accepts(w, code) then w.cell else Empty
    requires forall k :: 0 <= k < |words| ==> words[k].cell != Empty
    decreases |words| - i
  {
    if i < |words| {
      SearchSnoc(words, w, code, i + 1);
    }
  }

  ghost predicate Nonempty<T>(t: Table<T>) {
    t.Condensed? ==> forall k :: 0 <= k < |t.words| ==> t.words[k].cell != Empty
  }

  /** A codeword of a table: a symbol's bits, or a link for all 9 bits. */
  ghost predicate FitsTable<T>(w: Codeword<T>, t: Table<T>) {
    match w.cell
    case Empty => false
    case Hit(_, _) => w.len <= t.bitLen && w.code < Pow2(w.len) && (w.len == 0 ==> t.bitLen == 0)
    case Link(_) => w.len == 0 && t.bitLen == 9 && w.code < Pow2(9)
  }

  /** newPatternTable: tables of more than `threshold` bits are condensed. */
  function NewTable<T>(bitLen: nat, threshold: nat): (t: Table<T>)
    requires bitLen <= 9
    ensures Shaped(t) && Nonempty(t) && t.bitLen == bitLen
    ensures forall c :: 0 <= c < Pow2(bitLen) ==> Lookup(t, c) == Empty
  {
    if bitLen <= threshold then Dense(bitLen, seq(Pow2(bitLen), i => Empty)) else Condensed(bitLen, [])
  }

  /** insertWord: afterwards the word's indices find its cell, all others what they
      found before. */
  method InsertWord<T>(t: Table<T>, w: Codeword<T>) returns (r: Table<T>)
    requires Shaped(t) && Nonempty(t) && FitsTable(w, t) && (t.Condensed? ==> t.bitLen > 0)
    requires t.Condensed? ==> forall c :: 0 <= c < Pow2(t.bitLen) && Matches(w, c) ==> Lookup(t, c) == Empty
    ensures Shaped(r) && Nonempty(r) && r.bitLen == t.bitLen && r.Dense? == t.Dense?
    ensures forall c :: 0 <= c < Pow2(t.bitLen) ==> Lookup(r, c) == if Matches(w, c) then w.cell else Lookup(t, c)
  {
    match t
    case Dense(bitLen, cells) =>
      var filled := Fill(cells, bitLen, w);
      r := Dense(bitLen, filled);
    case Condensed(bitLen, words) =>
      r := Condensed(bitLen, words + [w]);
      forall c | 0 <= c < Pow2(bitLen) ensures Lookup(r, c) == if Matches(w, c) then w.cell else Lookup(t, c) {
        SearchSnoc(words, w, c, 0);
        PowerGrows(bitLen, 9);
        PowerGrows(w.len, 9);
        assert Pow2(9) == 512;
        AcceptsMatches(w, c);
      }
  }

  /** Every 2^len-th cell from the code on; a single cell when the code has all the
      table's bits, or for a link. */
  method Fill<T>(cells: seq<Cell<T>>, bitLen: nat, w: Codeword<T>) returns (r: seq<Cell<T>>)
    requires bitLen <= 9 && |cells| == Pow2(bitLen) && FitsTable(w, Dense(bitLen, cells))
    ensures |r| == |cells| && forall c :: 0 <= c < |cells| ==> r[c] == if Matches(w, c) then w.cell else cells[c]
  {
    var codeStep := Pow2(w.len);
    var codeFrom, codeTo := w.code, w.code + codeStep;
    if bitLen != w.len && w.len > 0 {
      codeTo := codeFrom + Pow2(bitLen);
    }
    r := cells;
    if w.cell.Link? {
      r := r[codeFrom := w.cell];
    } else {
      LowSelf(w.code, w.len);
      LowWide(w.code, w.len, bitLen);
      NoneBelow(w.code, w.len);
      var c := codeFrom;
      while c < codeTo
        invariant c <= codeTo == w.code + Pow2(bitLen) && Low(c, w.len) == w.code && |r| == |cells|
        invariant forall i :: 0 <= i < |cells| ==> r[i] == if i < c && Low(i, w.len) == w.code then w.cell else cells[i]
      {
        LowGap(c, codeTo, w.len);
        LowStep(c, w.len);
        NoneBetween(c, w.len);
        r := r[c := w.cell];
        c := c + codeStep;
      }
    }
  }

  lemma {:induction false} LowWide(c: nat, k: nat, n: nat)
    requires k <= n
    ensures Low(c + Pow2(n), k) == Low(c, k)
  {
    if k > 0 {
      assert (c + Pow2(n)) / 2 == c / 2 + Pow2(n - 1) && (c + Pow2(n)) % 2 == c % 2;
      LowWide(c / 2, k - 1, n - 1);
    }
  }

  lemma NoneBelow(code: nat, k: nat)
    ensures forall i :: 0 <= i < code ==> Low(i, k) != code
  {
    forall i | 0 <= i < code ensures Low(i, k) != code {
      LowBelow(i, k);
    }
  }

  lemma NoneBetween(c: nat, k: nat)
    ensures forall i :: c < i < c + Pow2(k) ==> Low(i, k) != Low(c, k)
  {
    forall i | c < i < c + Pow2(k) ensures Low(i, k) != Low(c, k) {
      if Low(i, k) == Low(c, k) {
        LowGap(c, i, k);
        assert false;
      }
    }
  }

  // ---- what the tables mean

  /** The cell is right for index c, whose first `bits` bits have led to tree t: the
      leaf that the next bits of c lead to, or a table for what is below 9 bits. */
  ghost predicate Answers<T>(cell: Cell<T>, t: Tree<T>, c: nat, bits: nat)
    decreases t, if bits >= 9 then 2 else 0
  {
    match t
    case Leaf(s) => cell == Hit(s, bits)
    case Node(l, r) =>
      if bits >= 9 then cell.Link? && TableOk(cell.table, t)
      else Answers(cell, if BitOf(c, bits) then r else l, c, bits + 1)
  }

  /** The table is wide enough for the tree, or has all 9 bits. */
  ghost predicate WideEnough<T>(bitLen: nat, bits: nat, t: Tree<T>) {
    bits <= bitLen <= 9 && (bitLen == 9 || bits + Height(t) <= bitLen)
  }

  ghost predicate TableOk<T>(table: Table<T>, t: Tree<T>)
    decreases t, 1
  {
    && Shaped(table) && WideEnough(table.bitLen, 0, t) && (t.Leaf? ==> table.bitLen == 0)
    && forall c :: 0 <= c < Pow2(table.bitLen) ==> Answers(Lookup(table, c), t, c, 0)
  }

  /** The leaves of t, at the given depth, come in order from place i on. */
  ghost predicate ListedAt<T>(t: Tree<T>, depth: nat, depths: seq<nat>, syms: seq<T>, i: nat) {
    && i + Size(t) <= |depths| == |syms|
    && forall k :: 0 <= k < Size(t) ==> depths[i + k] == depth + |Path(t, k)| && syms[i + k] == Sym(t, k)
  }

  lemma ListedParts<T>(t: Tree<T>, depth: nat, depths: seq<nat>, syms: seq<T>, i: nat)
    requires ListedAt(t, depth, depths, syms, i)
    ensures t.Leaf? ==> depths[i] == depth && syms[i] == t.sym
    ensures t.Node? ==> ListedAt(t.left, depth + 1, depths, syms, i) && depths[i] > depth
    ensures t.Node? ==> ListedAt(t.right, depth + 1, depths, syms, i + Size(t.left))
  {
    match t
    case Leaf(_) => assert depths[i + 0] == depth;
    case Node(l, r) =>
      forall k | 0 <= k < Size(l) ensures depths[i + k] == depth + 1 + |Path(l, k)| && syms[i + k] == Sym(l, k) {
        assert depths[i + k] == depth + |Path(t, k)|;
      }
      forall k | 0 <= k < Size(r)
        ensures depths[i + Size(l) + k] == depth + 1 + |Path(r, k)| && syms[i + Size(l) + k] == Sym(r, k) {
        assert depths[i + (Size(l) + k)] == depth + |Path(t, Size(l) + k)|;
      }
      assert depths[i + 0] == depth + |Path(t, 0)|;
  }

  /** The indices that start with the code find what they should in tree t. */
  ghost predicate Filled<T>(table: Table<T>, t: Tree<T>, code: nat, bits: nat) {
    forall c :: 0 <= c < Pow2(table.bitLen) && Low(c, bits) == code ==> Answers(Lookup(table, c), t, c, bits)
  }

  /** Only the indices that start with the code find something new. */
  ghost predicate Unchanged<T>(before: Table<T>, after: Table<T>, code: nat, bits: nat) {
    && after.bitLen == before.bitLen && after.Dense? == before.Dense? && Shaped(after) && Nonempty(after)
    && forall c :: 0 <= c < Pow2(after.bitLen) && Low(c, bits) != code ==> Lookup(after, c) == Lookup(before, c)
  }

  /** The indices that start with the code find nothing yet. */
  ghost predicate Vacant<T>(table: Table<T>, code: nat, bits: nat) {
    table.Condensed? ==> forall c :: 0 <= c < Pow2(table.bitLen) && Low(c, bits) == code ==> Lookup(table, c) == Empty
  }

  /** Two halves make a whole. */
  lemma NodeFilled<T>(t: Tree<T>, table: Table<T>, r0: Table<T>, r: Table<T>, code: nat, bits: nat)
    requires t.Node? && bits < 9 && code < Pow2(bits) && Unchanged(table, r0, code, bits + 1)
    requires Filled(r0, t.left, code, bits + 1)
    requires Unchanged(r0, r, Pow2(bits) + code, bits + 1) && Filled(r, t.right, Pow2(bits) + code, bits + 1)
    ensures Unchanged(table, r, code, bits) && Filled(r, t, code, bits)
  {
    forall c | 0 <= c < Pow2(r.bitLen)
      ensures if Low(c, bits) == code then Answers(Lookup(r, c), t, c, bits) else Lookup(r, c) == Lookup(table, c) {
      LowNext(c, bits);
      LowBelow(c, bits);
    }
  }

  lemma HalvesVacant<T>(table: Table<T>, r0: Table<T>, code: nat, bits: nat)
    requires code < Pow2(bits) && Vacant(table, code, bits)
    ensures Vacant(table, code, bits + 1)
    ensures (Unchanged(table, r0, code, bits + 1) ==> Vacant(r0, Pow2(bits) + code, bits + 1))
  {
    forall c: nat ensures Low(c, bits + 1) == Low(c, bits) + (if BitOf(c, bits) then Pow2(bits) else 0) &&
        Low(c, bits) < Pow2(bits) {
      LowNext(c, bits);
      LowBelow(c, bits);
    }
  }

  /** At the 9th bit an index is the code itself. */
  lemma WholeIndex(code: nat)
    ensures forall c :: 0 <= c < Pow2(9) ==> Low(c, 9) == c
  {
    forall c | 0 <= c < Pow2(9) ensures Low(c, 9) == c {
      LowSelf(c, 9);
    }
  }

  /** buildPosTable and buildCondensedPatternTable. The first form never condenses a
      table: its threshold is 9. */
  method BuildTable<T>(table: Table<T>, depths: seq<nat>, syms: seq<T>, i: nat, code: nat, bits: nat, depth: nat,
                       maxDepth: nat,
                    threshold: nat, ghost t: Tree<T>) returns (r: Table<T>, n: nat)
    requires ListedAt(t, depth, depths, syms, i) && Height(t) <= maxDepth
    requires Shaped(table) && Nonempty(table) && WideEnough(table.bitLen, bits, t) && code < Pow2(bits)
    requires Vacant(table, code, bits)
    requires (bits == 0 && t.Leaf? ==> table.bitLen == 0) && (table.Condensed? ==> table.bitLen > 0)
    ensures n == Size(t) && Unchanged(table, r, code, bits) && Filled(r, t, code, bits)
    decreases t, if bits == 9 then 2 else 1
  {
    ListedParts(t, depth, depths, syms, i);
    if depth == depths[i] {
      r := InsertHit(table, code, bits, syms[i]);
      n := 1;
    } else if bits == 9 {
      var bitLen := if maxDepth > 9 then 9 else maxDepth;
      var deeper;
      deeper, n := BuildTable(NewTable(bitLen, threshold), depths, syms, i, 0, 0, depth, maxDepth, threshold, t);
      r := InsertLink(table, code, deeper, t);
    } else {
      r, n := BuildHalves(table, depths, syms, i, code, bits, depth, maxDepth, threshold, t);
    }
  }

  method BuildHalves<T>(table: Table<T>, depths: seq<nat>, syms: seq<T>, i: nat, code: nat, bits: nat, depth: nat,
                        maxDepth: nat,
                     threshold: nat, ghost t: Tree<T>) returns (r: Table<T>, n: nat)
    requires t.Node? && Height(t) <= maxDepth && bits < 9
    requires ListedAt(t.left, depth + 1, depths, syms, i)
    requires ListedAt(t.right, depth + 1, depths, syms, i + Size(t.left))
    requires Shaped(table) && Nonempty(table) && WideEnough(table.bitLen, bits, t) && code < Pow2(bits)
    requires Vacant(table, code, bits)
    requires table.Condensed? ==> table.bitLen > 0
    ensures n == Size(t) && Unchanged(table, r, code, bits) && Filled(r, t, code, bits)
    decreases t, 0
  {
    var r0, b0;
    HalvesVacant(table, table, code, bits);
    r0, b0 := BuildTable(table, depths, syms, i, code, bits + 1, depth + 1, maxDepth - 1, threshold, t.left);
    HalvesVacant(table, r0, code, bits);
    r, n := BuildTable(r0, depths, syms, i + b0, Pow2(bits) + code, bits + 1, depth + 1, maxDepth - 1, threshold,
        t.right);
    NodeFilled(t, table, r0, r, code, bits);
    n := b0 + n;
  }

  method InsertHit<T>(table: Table<T>, code: nat, bits: nat, sym: T) returns (r: Table<T>)
    requires Shaped(table) && Nonempty(table) && bits <= table.bitLen && code < Pow2(bits) && Vacant(table, code, bits)
    requires (bits == 0 ==> table.bitLen == 0) && (table.Condensed? ==> table.bitLen > 0)
    ensures Unchanged(table, r, code, bits) && Filled(r, Leaf(sym), code, bits)
  {
    r := InsertWord(table, Codeword(code, bits, Hit(sym, bits)));
  }

  method InsertLink<T>(table: Table<T>, code: nat, deeper: Table<T>, ghost t: Tree<T>) returns (r: Table<T>)
    requires Shaped(table) && Nonempty(table) && table.bitLen == 9 && code < Pow2(9) && Vacant(table, code, 9)
    requires t.Node? && WideEnough(deeper.bitLen, 0, t) && Shaped(deeper) && Filled(deeper, t, 0, 0)
    ensures Unchanged(table, r, code, 9) && Filled(r, t, code, 9)
  {
    WholeIndex(code);
    assert TableOk(deeper, t);
    r := InsertWord(table, Codeword(code, 0, Link(deeper)));
  }

  /** The tables of a dictionary, as NewDecompressor makes them. */
  method MakeTable<T>(depths: seq<nat>, syms: seq<T>, threshold: nat, ghost t: Tree<T>) returns (table: Table<T>)
    requires ListedAt(t, 0, depths, syms, 0) && |depths| == Size(t)
    ensures TableOk(table, t)
  {
    var maxDepth := 0;
    for k := 0 to |depths|
      invariant forall j :: 0 <= j < k ==> depths[j] <= maxDepth
      invariant maxDepth == 0 || exists j :: 0 <= j < k && depths[j] == maxDepth
    {
      if depths[k] > maxDepth {
        maxDepth := depths[k];
      }
    }
    MaxDepth(t, depths, syms, maxDepth);
    var bitLen := if maxDepth > 9 then 9 else maxDepth;
    var n;
    table, n := BuildTable(NewTable(bitLen, threshold), depths, syms, 0, 0, 0, 0, maxDepth, threshold, t);
  }

  lemma MaxDepth<T>(t: Tree<T>, depths: seq<nat>, syms: seq<T>, maxDepth: nat)
    requires ListedAt(t, 0, depths, syms, 0) && |depths| == Size(t)
    requires forall j :: 0 <= j < |depths| ==> depths[j] <= maxDepth
    requires maxDepth == 0 || exists j :: 0 <= j < |depths| && depths[j] == maxDepth
    ensures Height(t) == maxDepth
  {
    var k := DeepestLeaf(t);
    assert depths[0 + k] == 0 + |Path(t, k)|;
    if maxDepth > 0 {
      var j :| 0 <= j < |depths| && depths[j] == maxDepth;
      PathInHeight(t, j);
      assert depths[0 + j] == 0 + |Path(t, j)|;
    }
  }

  // ---- decoding

  lemma {:induction false} ValueBit(bits: seq<bool>, k: nat)
    requires k < |bits|
    ensures BitOf(Value(bits), k) == bits[k]
  {
    if k > 0 {
      ValueBit(bits[1..], k - 1);
    }
  }

  /** c holds the bits of data from `at` on; beyond the data they are 0. */
  ghost predicate Reads(c: nat, bitLen: nat, data: seq<bool>, at: nat) {
    forall b :: 0 <= b < bitLen ==> BitOf(c, b) == (at + b < |data| && data[at + b])
  }

  /** The cell for bits that start with a leaf's path is that leaf's, or links to a table
      in which the rest of the path leads to it. */
  lemma {:induction false} Follow<T>(cell: Cell<T>, t: Tree<T>, k: nat, c: nat, bits: nat, bitLen: nat, data: seq<bool>,
                                     at: nat)
      returns (t': Tree<T>, k': nat)
    requires Answers(cell, t, c, bits) && WideEnough(bitLen, bits, t) && k < Size(t)
    requires Here(data, at + bits, Path(t, k)) && Reads(c, bitLen, data, at)
    ensures cell.Hit? ==> cell == Hit(Sym(t, k), bits + |Path(t, k)|)
    ensures !cell.Hit? ==>
      && cell.Link? && TableOk(cell.table, t') && t'.Node? && k' < Size(t') && Sym(t', k') == Sym(t, k)
      && Here(data, at + 9, Path(t', k')) && bits + |Path(t, k)| == 9 + |Path(t', k')|
  {
    t', k' := t, k;
    if t.Node? && bits < 9 {
      var l := t.left;
      FirstBit(data, at + bits, Path(t, k));
      if k < Size(l) {
        assert Path(t, k)[1..] == Path(l, k);
        t', k' := Follow(cell, l, k, c, bits + 1, bitLen, data, at);
      } else {
        assert Path(t, k)[1..] == Path(t.right, k - Size(l));
        t', k' := Follow(cell, t.right, k - Size(l), c, bits + 1, bitLen, data, at);
      }
    }
  }
}
