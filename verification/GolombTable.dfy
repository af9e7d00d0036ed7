/** The table that builder and reader both compute: for every set size the Golomb
    parameter of its salt, the number of nodes and the number of low-part bits of its
    subtree, packed into the 5, 11 and 16 bits of a uint32. */
module GolombTable {
  import opened Options
  import opened Arith
  import opened Words
  import opened SplitTree
  import opened SplitCode

  const TWO16: nat := 0x1_0000
  const TWO27: nat := 0x800_0000

  function EntryParam(e: nat): nat { e / TWO27 }
  function EntryNodes(e: nat): nat { e / TWO16 % 0x800 }
  function EntryBits(e: nat): nat { e % TWO16 }

  /** computeGolombRice does not panic: the bits fit their field and, from leaf size 3 on, the nodes fit theirs. */
  ghost predicate Fits(p: Params, m: nat)
    requires ValidParams(p)
  {
    SkipBits(p, m) < TWO16 && (p.leaf >= 3 ==> TableNodes(p, m) < 0x800)
  }

  ghost predicate FitsUpTo(p: Params, n: nat)
    requires ValidParams(p)
  {
    forall m :: 0 <= m <= n ==> Fits(p, m)
  }

  /** What the entry of m holds: the number of nodes is cut to 11 bits. */
  ghost predicate EntryOk(p: Params, e: nat, m: nat)
    requires ValidParams(p)
  {
    Fits(p, m) && EntryParam(e) == Param(p, m) && EntryNodes(e) == TableNodes(p, m) % 0x800 &&
        EntryBits(e) == SkipBits(p, m)
  }

  /** What the entry of m is meant to hold. */
  ghost predicate EntryExact(p: Params, e: nat, m: nat)
    requires ValidParams(p)
  {
    EntryParam(e) == Meant(p, m) && EntryNodes(e) == TableNodes(p, m) && EntryBits(e) == SkipBits(p, m)
  }

  ghost predicate TableOk(p: Params, table: seq<nat>)
    requires ValidParams(p)
  {
    forall m :: 0 <= m < |table| ==> EntryOk(p, table[m], m)
  }

  lemma EntryIsExact(p: Params, e: nat, m: nat)
    requires ValidParams(p) && EntryOk(p, e, m)
    ensures EntryExact(p, e, m) <==> TableNodes(p, m) < 0x800
  {
    if TableNodes(p, m) < 0x800 {
      SmallIsStraight(p, m);
      StraightParam(p, m);
    }
  }

  /**
   * computeGolombRice for a set larger than a leaf: the entry, or None where it panics because a sum outgrows
   * its field. With leaf size 2 it does not check the number of nodes, which then runs into the parameter's bits.
   */
  method ComputeGolombRice(p: Params, m: nat, table: seq<nat>) returns (r: Option<nat>)
    requires ValidParams(p) && p.leaf < m == |table| && m < 0xFFFF && TableOk(p, table)
    ensures r.Some? <==> Fits(p, m)
    ensures r.Some? ==> EntryOk(p, r.value, m) && (EntryExact(p, r.value, m) <==> TableNodes(p, m) < 0x800)
  {
    var fanout, unit := SplitParams(p, m).0, SplitParams(p, m).1;
    SplitParamsExact(p, m);
    UnitShape(p, m);
    var bits, nodes := SumParts(p, m, table, fanout, unit);
    var golombRiceLength := p.golomb(m) + bits;
    nodes := 1 + nodes;
    NodeSumBound(p, m);
    if p.leaf >= 3 {
      forall k: nat | k < m ensures TableNodes(p, k) < 0x800 {
        assert EntryOk(p, table[k], k);
      }
      StoredExact(p, m, unit);
    }
    if golombRiceLength > 0xFFFF {
      return None;
    }
    if p.leaf >= 3 && nodes > 0x7FF {
      return None;
    }
    r := Some(BitOr(BitOr(p.golomb(m) * TWO27, golombRiceLength), nodes * TWO16));
    NodeSumMod(p, m);
    PackedFields(p.golomb(m), nodes, golombRiceLength);
    EntryIsExact(p, r.value, m);
  }

  /** The sums over the parts k[0..fanout]: fanout - 1 units and the rest. */
  method SumParts(p: Params, m: nat, table: seq<nat>, fanout: nat, unit: nat) returns (bits: nat, nodes: nat)
    requires ValidParams(p) && TableOk(p, table)
    requires 0 < unit < m <= |table| && fanout == Units(m, unit)
    ensures bits == KidsBits(p, m, unit) && nodes == KidsStored(p, m, unit)
  {
    bits, nodes := 0, 0;
    var last := m;
    var i := 0;
    UnitsSpec(m, unit);
    while i < fanout - 1
      invariant i <= fanout - 1 && 0 < last <= m && Units(last, unit) == fanout - i
      invariant bits + KidsBits(p, last, unit) == KidsBits(p, m, unit)
      invariant nodes + KidsStored(p, last, unit) == KidsStored(p, m, unit)
    {
      assert EntryOk(p, table[unit], unit);
      bits := bits + EntryBits(table[unit]);
      nodes := nodes + EntryNodes(table[unit]);
      last := last - unit;
      i := i + 1;
    }
    LastUnit(last, unit);
    assert EntryOk(p, table[last], last);
    bits := bits + EntryBits(table[last]);
    nodes := nodes + EntryNodes(table[last]);
  }

  lemma LastUnit(m: nat, u: nat)
    requires m > 0 && u > 0 && Units(m, u) == 1
    ensures m <= u
  {
    UnitsSpec(m, u);
    assert Mul(1, u) == u;
  }

  /** golombParam: extend the table up to m and return m's parameter. The table starts
      with the leaf sizes, whose parameters are tabulated. */
  method GolombParam(p: Params, table: seq<nat>, m: nat) returns (r: seq<nat>, log2golomb: nat)
    requires ValidParams(p) && TableOk(p, table) && m < 0xFFFF && FitsUpTo(p, m)
    ensures TableOk(p, r) && table <= r && |r| == (if m < |table| then |table| else m + 1)
    ensures log2golomb == Param(p, m) <= 31
  {
    r := table;
    while m >= |r|
      invariant TableOk(p, r) && table <= r && (|r| <= m + 1 || r == table)
    {
      var e := NextEntry(p, r);
      r := r + [e];
    }
    assert EntryOk(p, r[m], m);
    ParamBound(p, m);
    log2golomb := EntryParam(r[m]);
  }

  method NextEntry(p: Params, table: seq<nat>) returns (e: nat)
    requires ValidParams(p) && TableOk(p, table) && |table| < 0xFFFF && Fits(p, |table|)
    ensures EntryOk(p, e, |table|)
  {
    var s := |table|;
    if s == 0 {
      e := BijMemo(0) * TWO27 + BijMemo(0);
    } else if s <= p.leaf {
      e := BijMemo(s) * TWO27 + TWO16 + BijMemo(s);
      FieldsBack(BijMemo(s), 1, BijMemo(s));
    } else {
      var r := ComputeGolombRice(p, s, table);
      e := r.value;
    }
  }

  lemma ParamBound(p: Params, m: nat)
    requires ValidParams(p)
    ensures Param(p, m) <= 31
  {
    if m > p.leaf {
      NodeSumBound(p, m);
      PowerFive();
      OrBelow(5, p.golomb(m), NodeSum(p, m) / 0x800);
    }
  }

  // ---- the packed fields

  lemma OrFields(param: nat, nodes: nat, bits: nat)
    requires param <= 31 && nodes < TWO16 && bits < TWO16
    ensures BitOr(BitOr(param * TWO27, bits), nodes * TWO16) == BitOr(param * 0x800, nodes) * TWO16 + bits
  {
    var h := param * 0x800;
    PowerFields();
    OrSplit(16, h, 0, 0, bits);
    OrSplit(16, h, bits, nodes, 0);
    ShiftIsProduct(h, 16);
    ShiftIsProduct(nodes, 16);
    ShiftIsProduct(BitOr(h, nodes), 16);
    ShiftIsProduct(0, 16);
  }

  lemma OrHigh(param: nat, nodes: nat)
    ensures BitOr(param * 0x800, nodes) == BitOr(param, nodes / 0x800) * 0x800 + nodes % 0x800
  {
    var high, low := nodes / 0x800, nodes % 0x800;
    PowerFields();
    OrSplit(11, param, 0, high, low);
    ShiftIsProduct(param, 11);
    ShiftIsProduct(high, 11);
    ShiftIsProduct(BitOr(param, high), 11);
  }

  /** The fields of the entry that computeGolombRice puts together. */
  lemma PackedFields(param: nat, nodes: nat, bits: nat)
    requires param <= 31 && nodes < TWO16 && bits < TWO16
    ensures var e := BitOr(BitOr(param * TWO27, bits), nodes * TWO16);
      EntryParam(e) == BitOr(param, nodes / 0x800) && EntryNodes(e) == nodes % 0x800 && EntryBits(e) == bits
  {
    OrFields(param, nodes, bits);
    OrHigh(param, nodes);
    PowerFive();
    OrBelow(5, param, nodes / 0x800);
    FieldsBack(BitOr(param, nodes / 0x800), nodes % 0x800, bits);
  }

  lemma PowerFive()
    ensures Pow2(5) == 32
  {
    assert Pow2(5) == 2 * Pow2(4) && Pow2(3) == 8;
  }

  lemma {:induction false} OrBelow(k: nat, a: nat, b: nat)
    requires a < Pow2(k) && b < Pow2(k)
    ensures BitOr(a, b) < Pow2(k)
  {
    if k > 0 {
      OrBelow(k - 1, a / 2, b / 2);
      OrHalve(a, b);
    }
  }

  lemma PowerFields()
    ensures Pow2(11) == 0x800 && Pow2(16) == TWO16
  {
    assert Pow2(11) == 0x800;
    assert Pow2(16) == 32 * Pow2(11);
  }

  lemma FieldsBack(param: nat, nodes: nat, bits: nat)
    requires param <= 31 && nodes < 0x800 && bits < TWO16
    ensures var e := param * TWO27 + nodes * TWO16 + bits;
      EntryParam(e) == param && EntryNodes(e) == nodes && EntryBits(e) == bits
  {
  }

  lemma {:induction false} ShiftIsProduct(a: nat, k: nat)
    ensures Shift(a, k) == a * Pow2(k)
  {
    if k > 0 {
      ShiftIsProduct(a, k - 1);
      var q := Pow2(k - 1);
      assert a * (2 * q) == 2 * (a * q);
    }
  }

  /** Or works on the high and the low k bits separately. */
  lemma {:induction false} OrSplit(k: nat, a: nat, b: nat, c: nat, d: nat)
    requires b < Pow2(k) && d < Pow2(k)
    ensures BitOr(Shift(a, k) + b, Shift(c, k) + d) == Shift(BitOr(a, c), k) + BitOr(b, d)
  {
    if k > 0 {
      OrSplit(k - 1, a, b / 2, c, d / 2);
      ShiftHalf(a, k, b);
      ShiftHalf(c, k, d);
      OrJoin(Shift(a, k) + b, Shift(c, k) + d, b, d, Shift(BitOr(a, c), k - 1));
    }
  }

  lemma ShiftHalf(a: nat, k: nat, b: nat)
    requires k > 0
    ensures (Shift(a, k) + b) / 2 == Shift(a, k - 1) + b / 2 && (Shift(a, k) + b) % 2 == b % 2
  {
  }

  lemma OrJoin(x: nat, y: nat, b: nat, d: nat, high: nat)
    requires x % 2 == b % 2 && y % 2 == d % 2
    requires BitOr(x / 2, y / 2) == high + BitOr(b / 2, d / 2)
    ensures BitOr(x, y) == 2 * high + BitOr(b, d)
  {
    OrHalve(x, y);
    OrHalve(b, d);
  }

  lemma OrHalve(a: nat, b: nat)
    ensures BitOr(a, b) == (if a % 2 == 1 || b % 2 == 1 then 1 else 0) + 2 * BitOr(a / 2, b / 2)
  {
  }
}
