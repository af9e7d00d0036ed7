/** The three stages of Index.Lookup inside one bucket. */
module RecSplitLookup {
  import opened Arith
  import opened Words
  import opened SplitTree
  import opened SplitCode
  import opened GolombTable
  import opened RecSplitWalk
  import GolombRice

  /** The reader's cursors are at f and u. */
  ghost predicate Cursors(r: GolombRice.Reader, b: Bits, f: nat, u: nat)
    reads r
  {
    r.Valid() && r.data == b.data && r.currFixedOffset == f && r.unary.Pos() == u
  }

  /** The walk for the key fp has come down to the m keys of s, whose records start at
      cum; entry q is the key's. */
  ghost predicate Tracks(s: Stand, m: nat, level: nat, cum: nat, q: nat, fp: nat, off: nat) {
    |s.es| == m && s.level == level && s.base == cum && q < m && s.es[q] == Entry(fp, off)
  }

  /** The salt of s is read, and the cursors f and u are at its parts. */
  ghost predicate Entered(b: Bits, p: Params, s: Stand, recs: seq<nat>, f: nat, u: nat)
    requires ValidParams(p)
  {
    && |s.es| > p.leaf && Solvable(p, s.level, s.es) && Placed(p, s.level, s.es, recs, s.base)
    && b.Starts(EncodeParts(p, s.level, s.es, 0), f, u)
  }

  lemma {:induction false} Enter(b: Bits, p: Params, s: Stand, recs: seq<nat>) returns (f: nat, u: nat)
    requires ValidParams(p) && b.Ok() && |s.es| > p.leaf && Standing(b, p, s, recs)
    ensures HasSalt(p, s.level, s.es)
    ensures var g, d := Param(p, |s.es|), SaltOf(p, s.level, s.es);
      Reads(b, s.f, s.u, g, d) && f == s.f + g && u == s.u + High(d, g) + 1
    ensures Entered(b, p, s, recs, f, u)
  {
    var g, d := Param(p, |s.es|), SaltOf(p, s.level, s.es);
    ReadsSplit(b, s.f, s.u, p, s.level, s.es);
    f, u := s.f + g, s.u + High(d, g) + 1;
  }

  method ReadSalt(p: Params, table: seq<nat>, r: GolombRice.Reader, m: nat, ghost b: Bits, ghost s: Stand,
                  ghost recs: seq<nat>)
      returns (d: nat, ghost f: nat, ghost u: nat)
    requires ValidParams(p) && TableOk(p, table) && p.leaf < m == |s.es| < |table|
    requires b.Ok() && Standing(b, p, s, recs) && Cursors(r, b, s.f, s.u)
    modifies r
    ensures Entered(b, p, s, recs, f, u) && d == SaltOf(p, s.level, s.es) && Cursors(r, b, f, u)
  {
    f, u := Enter(b, p, s, recs);
    assert EntryOk(p, table[m], m);
    ParamBound(p, m);
    d := r.ReadNext(EntryParam(table[m]));
  }

  /** Move on to part j, over the nodes and low-part bits of the parts before it. */
  method Move(p: Params, r: GolombRice.Reader, j: nat, nodes: nat, bits: nat,
              ghost b: Bits, ghost s: Stand, ghost f: nat, ghost u: nat, ghost recs: seq<nat>)
      returns (ghost t: Stand)
    requires ValidParams(p) && Entered(b, p, s, recs, f, u) && Cursors(r, b, f, u)
    requires j < NodeBy(p, s.level, s.es).Parts()
    requires bits == Mul(j, FixedBits(p, Unit(p, |s.es|))) && nodes == Mul(j, TableNodes(p, Unit(p, |s.es|)))
    requires (j > 0 ==> nodes > 0)
    modifies r
    ensures Cursors(r, b, t.f, t.u) && Standing(b, p, t, recs) && t.level == s.level + 1
    ensures t.es == Part(NodeBy(p, s.level, s.es), s.es, j) && t.base == s.base + Mul(j, Unit(p, |s.es|))
  {
    t := Descend(b, p, s, f, u, recs, j, bits, nodes);
    if j != 0 {
      r.SkipSubtree(nodes, bits);
    }
  }

  /** Following the key into its part keeps track of it. */
  lemma {:induction false} TracksPart(p: Params, s: Stand, m: nat, level: nat, cum: nat, q: nat, fp: nat, off: nat,
                                      hmod: nat)
      returns (j: nat, q': nat)
    requires ValidParams(p) && Solvable(p, s.level, s.es) && m > p.leaf && Tracks(s, m, level, cum, q, fp, off)
    requires hmod == Slot(p, level, SaltOf(p, level, s.es), m, fp)
    ensures j < NodeBy(p, level, s.es).Parts() && j == Div(hmod, Unit(p, m)) && Mul(j, Unit(p, m)) <= hmod < m
    ensures forall t: Stand
      | t.level == level + 1 && t.es == Part(NodeBy(p, level, s.es), s.es, j) && t.base == cum + Mul(j, Unit(p, m)) ::
      Tracks(t, PartSize(m, Unit(p, m), j), level + 1, cum + Mul(j, Unit(p, m)), q', fp, off)
    ensures 0 < PartSize(m, Unit(p, m), j) < m
  {
    j, q' := KidOf(p, level, s.es, q);
    DivSpec(hmod, Unit(p, m));
    PartSizes(NodeBy(p, level, s.es), s.es, j);
    UnitShape(p, m);
  }

  /** For the parts of a straight set the table's entry is the size of their code. */
  lemma SkipsRight(p: Params, table: seq<nat>, unit: nat)
    requires ValidParams(p) && TableOk(p, table) && unit < |table| && Straight(p, unit) && TableNodes(p, unit) < 0x800
    ensures EntryNodes(table[unit]) == TableNodes(p, unit) && EntryBits(table[unit]) == FixedBits(p, unit)
  {
    assert EntryOk(p, table[unit], unit);
    StraightExactly(p, unit);
  }

  /** The parts of a straight set. */
  lemma StraightUnit(p: Params, m: nat)
    requires ValidParams(p) && m > p.leaf && Straight(p, m)
    ensures 0 < Unit(p, m) < m && Straight(p, Unit(p, m)) && TableNodes(p, Unit(p, m)) < 0x800
    ensures KidsStraight(p, m, Unit(p, m))
  {
    UnitShape(p, m);
  }

  /** Fanout 2: the key is in the first `split` keys or in the rest. */
  method StepHalf(p: Params, table: seq<nat>, r: GolombRice.Reader, m: nat, level: nat, cum: nat, fp: nat,
                  ghost b: Bits, ghost s: Stand, ghost q: nat, ghost recs: seq<nat>, ghost off: nat)
      returns (m': nat, cum': nat, ghost t: Stand, ghost q': nat)
    requires ValidParams(p) && TableOk(p, table) && p.secondary < m < |table| && m < 0xFFFF && Straight(p, m)
    requires b.Ok() && Standing(b, p, s, recs) && Cursors(r, b, s.f, s.u) && Tracks(s, m, level, cum, q, fp, off)
    modifies r
    ensures m' < m && Tracks(t, m', level + 1, cum', q', fp, off) && Straight(p, m')
    ensures Cursors(r, b, t.f, t.u) && Standing(b, p, t, recs)
  {
    var d; ghost var f, u, j;
    d, f, u := ReadSalt(p, table, r, m, b, s, recs);
    var hmod := Slot(p, level, d, m, fp);
    j, q' := TracksPart(p, s, m, level, cum, q, fp, off, hmod);
    var split := SplitPoint(p, m);
    HalfPart(m, split, hmod, j);
    StraightUnit(p, m);
    StraightPart(p, m, split, j);
    if hmod < split {
      m', cum' := split, cum;
      t := Move(p, r, 0, 0, 0, b, s, f, u, recs);
    } else {
      SkipsRight(p, table, split);
      NodesPositive(p, split);
      t := Move(p, r, 1, EntryNodes(table[split]), EntryBits(table[split]), b, s, f, u, recs);
      m', cum' := m - split, cum + split;
    }
  }

  /** ((m + 1) / 2 + secondary - 1) / secondary * secondary in uint16 arithmetic. */
  method SplitPoint(p: Params, m: nat) returns (split: nat)
    requires ValidParams(p) && p.secondary < m < 0xFFFF
    ensures split == Unit(p, m) && 2 <= split < m <= split + split
  {
    split := HalfUp(m, p.secondary);
    HalfRoundSpec(m, p.secondary);
    HalfExact(m, p.secondary);
    UnitShape(p, m);
    assert Mul(2, Unit(p, m)) == Unit(p, m) + Unit(p, m);
  }

  lemma {:induction false} HalfPart(m: nat, split: nat, hmod: nat, j: nat)
    requires 0 < split < m <= split + split && hmod < m && j == Div(hmod, split)
    ensures j == (if hmod < split then 0 else 1) && Mul(j, split) == (if hmod < split then 0 else split)
    ensures PartSize(m, split, j) == if hmod < split then split else m - split
    ensures forall n :: Mul(0, n) == 0 && Mul(1, n) == n
  {
    assert Mul(1, split) == split;
  }

  /** Parts of a fixed unit: the primary bound, or the leaf size. */
  method StepUnits(p: Params, table: seq<nat>, r: GolombRice.Reader, m: nat, level: nat, cum: nat, fp: nat, unit: nat,
                   nodes: nat,
                   ghost b: Bits, ghost s: Stand, ghost q: nat, ghost recs: seq<nat>, ghost off: nat)
      returns (m': nat, cum': nat, ghost t: Stand, ghost q': nat)
    requires ValidParams(p) && TableOk(p, table) && p.leaf < m < |table| && 0 < unit == Unit(p, m) < m
    requires nodes == TableNodes(p, unit) && Straight(p, m)
    requires b.Ok() && Standing(b, p, s, recs) && Cursors(r, b, s.f, s.u) && Tracks(s, m, level, cum, q, fp, off)
    modifies r
    ensures m' <= unit && Tracks(t, m', level + 1, cum', q', fp, off) && Straight(p, m')
    ensures Cursors(r, b, t.f, t.u) && Standing(b, p, t, recs)
  {
    var d; ghost var f, u, j;
    d, f, u := ReadSalt(p, table, r, m, b, s, recs);
    var hmod := Slot(p, level, d, m, fp);
    j, q' := TracksPart(p, s, m, level, cum, q, fp, off, hmod);
    var part := hmod / unit;
    UnitPart(m, unit, hmod, j, nodes, FixedBits(p, unit));
    NodesPositive(p, unit);
    StraightUnit(p, m);
    SkipsRight(p, table, unit);
    StraightPart(p, m, unit, j);
    m' := if unit < m - part * unit then unit else m - part * unit;
    cum' := cum + unit * part;
    t := Move(p, r, part, nodes * part, EntryBits(table[unit]) * part, b, s, f, u, recs);
  }

  lemma {:induction false} UnitPart(m: nat, unit: nat, hmod: nat, j: nat, nodes: nat, bits: nat)
    requires 0 < unit && hmod < m && j == Div(hmod, unit)
    ensures hmod / unit == j && j * unit == unit * j == Mul(j, unit) <= hmod
    ensures nodes * j == Mul(j, nodes) && bits * j == Mul(j, bits)
    ensures PartSize(m, unit, j) == if unit < m - Mul(j, unit) then unit else m - Mul(j, unit)
    ensures j > 0 && nodes > 0 ==> Mul(j, nodes) > 0
  {
    DivIsQuotient(hmod, unit);
    DivSpec(hmod, unit);
    MulIsProduct(j, unit);
    MulIsProduct(j, nodes);
    MulIsProduct(j, bits);
  }

  /** At a leaf, or at a part of a single key, whatever is read leads to the record. */
  lemma {:induction false} AtLeaf(b: Bits, p: Params, s: Stand, m: nat, g: nat, q: nat, fp: nat, off: nat,
                                  recs: seq<nat>)
    requires ValidParams(p) && b.Ok() && m <= p.leaf && Standing(b, p, s, recs)
    requires Tracks(s, m, s.level, s.base, q, fp, off)
    requires g == Param(p, m)
    ensures s.f < |b.data| && s.f + g <= |b.data| && s.u <= |b.data| && Ones(b.data, s.u, |b.data|) > 0
    ensures var k := s.base + Slot(p, s.level, GolombRice.Joined(NextOne(b.data, s.u) - s.u, b.data, s.f, g), m, fp);
      k < |recs| && recs[k] == off
  {
    if m > 1 {
      ReadsLeaf(b, s.f, s.u, p, s.level, s.es);
    } else {
      ReadsAnything(b, s.u);
    }
  }

  method ReadLeaf(p: Params, table: seq<nat>, r: GolombRice.Reader, m: nat, level: nat, cum: nat, fp: nat,
                  ghost b: Bits, ghost s: Stand, ghost q: nat, ghost recs: seq<nat>, ghost off: nat)
      returns (rec: nat)
    requires ValidParams(p) && TableOk(p, table) && m < |table| && m <= p.leaf
    requires b.Ok() && Standing(b, p, s, recs) && Cursors(r, b, s.f, s.u) && Tracks(s, m, level, cum, q, fp, off)
    modifies r
    ensures rec < |recs| && recs[rec] == off
  {
    assert EntryOk(p, table[m], m);
    AtLeaf(b, p, s, m, EntryParam(table[m]), q, fp, off, recs);
    var d := r.ReadNext(EntryParam(table[m]));
    rec := cum + Slot(p, level, d, m, fp);
  }

  /** Lookup within a bucket of m keys whose records start at cum: the number of the
      record that holds the key's offset. */
  method Walk(p: Params, table: seq<nat>, r: GolombRice.Reader, size: nat, cumKeys: nat, fp: nat,
              ghost b: Bits, ghost start: Stand, ghost entry: nat, ghost recs: seq<nat>, ghost off: nat)
      returns (rec: nat)
    requires ValidParams(p) && TableOk(p, table) && size < |table| && size < 0xFFFF && Straight(p, size)
    requires b.Ok() && Standing(b, p, start, recs) && Cursors(r, b, start.f, start.u)
    requires Tracks(start, size, 0, cumKeys, entry, fp, off)
    modifies r
    ensures rec < |recs| && recs[rec] == off
  {
    var m: nat, level: nat, cum: nat := size, 0, cumKeys;
    ghost var s, q := start, entry;
    while m > p.secondary
      invariant m < |table| && m < 0xFFFF && Straight(p, m)
      invariant Standing(b, p, s, recs) && Cursors(r, b, s.f, s.u) && Tracks(s, m, level, cum, q, fp, off)
      decreases m
    {
      m, cum, s, q := StepHalf(p, table, r, m, level, cum, fp, b, s, q, recs, off);
      level := level + 1;
    }
    if m > p.primary {
      StraightUnit(p, m);
      SkipsRight(p, table, p.primary);
      m, cum, s, q := StepUnits(p, table, r, m, level, cum, fp, p.primary, EntryNodes(table[p.primary]), b, s, q, recs,
          off);
      level := level + 1;
    }
    if m > p.leaf {
      m, cum, s, q := StepUnits(p, table, r, m, level, cum, fp, p.leaf, 1, b, s, q, recs, off);
      level := level + 1;
    }
    rec := ReadLeaf(p, table, r, m, level, cum, fp, b, s, q, recs, off);
  }
}
