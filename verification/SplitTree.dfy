/** The recursive split tree of RecSplit (arXiv 1910.06416) that the index builder
    writes and the index reader walks: how a set of keys is split, the salts that
    split it, and the code of the tree. The mixing function and the Golomb
    parameter of large sets are parameters: the builder and the reader share them. */
module SplitTree {
  import opened Arith
  import opened Words

  /** A 64-bit fingerprint and the offset stored for its key. */
  datatype Entry = Entry(fp: nat, off: nat)

  /** slot(x, m) is the slot in [0, m) of a salted key, golomb the Golomb parameter of
      a set that is larger than a leaf, seeds the first salt of every level. */
  datatype Params = Params(leaf: nat, primary: nat, secondary: nat,
                           seeds: seq<nat>, slot: (nat, nat) -> nat, golomb: nat -> nat)

  ghost predicate Multiple(a: nat, b: nat) { exists k :: a == Mul(k, b) }

  ghost predicate ValidParams(p: Params) {
    && 2 <= p.leaf <= 24
    && 2 * p.leaf <= p.primary <= 216 && Multiple(p.primary, p.leaf)
    && 2 * p.primary <= p.secondary <= 1296 && Multiple(p.secondary, p.primary)
    && (forall m :: p.golomb(m) <= 31)
    && forall x, m :: 0 < m ==> p.slot(x, m) < m
  }

  // ---- how a set of m keys is split

  /** ceil(a / b). */
  function Ceil(a: nat, b: nat): nat
    requires b > 0
  {
    (a + b - 1) / b
  }

  /** The aggregation bounds that NewRecSplit and OpenIndex compute from the leaf size. */
  function AggrBounds(leaf: nat): (nat, nat) {
    var f := Ceil(35 * leaf + 50, 100);
    var primary := leaf * if f < 2 then 2 else f;
    (primary, primary * if leaf < 7 then 2 else Ceil(21 * leaf + 90, 100))
  }

  /** The parameters that go with a leaf size, for any mixing function. */
  function NewParams(leaf: nat, seeds: seq<nat>, mix: nat -> nat, golomb: nat -> nat): Params {
    Params(leaf, AggrBounds(leaf).0, AggrBounds(leaf).1, seeds, SaltedSlot(mix), golomb)
  }

  lemma AggrBoundsValid(leaf: nat, seeds: seq<nat>, mix: nat -> nat, golomb: nat -> nat)
    requires 2 <= leaf <= 24 && forall m :: golomb(m) <= 31
    ensures ValidParams(NewParams(leaf, seeds, mix, golomb))
  {
    var p := NewParams(leaf, seeds, mix, golomb);
    var f := Ceil(35 * leaf + 50, 100);
    var a := if f < 2 then 2 else f;
    var b := if leaf < 7 then 2 else Ceil(21 * leaf + 90, 100);
    assert 2 <= a <= 9 && 2 <= b <= 6;
    Scaled(leaf, a, 24, 9);
    Scaled(p.primary, b, 216, 6);
    forall x: nat, m: nat | 0 < m ensures p.slot(x, m) < m {
      Remap16Below(mix(x % TWO64), m);
    }
  }

  lemma Scaled(x: nat, k: nat, maxX: nat, maxK: nat)
    requires x <= maxX && 2 <= k <= maxK
    ensures 2 * x <= x * k <= maxX * maxK && Multiple(x * k, x)
  {
    assert x * 2 <= x * k;
    assert x * k <= x * maxK <= maxX * maxK;
    MulIsProduct(k, x);
  }

  function U16(x: int): nat { x % 0x1_0000 }

  /** Half of m, rounded up to a multiple of s, in uint16 arithmetic. */
  function HalfUp(m: nat, s: nat): nat
    requires s > 0
  {
    U16(s * (U16(U16(U16(m + 1) / 2 + s) - 1) / s))
  }

  function Quotient(x: nat, u: nat): nat
    requires u > 0
  {
    x / u
  }

  /** m / u rounded up, in uint16 arithmetic. */
  function CeilUp(m: nat, u: nat): nat
    requires u > 0
  {
    Quotient(U16(U16(m + u) - 1), u)
  }

  /** splitParams: the fanout and the size of every part but the last. */
  function SplitParams(p: Params, m: nat): (nat, nat)
    requires p.leaf > 0 && p.primary > 0 && p.secondary > 0
  {
    if m > p.secondary then (2, HalfUp(m, p.secondary))
    else if m > p.primary then (CeilUp(m, p.primary), p.primary)
    else (CeilUp(m, p.leaf), p.leaf)
  }

  /** Half of m, rounded up to a multiple of s. */
  function HalfRound(m: nat, s: nat): nat
    requires s > 0
  {
    if m <= 2 * s then s else s + HalfRound(m - 2 * s, s)
  }

  lemma {:induction false} HalfRoundSpec(m: nat, s: nat)
    requires 0 < s && 0 < m
    ensures Multiple(HalfRound(m, s), s) && s <= HalfRound(m, s)
    ensures m <= 2 * HalfRound(m, s) <= m + 2 * s && (m > s ==> HalfRound(m, s) < m)
    ensures HalfRound(m, s) == Mul(Units((m + 1) / 2, s), s)
  {
    assert Mul(1, s) == s;
    if m > 2 * s {
      HalfRoundSpec(m - 2 * s, s);
      var h := (m + 1) / 2;
      assert (m - 2 * s + 1) / 2 == h - s;
      assert Units(h, s) == 1 + Units(h - s, s);
      assert HalfRound(m, s) == Mul(Units(h, s), s);
    }
  }

  /** The part size without wrap-around. */
  function Unit(p: Params, m: nat): nat
    requires p.secondary > 0
  {
    if m > p.secondary then HalfRound(m, p.secondary)
    else if m > p.primary then p.primary
    else p.leaf
  }

  /** Every part is smaller than the set and holds at least two keys, except that the
      last one may hold a single key. */
  lemma UnitShape(p: Params, m: nat)
    requires ValidParams(p) && m > p.leaf
    ensures var u := Unit(p, m); 2 <= u < m && 2 <= Units(m, u) && Mul(Units(m, u) - 1, u) < m <= Mul(Units(m, u), u)
    ensures m > p.secondary ==>
        Units(m, Unit(p, m)) == 2 && Unit(p, m) <= (m + 1) / 2 + p.secondary && Multiple(Unit(p, m), p.secondary)
    ensures Units(m, Unit(p, m)) <= p.secondary
  {
    var u := Unit(p, m);
    if m > p.secondary {
      HalfRoundSpec(m, p.secondary);
    } else {
      UnitsBound(m, u);
    }
    assert Units(m, u) == 1 + Units(m - u, u);
    UnitsSpec(m, u);
  }

  lemma {:induction false} UnitsBound(m: nat, u: nat)
    requires u > 0
    ensures Units(m, u) <= m
  {
    if m > u {
      UnitsBound(m - u, u);
    }
  }

  /** splitParams does not wrap for m < 65535. */
  lemma SplitParamsExact(p: Params, m: nat)
    requires ValidParams(p) && p.leaf < m < 0xFFFF
    ensures SplitParams(p, m).0 == Units(m, Unit(p, m))
    ensures SplitParams(p, m).1 == Unit(p, m)
  {
    UnitShape(p, m);
    if m > p.secondary {
      HalfRoundSpec(m, p.secondary);
      HalfExact(m, p.secondary);
    } else {
      CeilExact(m, Unit(p, m));
    }
  }

  lemma CeilExact(m: nat, u: nat)
    requires 0 < u && m + u < 0x1_0000
    ensures CeilUp(m, u) == Units(m, u)
  {
    UnitsIsQuotient(m, u);
  }

  lemma HalfExact(m: nat, s: nat)
    requires 0 < s <= 1296 && m < 0xFFFF && Mul(Units((m + 1) / 2, s), s) <= (m + 1) / 2 + s
    ensures HalfUp(m, s) == Mul(Units((m + 1) / 2, s), s)
  {
    var h := (m + 1) / 2;
    var x := U16(U16(U16(m + 1) / 2 + s) - 1);
    assert x == h + s - 1;
    var q := x / s;
    assert q == Units(h, s) by {
      UnitsIsQuotient(h, s);
    }
    assert s * q == Mul(q, s) by {
      MulIsProduct(q, s);
    }
  }

  // ---- where a key goes

  const TWO48: nat := 0x1_0000_0000_0000

  /** Maps a 64-bit hash onto [0, n): (x & mask48) * n >> 48. */
  function Remap16(x: nat, n: nat): nat {
    ((x % TWO48) * n) / TWO48
  }

  lemma Remap16Below(x: nat, n: nat)
    requires n > 0
    ensures Remap16(x, n) < n
  {
    var y := x % TWO48;
    assert y * n < TWO48 * n by {
      assert (TWO48 - y) * n >= n;
      assert TWO48 * n - y * n == (TWO48 - y) * n;
    }
  }

  /** remap16(remix(x), m), with x wrapped to 64 bits, for any mixing function. */
  function SaltedSlot(mix: nat -> nat): (nat, nat) -> nat {
    (x: nat, m: nat) => Remap16(mix(x % TWO64), m)
  }

  /** The slot of a key among m under the d-th salt of a level. */
  function Slot(p: Params, level: nat, d: nat, m: nat, fp: nat): (r: nat)
    requires level < |p.seeds|
  {
    p.slot(fp + p.seeds[level] + d, m)
  }

  /** A node of the tree that splits m keys into n parts of at most u. */
  datatype Node = Node(p: Params, level: nat, d: nat, m: nat, u: nat) {
    ghost predicate Ok() { level < |p.seeds| && 0 < m && 0 < u && forall x :: p.slot(x, m) < m }

    function Parts(): nat
      requires u > 0
    {
      Units(m, u)
    }

    function PartOf(fp: nat): (r: nat)
      requires Ok()
      ensures r < Parts()
    {
      DivBelowUnits(Slot(p, level, d, m, fp), m, u);
      Div(Slot(p, level, d, m, fp), u)
    }
  }

  /** The entries that node x sends to part j, in order. */
  function Part(x: Node, es: seq<Entry>, j: nat): (r: seq<Entry>)
    requires x.Ok()
    ensures |r| <= |es|
  {
    if es == [] then []
    else
      var k := |es| - 1;
      Part(x, es[..k], j) + if x.PartOf(es[k].fp) == j then [es[k]] else []
  }

  /** The entries dealt out to the first n parts, part by part. */
  function Dealt(x: Node, es: seq<Entry>, n: nat): seq<Entry>
    requires x.Ok()
  {
    if n == 0 then [] else Dealt(x, es, n - 1) + Part(x, es, n - 1)
  }

  /** Every part but the last gets exactly u keys. */
  ghost predicate Balanced(x: Node, es: seq<Entry>)
    requires x.Ok()
  {
    forall j :: 0 <= j < x.Parts() - 1 ==> |Part(x, es, j)| == x.u
  }

  /** All keys get different slots. */
  ghost predicate Bijective(p: Params, level: nat, d: nat, es: seq<Entry>)
    requires level < |p.seeds|
  {
    forall i, j :: 0 <= i < j < |es| ==>
      Slot(p, level, d, |es|, es[i].fp) != Slot(p, level, d, |es|, es[j].fp)
  }

  /** What the salt search of a node looks for. */
  ghost predicate Works(p: Params, level: nat, d: nat, es: seq<Entry>)
    requires ValidParams(p) && level < |p.seeds| && es != []
  {
    if |es| <= p.leaf then Bijective(p, level, d, es)
    else Balanced(NodeOf(p, level, d, |es|), es)
  }

  function NodeOf(p: Params, level: nat, d: nat, m: nat): (x: Node)
    requires p.leaf > 0 && p.secondary > 0 && p.primary > 0 && level < |p.seeds| && m > 0
  {
    Node(p, level, d, m, Unit(p, m))
  }

  /** The first salt that works, as a distance from the level's seed. */
  ghost predicate IsSalt(p: Params, level: nat, d: nat, es: seq<Entry>)
    requires ValidParams(p) && level < |p.seeds| && es != []
  {
    Works(p, level, d, es) && forall c :: 0 <= c < d ==> !Works(p, level, c, es)
  }

  lemma {:induction false} DealtAll(x: Node, es: seq<Entry>)
    requires x.Ok()
    ensures |Dealt(x, es, x.Parts())| == |es|
  {
    if es == [] {
      DealtNone(x, x.Parts());
    } else {
      var k := |es| - 1;
      DealtAll(x, es[..k]);
      DealtSnoc(x, es, x.Parts());
    }
  }

  lemma {:induction false} DealtNone(x: Node, n: nat)
    requires x.Ok()
    ensures Dealt(x, [], n) == []
  {
    if n > 0 {
      DealtNone(x, n - 1);
    }
  }

  lemma {:induction false} DealtSnoc(x: Node, es: seq<Entry>, n: nat)
    requires x.Ok() && es != []
    ensures |Dealt(x, es, n)| == |Dealt(x, es[..|es| - 1], n)| + if x.PartOf(es[|es| - 1].fp) < n then 1 else 0
  {
    if n > 0 {
      DealtSnoc(x, es, n - 1);
    }
  }

  /** A balanced deal puts part j at position j * u. */
  lemma {:induction false} DealtStart(x: Node, es: seq<Entry>, n: nat)
    requires x.Ok() && Balanced(x, es) && n < x.Parts()
    ensures |Dealt(x, es, n)| == Mul(n, x.u)
  {
    if n > 0 {
      DealtStart(x, es, n - 1);
    }
  }

  /** In a balanced deal of all m keys the last part gets the rest. */
  lemma LastPart(x: Node, es: seq<Entry>)
    requires x.Ok() && x.m == |es| && Balanced(x, es)
    ensures |Part(x, es, x.Parts() - 1)| == x.m - Mul(x.Parts() - 1, x.u) <= x.u
  {
    UnitsSpec(x.m, x.u);
    DealtAll(x, es);
    DealtStart(x, es, x.Parts() - 1);
  }

  /** The size of part j, which starts at j * u. */
  function PartSize(m: nat, u: nat, j: nat): int {
    if Mul(j, u) + u <= m then u else m - Mul(j, u)
  }

  lemma PartSizes(x: Node, es: seq<Entry>, j: nat)
    requires x.Ok() && x.m == |es| && Balanced(x, es) && j < x.Parts()
    ensures Mul(j, x.u) < |es| && 0 < |Part(x, es, j)| == PartSize(|es|, x.u, j) <= x.u
    ensures Mul(j, x.u) + |Part(x, es, j)| <= |es|
  {
    LastPart(x, es);
    UnitsSpec(x.m, x.u);
    if j < x.Parts() - 1 {
      MulMonotonic(j, x.Parts() - 1, x.u);
    }
  }

  /** Entry q is found in the part that its key is sent to. */
  lemma {:induction false} PartHas(x: Node, es: seq<Entry>, q: nat) returns (r: nat)
    requires x.Ok() && q < |es|
    ensures r < |Part(x, es, x.PartOf(es[q].fp))| && Part(x, es, x.PartOf(es[q].fp))[r] == es[q]
  {
    var k := |es| - 1;
    if q < k {
      r := PartHas(x, es[..k], q);
    } else {
      r := |Part(x, es[..k], x.PartOf(es[q].fp))|;
    }
  }
}
