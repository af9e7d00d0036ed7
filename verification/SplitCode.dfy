/** The code of a split tree: the salts' low parts and high parts in depth-first
    order, the placement of the offset records, and the sizes that let a reader
    skip a subtree without reading it. */
module SplitCode {
  import opened Arith
  import opened Words
  import opened SplitTree

  /** Golomb parameters of leaves, by size (bijMemo). */
  function BijMemo(m: nat): (r: nat)
    requires m <= 24
    ensures r <= 31 && (m <= 2 ==> r == 0)
  {
    [0, 0, 0, 1, 3, 4, 5, 7, 8, 10, 11, 12, 14, 15, 16, 18, 19, 21, 22, 23, 25, 26, 28, 29, 30][m]
  }

  /** The parameter that the table is meant to give for a set of m keys. */
  function Meant(p: Params, m: nat): nat
    requires p.leaf <= 24
  {
    if m <= p.leaf then BijMemo(m) else p.golomb(m)
  }

  /**
   * The nodes of the subtree of m keys as the table counts them: a part of one key counts as a node although it
   * has no code.
   */
  function TableNodes(p: Params, m: nat): nat
    requires p.leaf > 0 && p.primary > 0 && p.secondary > 0
    decreases m, 1
  {
    if m == 0 then 0
    else if m <= p.leaf then 1
    else if 0 < Unit(p, m) < m then 1 + KidsNodes(p, m, Unit(p, m))
    else 0
  }

  function KidsNodes(p: Params, m: nat, u: nat): nat
    requires p.leaf > 0 && p.primary > 0 && p.secondary > 0 && u > 0
    decreases m, if m > u then 0 else 2
  {
    if m <= u then TableNodes(p, m) else TableNodes(p, u) + KidsNodes(p, m - u, u)
  }

  /** The same sum over the table's entries, which keep 11 bits of every number. */
  function KidsStored(p: Params, m: nat, u: nat): nat
    requires p.leaf > 0 && p.primary > 0 && p.secondary > 0 && u > 0
    decreases m
  {
    if m <= u then TableNodes(p, m) % 0x800 else TableNodes(p, u) % 0x800 + KidsStored(p, m - u, u)
  }

  function NodeSum(p: Params, m: nat): nat
    requires p.leaf > 0 && p.primary > 0 && p.secondary > 0
  {
    if 0 < Unit(p, m) then 1 + KidsStored(p, m, Unit(p, m)) else 0
  }

  /** The parameter that the table does give: what the sum of nodes carries over is in its bits too. */
  function Param(p: Params, m: nat): nat
    requires 0 < p.leaf <= 24 && p.primary > 0 && p.secondary > 0
  {
    if m <= p.leaf then BijMemo(m) else BitOr(p.golomb(m), NodeSum(p, m) / 0x800)
  }

  // ---- trees whose salt searches all succeed

  ghost predicate HasSalt(p: Params, level: nat, es: seq<Entry>)
    requires ValidParams(p) && es != [] && level < |p.seeds|
  {
    exists d: nat :: d < TWO64 && IsSalt(p, level, d, es)
  }

  ghost function SaltOf(p: Params, level: nat, es: seq<Entry>): (d: nat)
    requires ValidParams(p) && es != [] && level < |p.seeds| && HasSalt(p, level, es)
    ensures d < TWO64 && IsSalt(p, level, d, es)
  {
    var d: nat :| d < TWO64 && IsSalt(p, level, d, es);
    d
  }

  lemma SaltUnique(p: Params, level: nat, es: seq<Entry>, d: nat)
    requires ValidParams(p) && es != [] && level < |p.seeds| && d < TWO64 && IsSalt(p, level, d, es)
    ensures SaltOf(p, level, es) == d
  {
  }

  /** A set that is split, and its node under the first salt that works. */
  ghost predicate IsSplit(p: Params, level: nat, es: seq<Entry>, x: Node)
    requires ValidParams(p)
  {
    && |es| > p.leaf && level < |p.seeds| && HasSalt(p, level, es)
    && x == NodeOf(p, level, SaltOf(p, level, es), |es|)
  }

  ghost function NodeBy(p: Params, level: nat, es: seq<Entry>): (x: Node)
    requires ValidParams(p) && |es| > p.leaf && level < |p.seeds| && HasSalt(p, level, es)
    ensures x.Ok() && x.m == |es| && Balanced(x, es) && x.u == Unit(p, |es|)
    ensures IsSplit(p, level, es, x)
  {
    UnitShape(p, |es|);
    NodeOf(p, level, SaltOf(p, level, es), |es|)
  }

  /** Every part is smaller than the set. */
  lemma PartSmaller(p: Params, level: nat, es: seq<Entry>, j: nat)
    requires ValidParams(p) && |es| > p.leaf && level < |p.seeds| && HasSalt(p, level, es)
    requires j < NodeBy(p, level, es).Parts()
    ensures 0 < |Part(NodeBy(p, level, es), es, j)| < |es|
  {
    UnitShape(p, |es|);
    PartSizes(NodeBy(p, level, es), es, j);
  }

  /** Every salt search in the tree of these entries finds a 64-bit salt: exactly when
      the recursive split terminates. A part of one key has no subtree. */
  ghost predicate Solvable(p: Params, level: nat, es: seq<Entry>)
    requires ValidParams(p)
    decreases |es|
  {
    && es != [] && level < |p.seeds| && HasSalt(p, level, es)
    && (|es| > p.leaf ==>
          forall j :: 0 <= j < NodeBy(p, level, es).Parts() ==>
            (PartSmaller(p, level, es, j);
             |Part(NodeBy(p, level, es), es, j)| > 1 ==> Solvable(p, level + 1, Part(NodeBy(p, level, es), es, j))))
  }

  ghost predicate SolvablePart(p: Params, level: nat, part: seq<Entry>)
    requires ValidParams(p)
  {
    part != [] && (|part| > 1 ==> Solvable(p, level, part))
  }

  // ---- the code

  /** Low parts as bits, high parts as numbers to be written in unary. */
  datatype Code = Code(fixed: seq<bool>, unary: seq<nat>)

  function Join(a: Code, b: Code): Code { Code(a.fixed + b.fixed, a.unary + b.unary) }

  function SaltCode(d: nat, g: nat): Code { Code(ToBits(d, g), [High(d, g)]) }

  ghost function Encode(p: Params, level: nat, es: seq<Entry>): Code
    requires ValidParams(p) && Solvable(p, level, es)
    decreases |es|, 0
  {
    var own := SaltCode(SaltOf(p, level, es), Param(p, |es|));
    if |es| <= p.leaf then own else Join(own, EncodeParts(p, level, es, 0))
  }

  /** The code of the parts from part j on. */
  ghost function EncodeParts(p: Params, level: nat, es: seq<Entry>, j: nat): Code
    requires ValidParams(p) && Solvable(p, level, es) && |es| > p.leaf
    decreases |es|, 0, NodeBy(p, level, es).Parts() - j
  {
    var x := NodeBy(p, level, es);
    if j >= x.Parts() then Code([], [])
    else
      PartSmaller(p, level, es, j);
      Join(if |Part(x, es, j)| > 1 then Encode(p, level + 1, Part(x, es, j)) else Code([], []),
           EncodeParts(p, level, es, j + 1))
  }

  ghost function PartCode(p: Params, level: nat, part: seq<Entry>): Code
    requires ValidParams(p) && SolvablePart(p, level, part)
  {
    if |part| > 1 then Encode(p, level, part) else Code([], [])
  }

  // ---- the records

  /** recs holds, from base on, the offset of every entry at the place where the tree
      sends its key. */
  ghost predicate Placed(p: Params, level: nat, es: seq<Entry>, recs: seq<nat>, base: nat)
    requires ValidParams(p) && Solvable(p, level, es)
    decreases |es|, 1
  {
    && base + |es| <= |recs|
    && if |es| <= p.leaf then
         forall i :: 0 <= i < |es| ==>
           recs[base + Slot(p, level, SaltOf(p, level, es), |es|, es[i].fp)] == es[i].off
       else
         forall j :: 0 <= j < NodeBy(p, level, es).Parts() ==> PlacedAt(p, level, es, recs, base, j)
  }

  /** Part j is in place. */
  ghost predicate PlacedAt(p: Params, level: nat, es: seq<Entry>, recs: seq<nat>, base: nat, j: nat)
    requires ValidParams(p) && Solvable(p, level, es) && |es| > p.leaf && j < NodeBy(p, level, es).Parts()
    decreases |es|, 0
  {
    PartSmaller(p, level, es, j);
    var part, from := Part(NodeBy(p, level, es), es, j), base + Mul(j, NodeBy(p, level, es).u);
    if |part| > 1 then Placed(p, level + 1, part, recs, from) else from < |recs| && recs[from] == part[0].off
  }

  ghost predicate PlacedPart(p: Params, level: nat, part: seq<Entry>, recs: seq<nat>, base: nat)
    requires ValidParams(p) && SolvablePart(p, level, part)
  {
    if |part| > 1 then Placed(p, level, part, recs, base) else base < |recs| && recs[base] == part[0].off
  }

  // ---- by part

  lemma SplitParts(p: Params, level: nat, es: seq<Entry>, j: nat)
    requires ValidParams(p) && Solvable(p, level, es) && |es| > p.leaf && j < NodeBy(p, level, es).Parts()
    ensures SolvablePart(p, level + 1, Part(NodeBy(p, level, es), es, j))
    ensures EncodeParts(p, level, es, j) ==
      Join(PartCode(p, level + 1, Part(NodeBy(p, level, es), es, j)), EncodeParts(p, level, es, j + 1))
    ensures var u, k := Unit(p, |es|), Mul(j, Unit(p, |es|));
      k < |es| && |Part(NodeBy(p, level, es), es, j)| == (if k + u < |es| then u else |es| - k) < |es|
  {
    PartSmaller(p, level, es, j);
    PartSizes(NodeBy(p, level, es), es, j);
  }

  lemma PlacedByPart(p: Params, level: nat, es: seq<Entry>, recs: seq<nat>, base: nat, j: nat)
    requires ValidParams(p) && Solvable(p, level, es) && |es| > p.leaf && j < NodeBy(p, level, es).Parts()
    ensures SolvablePart(p, level + 1, Part(NodeBy(p, level, es), es, j))
    ensures PlacedAt(p, level, es, recs, base, j) <==>
      PlacedPart(p, level + 1, Part(NodeBy(p, level, es), es, j), recs, base + Mul(j, Unit(p, |es|)))
  {
    SplitParts(p, level, es, j);
  }

  // ---- the sizes of subtrees

  /** The bits of all low parts in the subtree of m keys. */
  function SkipBits(p: Params, m: nat): nat
    requires 0 < p.leaf <= 24 && p.primary > 0 && p.secondary > 0
    decreases m, 1
  {
    if m <= p.leaf then BijMemo(m)
    else if 0 < Unit(p, m) < m then p.golomb(m) + KidsBits(p, m, Unit(p, m))
    else 0
  }

  function KidsBits(p: Params, m: nat, u: nat): nat
    requires 0 < p.leaf <= 24 && p.primary > 0 && p.secondary > 0 && u > 0
    decreases m, if m > u then 0 else 2
  {
    if m <= u then SkipBits(p, m) else SkipBits(p, u) + KidsBits(p, m - u, u)
  }

  /** The bits that the low parts do take. */
  function FixedBits(p: Params, m: nat): nat
    requires 0 < p.leaf <= 24 && p.primary > 0 && p.secondary > 0
    decreases m, 1
  {
    if m <= p.leaf then BijMemo(m)
    else if 0 < Unit(p, m) < m then Param(p, m) + KidsFixed(p, m, Unit(p, m))
    else 0
  }

  function KidsFixed(p: Params, m: nat, u: nat): nat
    requires 0 < p.leaf <= 24 && p.primary > 0 && p.secondary > 0 && u > 0
    decreases m, if m > u then 0 else 2
  {
    if m <= u then FixedBits(p, m) else FixedBits(p, u) + KidsFixed(p, m - u, u)
  }

  /** The nodes that have a code: sets of one key have none. */
  function Coded(p: Params, m: nat): nat
    requires p.leaf > 0 && p.primary > 0 && p.secondary > 0
    decreases m, 1
  {
    if m <= 1 then 0
    else if m <= p.leaf then 1
    else if 0 < Unit(p, m) < m then 1 + KidsCoded(p, m, Unit(p, m))
    else 0
  }

  function KidsCoded(p: Params, m: nat, u: nat): nat
    requires p.leaf > 0 && p.primary > 0 && p.secondary > 0 && u > 0
    decreases m, if m > u then 0 else 2
  {
    if m <= u then Coded(p, m) else Coded(p, u) + KidsCoded(p, m - u, u)
  }

  /** The code has these sizes. */
  ghost predicate Sized(p: Params, c: Code, m: nat)
    requires ValidParams(p)
  {
    |c.fixed| == FixedBits(p, m) && |c.unary| == Coded(p, m)
  }

  ghost predicate KidsSized(p: Params, c: Code, m: nat, u: nat)
    requires ValidParams(p) && u > 0
  {
    |c.fixed| == KidsFixed(p, m, u) && |c.unary| == KidsCoded(p, m, u)
  }

  /** The sizes of a tree's code depend on the number of its keys only. */
  lemma {:induction false} CodeSize(p: Params, level: nat, es: seq<Entry>)
    requires ValidParams(p) && Solvable(p, level, es) && |es| > 1
    ensures Sized(p, Encode(p, level, es), |es|)
    decreases |es|, 0
  {
    if |es| > p.leaf {
      UnitShape(p, |es|);
      assert Mul(0, Unit(p, |es|)) == 0;
      PartsSize(p, level, es, 0);
    }
  }

  lemma {:induction false} PartsSize(p: Params, level: nat, es: seq<Entry>, j: nat)
    requires ValidParams(p) && Solvable(p, level, es) && |es| > p.leaf && j < NodeBy(p, level, es).Parts()
    ensures Mul(j, Unit(p, |es|)) < |es| && Unit(p, |es|) > 0
    ensures KidsSized(p, EncodeParts(p, level, es, j), |es| - Mul(j, Unit(p, |es|)), Unit(p, |es|))
    decreases |es|, 0, NodeBy(p, level, es).Parts() - j
  {
    var x := NodeBy(p, level, es);
    SplitParts(p, level, es, j);
    PartEnd(x, j);
    var first, rest := PartCode(p, level + 1, Part(x, es, j)), EncodeParts(p, level, es, j + 1);
    PartCodeSize(p, level + 1, Part(x, es, j));
    if j + 1 < x.Parts() {
      PartsSize(p, level, es, j + 1);
    }
    JoinSized(p, first, rest, |es| - Mul(j, x.u), x.u);
  }

  lemma JoinSized(p: Params, first: Code, rest: Code, m: nat, u: nat)
    requires ValidParams(p) && u > 0 && Sized(p, first, if m > u then u else m)
    requires if m > u then KidsSized(p, rest, m - u, u) else rest == Code([], [])
    ensures KidsSized(p, Join(first, rest), m, u)
  {
  }

  lemma PartCodeSize(p: Params, level: nat, part: seq<Entry>)
    requires ValidParams(p) && SolvablePart(p, level, part)
    ensures Sized(p, PartCode(p, level, part), |part|)
    decreases |part|, 1
  {
    if |part| > 1 {
      CodeSize(p, level, part);
    }
  }

  /** Only the last part reaches the end of the set. */
  lemma PartEnd(x: Node, j: nat)
    requires x.Ok() && j < x.Parts()
    ensures Mul(j, x.u) < x.m && (Mul(j, x.u) + x.u < x.m <==> j + 1 < x.Parts())
    ensures Mul(j + 1, x.u) == Mul(j, x.u) + x.u
  {
    UnitsSpec(x.m, x.u);
    if j + 1 < x.Parts() {
      MulMonotonic(j + 1, x.Parts() - 1, x.u);
    }
  }

  /** Sizes that the reader skips: whole leaves, whole primary units, whole multiples
      of the secondary unit. */
  ghost predicate Whole(p: Params, m: nat) {
    m == p.leaf || m == p.primary || (m > 0 && Multiple(m, p.secondary))
  }

  /** All parts of a set of m keys are whole when m is a multiple of base. */
  ghost predicate WholeParts(p: Params, m: nat, u: nat, base: nat) {
    && 0 < m && 0 < u && Multiple(m, base) && Multiple(u, base)
    && (base == p.secondary || (base == u && (u == p.leaf || u == p.primary)))
  }

  /** On whole sizes the table counts exactly the nodes that are coded: no part of a whole set has a single key. */
  lemma {:induction false} WholeNodes(p: Params, m: nat)
    requires ValidParams(p) && Whole(p, m)
    ensures Coded(p, m) == TableNodes(p, m)
    decreases m, 1
  {
    if m > p.leaf {
      UnitShape(p, m);
      var base := WholeSplit(p, m);
      WholeKids(p, m, Unit(p, m), base);
    }
  }

  lemma {:induction false} WholeKids(p: Params, m: nat, u: nat, base: nat)
    requires ValidParams(p) && WholeParts(p, m, u, base)
    ensures KidsCoded(p, m, u) == KidsNodes(p, m, u)
    decreases m, if m > u then 0 else 2
  {
    assert Mul(0, u) == 0;
    PartIsWhole(p, m, u, base, 0);
    if m <= u {
      WholeNodes(p, m);
    } else {
      WholeNodes(p, u);
      MultipleRest(m, u, base);
      WholeKids(p, m - u, u, base);
    }
  }

  lemma WholeSplit(p: Params, m: nat) returns (base: nat)
    requires ValidParams(p) && m > p.leaf && Whole(p, m)
    ensures Unit(p, m) > 0 && WholeParts(p, m, Unit(p, m), base)
  {
    UnitShape(p, m);
    MultipleSelf(p.leaf);
    MultipleSelf(p.primary);
    if m == p.primary {
      base := p.leaf;
    } else if m == p.secondary {
      base := p.primary;
    } else {
      base := p.secondary;
      MultipleAtLeast(m, p.secondary);
    }
  }

  lemma PartIsWhole(p: Params, m: nat, u: nat, base: nat, i: nat)
    requires ValidParams(p) && WholeParts(p, m, u, base) && Mul(i, u) < m
    ensures var n := if Mul(i, u) + u < m then u else m - Mul(i, u); n > 1 && (n <= u ==> Whole(p, n))
  {
    MultipleMul(i, u, base);
    MultipleRest(m, Mul(i, u), base);
    MultipleAtLeast(m - Mul(i, u), base);
    MultipleAtLeast(u, base);
  }

  lemma {:induction false} MultipleMul(i: nat, u: nat, base: nat)
    requires Multiple(u, base)
    ensures Multiple(Mul(i, u), base)
  {
    if i == 0 {
      assert Mul(0, base) == 0;
    } else {
      MultipleMul(i - 1, u, base);
      MultipleSum(Mul(i - 1, u), u, base);
    }
  }

  lemma MultipleSum(a: nat, b: nat, base: nat)
    requires Multiple(a, base) && Multiple(b, base)
    ensures Multiple(a + b, base)
  {
    var i: nat :| a == Mul(i, base);
    var j: nat :| b == Mul(j, base);
    MulDiff(i + j, i, base);
  }

  lemma MultipleSelf(u: nat)
    ensures Multiple(u, u)
  {
    assert Mul(1, u) == u;
  }

  lemma MultipleAtLeast(a: nat, b: nat)
    requires Multiple(a, b) && a > 0
    ensures a >= b
  {
    var k :| a == Mul(k, b);
    if k > 0 {
      MulMonotonic(1, k, b);
      MultipleSelf(b);
      assert Mul(1, b) == b;
    }
  }

  lemma MultipleRest(a: nat, b: nat, base: nat)
    requires Multiple(a, base) && Multiple(b, base) && b <= a
    ensures Multiple(a - b, base)
  {
    var i: nat :| a == Mul(i, base);
    var j: nat :| b == Mul(j, base);
    if j <= i {
      MulDiff(i, j, base);
    } else {
      MulMonotonic(i, j, base);
      assert Mul(0, base) == 0;
    }
  }

  lemma {:induction false} MulDiff(i: nat, j: nat, u: nat)
    requires j <= i
    ensures Mul(i, u) == Mul(j, u) + Mul(i - j, u)
  {
    if j < i {
      MulDiff(i - 1, j, u);
    }
  }

  // ---- the sizes for which the table is right

  /**
   * What a reader of the tree of m keys needs of the table: on every set that is split the parameter is the one
   * that was meant, and the number of nodes of the parts that may be skipped fits its 11 bits.
   */
  ghost predicate Straight(p: Params, m: nat)
    requires ValidParams(p)
    decreases m, 1
  {
    m > p.leaf ==>
      (UnitShape(p, m);
       Param(p, m) == p.golomb(m) && TableNodes(p, Unit(p, m)) < 0x800 && KidsStraight(p, m, Unit(p, m)))
  }

  ghost predicate KidsStraight(p: Params, m: nat, u: nat)
    requires ValidParams(p) && u > 0
    decreases m, if m > u then 0 else 2
  {
    if m <= u then Straight(p, m) else Straight(p, u) && KidsStraight(p, m - u, u)
  }

  /** Every part of a straight set is straight. */
  lemma {:induction false} StraightPart(p: Params, m: nat, u: nat, j: nat)
    requires ValidParams(p) && u > 0 && KidsStraight(p, m, u) && Mul(j, u) < m
    ensures Straight(p, PartSize(m, u, j))
    decreases j
  {
    if j > 0 {
      NextPartSize(m, u, j);
      StraightPart(p, m - u, u, j - 1);
    }
  }

  lemma NextPartSize(m: nat, u: nat, j: nat)
    requires j > 0 && Mul(j, u) < m
    ensures m > u && Mul(j - 1, u) < m - u && PartSize(m, u, j) == PartSize(m - u, u, j - 1) && 0 <= PartSize(m, u, j)
  {
  }

  lemma StraightParam(p: Params, m: nat)
    requires ValidParams(p) && Straight(p, m)
    ensures Param(p, m) == Meant(p, m)
  {
  }

  lemma {:induction false} FixedAtLeast(p: Params, m: nat)
    requires ValidParams(p)
    ensures FixedBits(p, m) >= SkipBits(p, m)
    decreases m, 1
  {
    if m > p.leaf {
      UnitShape(p, m);
      OrAtLeast(p.golomb(m), NodeSum(p, m) / 0x800);
      KidsAtLeast(p, m, Unit(p, m));
    }
  }

  lemma {:induction false} KidsAtLeast(p: Params, m: nat, u: nat)
    requires ValidParams(p) && u > 0
    ensures KidsFixed(p, m, u) >= KidsBits(p, m, u)
    decreases m, if m > u then 0 else 2
  {
    if m <= u {
      FixedAtLeast(p, m);
    } else {
      FixedAtLeast(p, u);
      KidsAtLeast(p, m - u, u);
    }
  }

  /** The parts that may be skipped have few enough nodes. */
  ghost predicate SkipsFit(p: Params, m: nat)
    requires ValidParams(p)
    decreases m, 1
  {
    m > p.leaf ==> (UnitShape(p, m); TableNodes(p, Unit(p, m)) < 0x800 && KidsSkipsFit(p, m, Unit(p, m)))
  }

  ghost predicate KidsSkipsFit(p: Params, m: nat, u: nat)
    requires ValidParams(p) && u > 0
    decreases m, if m > u then 0 else 2
  {
    if m <= u then SkipsFit(p, m) else SkipsFit(p, u) && KidsSkipsFit(p, m - u, u)
  }

  /** A set is straight exactly when the table has the size of its code right, and of what may be skipped. */
  lemma {:induction false} StraightExactly(p: Params, m: nat)
    requires ValidParams(p)
    ensures Straight(p, m) <==> FixedBits(p, m) == SkipBits(p, m) && SkipsFit(p, m)
    decreases m, 1
  {
    if m > p.leaf {
      UnitShape(p, m);
      OrAtLeast(p.golomb(m), NodeSum(p, m) / 0x800);
      KidsAtLeast(p, m, Unit(p, m));
      KidsStraightExactly(p, m, Unit(p, m));
    }
  }

  lemma {:induction false} KidsStraightExactly(p: Params, m: nat, u: nat)
    requires ValidParams(p) && u > 0
    ensures KidsStraight(p, m, u) <==> KidsFixed(p, m, u) == KidsBits(p, m, u) && KidsSkipsFit(p, m, u)
    decreases m, if m > u then 0 else 2
  {
    if m <= u {
      StraightExactly(p, m);
    } else {
      StraightExactly(p, u);
      FixedAtLeast(p, u);
      KidsAtLeast(p, m - u, u);
      KidsStraightExactly(p, m - u, u);
    }
  }

  /** While the nodes fit, the sum of nodes carries nothing over. */
  lemma {:induction false} SmallIsStraight(p: Params, m: nat)
    requires ValidParams(p) && TableNodes(p, m) < 0x800
    ensures Straight(p, m)
    decreases m, 1
  {
    if m > p.leaf {
      UnitShape(p, m);
      SmallKids(p, m, Unit(p, m));
      assert NodeSum(p, m) == TableNodes(p, m);
    }
  }

  lemma {:induction false} SmallKids(p: Params, m: nat, u: nat)
    requires ValidParams(p) && 0 < u && 0 < m && KidsNodes(p, m, u) < 0x800
    ensures KidsStored(p, m, u) == KidsNodes(p, m, u) && KidsStraight(p, m, u) && (m > u ==> TableNodes(p, u) < 0x800)
    decreases m, if m > u then 0 else 2
  {
    if m <= u {
      SmallIsStraight(p, m);
    } else {
      SmallIsStraight(p, u);
      SmallKids(p, m - u, u);
    }
  }

  lemma {:induction false} StoredExact(p: Params, m: nat, u: nat)
    requires ValidParams(p) && u > 0 && forall k: nat :: k <= (if m <= u then m else m - 1) ==> TableNodes(p, k) < 0x800
    ensures KidsStored(p, m, u) == KidsNodes(p, m, u)
  {
    if m > u {
      StoredExact(p, m - u, u);
    }
  }

  lemma ModSum(a: nat, b: nat, c: nat)
    requires b % 0x800 == c % 0x800
    ensures (a % 0x800 + b) % 0x800 == (a + c) % 0x800
  {
  }

  /** The sum over the entries is right up to a multiple of 2048. */
  lemma {:induction false} StoredMod(p: Params, m: nat, u: nat)
    requires ValidParams(p) && u > 0
    ensures KidsStored(p, m, u) % 0x800 == KidsNodes(p, m, u) % 0x800
  {
    if m > u {
      StoredMod(p, m - u, u);
      ModSum(TableNodes(p, u), KidsStored(p, m - u, u), KidsNodes(p, m - u, u));
    }
  }

  lemma NodeSumMod(p: Params, m: nat)
    requires ValidParams(p) && m > p.leaf
    ensures NodeSum(p, m) % 0x800 == TableNodes(p, m) % 0x800
  {
    UnitShape(p, m);
    StoredMod(p, m, Unit(p, m));
    ModSum(1, KidsStored(p, m, Unit(p, m)), KidsNodes(p, m, Unit(p, m)));
  }

  /** A tree over m keys has fewer than 2 m nodes. */
  lemma {:induction false} NodesBound(p: Params, m: nat)
    requires ValidParams(p) && m > 0
    ensures TableNodes(p, m) < 2 * m
    decreases m, 1
  {
    if m > p.leaf {
      UnitShape(p, m);
      KidsNodesBound(p, m, Unit(p, m));
    }
  }

  lemma {:induction false} KidsNodesBound(p: Params, m: nat, u: nat)
    requires ValidParams(p) && u > 0 && m > 0
    ensures KidsStored(p, m, u) <= KidsNodes(p, m, u) <= 2 * m - if m > u then 2 else 1
    decreases m, if m > u then 0 else 2
  {
    if m <= u {
      NodesBound(p, m);
    } else {
      NodesBound(p, u);
      KidsNodesBound(p, m - u, u);
    }
  }

  lemma NodeSumBound(p: Params, m: nat)
    requires ValidParams(p) && m > p.leaf
    ensures NodeSum(p, m) < 0x1_0000
  {
    UnitShape(p, m);
    var u := Unit(p, m);
    if m > p.secondary {
      assert Units(m, u) == 1 + Units(m - u, u);
      assert m - u <= u by { UnitsSpec(m - u, u); assert Mul(1, u) == u; }
    } else {
      KidsNodesBound(p, m, u);
    }
  }
}
