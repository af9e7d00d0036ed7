/** Index.Lookup's walk: from the bits of one bucket's code back to the position of a
    key's record, reading the salts on the key's path and skipping the subtrees beside it. */
module RecSplitWalk {
  import opened Arith
  import opened Words
  import opened SplitTree
  import opened SplitCode
  import GolombRice

  /** The bits, and the position of the set bit written after all codes, which a read
      for a part without a code runs into. */
  datatype Bits = Bits(data: seq<bool>, sentinel: nat) {
    ghost predicate Ok() { GolombRice.Aligned(data) && sentinel < |data| && data[sentinel] }

    /** A code's low parts start at f and its unary numbers at u. */
    ghost predicate Starts(c: Code, f: nat, u: nat) {
      && f + |c.fixed| <= sentinel && u + |GolombRice.UnaryAll(c.unary)| <= sentinel < |data|
      && Here(data, f, c.fixed) && Here(data, u, GolombRice.UnaryAll(c.unary))
    }
  }

  /** A read with parameter g at f and u returns d. */
  ghost predicate Reads(b: Bits, f: nat, u: nat, g: nat, d: nat) {
    && f < |b.data| && f + g <= |b.data| && u <= |b.data| && Ones(b.data, u, |b.data|) > 0
    && NextOne(b.data, u) == u + High(d, g)
    && GolombRice.Joined(High(d, g), b.data, f, g) == d
  }

  lemma {:induction false} StartsWithSalt(b: Bits, f: nat, u: nat, d: nat, g: nat, rest: Code)
    requires b.Ok() && d < TWO64 && b.Starts(Join(SaltCode(d, g), rest), f, u)
    ensures Reads(b, f, u, g, d) && b.Starts(rest, f + g, u + High(d, g) + 1)
  {
    var us := [High(d, g)] + rest.unary;
    assert us[1..] == rest.unary;
    HereConcat(b.data, f, ToBits(d, g), rest.fixed);
    HereConcat(b.data, u, GolombRice.Unary(High(d, g)), GolombRice.UnaryAll(rest.unary));
    GolombRice.ReadBack(b.data, f, u, d, g);
  }

  lemma {:induction false} StartsWithCode(b: Bits, f: nat, u: nat, first: Code, rest: Code)
    requires b.Starts(Join(first, rest), f, u)
    ensures b.Starts(first, f, u) && u <= |b.data| && |first.unary| <= Ones(b.data, u, |b.data|)
    ensures b.Starts(rest, f + |first.fixed|, PastOnes(b.data, u, |first.unary|))
  {
    GolombRice.UnaryAllConcat(first.unary, rest.unary);
    HereConcat(b.data, f, first.fixed, rest.fixed);
    HereConcat(b.data, u, GolombRice.UnaryAll(first.unary), GolombRice.UnaryAll(rest.unary));
    GolombRice.PastUnaryAll(b.data, u, first.unary);
  }

  lemma {:induction false} ReadsLeaf(b: Bits, f: nat, u: nat, p: Params, level: nat, es: seq<Entry>)
    requires b.Ok() && ValidParams(p) && Solvable(p, level, es) && |es| <= p.leaf
    requires b.Starts(Encode(p, level, es), f, u)
    ensures Reads(b, f, u, Param(p, |es|), SaltOf(p, level, es))
  {
    var own := SaltCode(SaltOf(p, level, es), Param(p, |es|));
    assert Join(own, Code([], [])) == own;
    StartsWithSalt(b, f, u, SaltOf(p, level, es), Param(p, |es|), Code([], []));
  }

  /** Reading the salt of a split moves the cursors to its parts. */
  lemma {:induction false} ReadsSplit(b: Bits, f: nat, u: nat, p: Params, level: nat, es: seq<Entry>)
    requires b.Ok() && ValidParams(p) && Solvable(p, level, es) && |es| > p.leaf && b.Starts(Encode(p, level, es), f, u)
    ensures var g, d := Param(p, |es|), SaltOf(p, level, es);
      Reads(b, f, u, g, d) && b.Starts(EncodeParts(p, level, es, 0), f + g, u + High(d, g) + 1)
  {
    StartsWithSalt(b, f, u, SaltOf(p, level, es), Param(p, |es|), EncodeParts(p, level, es, 0));
  }

  /** The reader skips whole parts only. */
  lemma UnitWhole(p: Params, m: nat)
    requires ValidParams(p) && m > p.leaf
    ensures 1 < Unit(p, m) && Whole(p, Unit(p, m))
  {
    UnitShape(p, m);
  }

  /** The code of the parts before part j, which are whole. */
  lemma {:induction false} FirstParts(p: Params, level: nat, es: seq<Entry>, j: nat) returns (first: Code)
    requires ValidParams(p) && Solvable(p, level, es) && |es| > p.leaf && j < NodeBy(p, level, es).Parts()
    ensures EncodeParts(p, level, es, 0) == Join(first, EncodeParts(p, level, es, j))
    ensures |first.fixed| == Mul(j, FixedBits(p, Unit(p, |es|)))
    ensures |first.unary| == Mul(j, TableNodes(p, Unit(p, |es|)))
    decreases j
  {
    if j == 0 {
      first := Code([], []);
      assert Join(first, EncodeParts(p, level, es, 0)) == EncodeParts(p, level, es, 0);
    } else {
      var before := FirstParts(p, level, es, j - 1);
      var own := WholePartCode(p, level, es, j - 1);
      JoinAssociative(before, own, EncodeParts(p, level, es, j));
      first := Join(before, own);
    }
  }

  lemma {:induction false} WholePartCode(p: Params, level: nat, es: seq<Entry>, i: nat) returns (own: Code)
    requires ValidParams(p) && Solvable(p, level, es) && |es| > p.leaf && i + 1 < NodeBy(p, level, es).Parts()
    ensures EncodeParts(p, level, es, i) == Join(own, EncodeParts(p, level, es, i + 1))
    ensures |own.fixed| == FixedBits(p, Unit(p, |es|)) && |own.unary| == TableNodes(p, Unit(p, |es|))
  {
    var x := NodeBy(p, level, es);
    SplitParts(p, level, es, i);
    UnitWhole(p, |es|);
    PartEnd(x, i);
    own := PartCode(p, level + 1, Part(x, es, i));
    CodeSize(p, level + 1, Part(x, es, i));
    WholeNodes(p, Unit(p, |es|));
  }

  lemma JoinAssociative(a: Code, b: Code, c: Code)
    ensures Join(a, Join(b, c)) == Join(Join(a, b), c)
  {
    assert a.fixed + (b.fixed + c.fixed) == a.fixed + b.fixed + c.fixed;
    assert a.unary + (b.unary + c.unary) == a.unary + b.unary + c.unary;
  }

  /** Skipping j whole parts at once, as SkipSubtree does, leads the cursors to part j. */
  lemma {:induction false} SkipParts(b: Bits, f: nat, u: nat, p: Params, level: nat, es: seq<Entry>, j: nat, bits: nat,
                                     nodes: nat)
    requires ValidParams(p) && Solvable(p, level, es) && |es| > p.leaf && j < NodeBy(p, level, es).Parts()
    requires b.Starts(EncodeParts(p, level, es, 0), f, u)
    requires bits == Mul(j, FixedBits(p, Unit(p, |es|))) && nodes == Mul(j, TableNodes(p, Unit(p, |es|)))
    ensures u <= |b.data| && nodes <= Ones(b.data, u, |b.data|)
    ensures SolvablePart(p, level + 1, Part(NodeBy(p, level, es), es, j))
    ensures b.Starts(PartCode(p, level + 1, Part(NodeBy(p, level, es), es, j)), f + bits, PastOnes(b.data, u, nodes))
  {
    var first := FirstParts(p, level, es, j);
    StartsWithCode(b, f, u, first, EncodeParts(p, level, es, j));
    SplitParts(p, level, es, j);
    StartsWithCode(b, f + bits, PastOnes(b.data, u, nodes), PartCode(p, level + 1, Part(NodeBy(p, level, es), es, j)),
                   EncodeParts(p, level, es, j + 1));
  }

  /** A read for a part without a code finds the set bit after all codes. */
  lemma ReadsAnything(b: Bits, u: nat)
    requires b.Ok() && u <= b.sentinel
    ensures Ones(b.data, u, |b.data|) > 0
  {
    NoOnes(b.data, u, |b.data|);
  }

  lemma NodesPositive(p: Params, unit: nat)
    requires ValidParams(p) && unit > 0
    ensures TableNodes(p, unit) > 0
  {
    if unit > p.leaf {
      UnitShape(p, unit);
    }
  }

  // ---- where a walk stands

  /** The cursors, and the keys still possible, whose records start at base. */
  datatype Stand = Stand(f: nat, u: nat, level: nat, es: seq<Entry>, base: nat)

  ghost predicate Standing(b: Bits, p: Params, s: Stand, recs: seq<nat>)
    requires ValidParams(p)
  {
    && s.level < |p.seeds| && SolvablePart(p, s.level, s.es) && PlacedPart(p, s.level, s.es, recs, s.base)
    && b.Starts(PartCode(p, s.level, s.es), s.f, s.u)
  }

  /** Entry q of the keys still possible, in the part that its key is sent to. */
  lemma {:induction false} KidOf(p: Params, level: nat, es: seq<Entry>, q: nat) returns (j: nat, r: nat)
    requires ValidParams(p) && Solvable(p, level, es) && |es| > p.leaf && q < |es|
    ensures j < NodeBy(p, level, es).Parts()
    ensures j == Div(Slot(p, level, SaltOf(p, level, es), |es|, es[q].fp), Unit(p, |es|))
    ensures r < |Part(NodeBy(p, level, es), es, j)| && Part(NodeBy(p, level, es), es, j)[r] == es[q]
  {
    var x := NodeBy(p, level, es);
    j := x.PartOf(es[q].fp);
    r := PartHas(x, es, q);
  }

  lemma {:induction false} NextLevel(p: Params, level: nat, es: seq<Entry>)
    requires ValidParams(p) && Solvable(p, level, es) && |es| > p.leaf
    ensures level + 1 < |p.seeds|
  {
    UnitShape(p, |es|);
    SplitParts(p, level, es, 0);
    assert Mul(0, Unit(p, |es|)) == 0;
  }

  lemma {:induction false} PlacedKid(p: Params, level: nat, es: seq<Entry>, recs: seq<nat>, base: nat, j: nat)
    requires ValidParams(p) && Solvable(p, level, es) && |es| > p.leaf && Placed(p, level, es, recs, base)
    requires j < NodeBy(p, level, es).Parts()
    ensures SolvablePart(p, level + 1, Part(NodeBy(p, level, es), es, j))
    ensures PlacedPart(p, level + 1, Part(NodeBy(p, level, es), es, j), recs, base + Mul(j, Unit(p, |es|)))
  {
    assert PlacedAt(p, level, es, recs, base, j);
    PlacedByPart(p, level, es, recs, base, j);
  }

  /** From the parts of a split, skipping j whole parts leads to part j. */
  lemma {:induction false} Descend(b: Bits, p: Params, s: Stand, f: nat, u: nat, recs: seq<nat>, j: nat, bits: nat,
                                   nodes: nat)
      returns (t: Stand)
    requires ValidParams(p) && Solvable(p, s.level, s.es) && |s.es| > p.leaf && Placed(p, s.level, s.es, recs, s.base)
    requires b.Starts(EncodeParts(p, s.level, s.es, 0), f, u) && j < NodeBy(p, s.level, s.es).Parts()
    requires bits == Mul(j, FixedBits(p, Unit(p, |s.es|))) && nodes == Mul(j, TableNodes(p, Unit(p, |s.es|)))
    ensures u <= |b.data| && nodes <= Ones(b.data, u, |b.data|)
    ensures t == Stand(f + bits, PastOnes(b.data, u, nodes), s.level + 1, Part(NodeBy(p, s.level, s.es), s.es, j),
        s.base + Mul(j, Unit(p, |s.es|)))
    ensures Standing(b, p, t, recs)
  {
    NextLevel(p, s.level, s.es);
    SkipParts(b, f, u, p, s.level, s.es, j, bits, nodes);
    PlacedKid(p, s.level, s.es, recs, s.base, j);
    t := Stand(f + bits, PastOnes(b.data, u, nodes), s.level + 1, Part(NodeBy(p, s.level, s.es), s.es, j),
        s.base + Mul(j, Unit(p, |s.es|)));
  }
}
