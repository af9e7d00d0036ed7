/**
 * For which bucket sizes the Golomb table is right. From leaf size 3 on computeGolombRice panics before it is
 * wrong. With leaf size 2 it goes on, and the sizes are wrong from 2049 keys on, unless the parameter happens to
 * be odd; a reader then starts one bit too early.
 */
module RecSplitLeafTwo {
  import opened Arith
  import opened Words
  import opened SplitTree
  import opened SplitCode
  import opened GolombTable
  import opened RecSplitWalk
  import GolombRice

  /** From leaf size 3 on every size for which the table could be made is right. */
  lemma LargerLeaves(p: Params, m: nat)
    requires ValidParams(p) && p.leaf >= 3 && Fits(p, m)
    ensures Straight(p, m)
  {
    SmallIsStraight(p, m);
  }

  /** Leaf size 2, with the bounds that go with it. */
  ghost predicate LeafTwo(p: Params) { ValidParams(p) && p.leaf == 2 && AggrBounds(2) == (p.primary, p.secondary) }

  lemma LeafTwoBounds(p: Params)
    requires LeafTwo(p)
    ensures p.primary == 4 && p.secondary == 8
  {
    assert Ceil(35 * 2 + 50, 100) == 2;
  }

  lemma {:induction false} EightUnits(m: nat)
    requires m > 8
    ensures HalfRound(m, 8) % 2 == 0 && m <= 2 * HalfRound(m, 8) <= m + 16 && 8 <= HalfRound(m, 8) < m
    ensures HalfRound(m, 8) == (m + 15) / 16 * 8
  {
    if m > 16 {
      if m - 16 > 8 {
        EightUnits(m - 16);
      }
    }
  }

  /** m, or the odd number below. */
  function OddPart(m: nat): nat
    requires m > 0
  {
    if m % 2 == 1 then m else m - 1
  }

  lemma OddSum(m: nat, u: nat)
    requires 0 < u < m && u % 2 == 0
    ensures 1 + OddPart(u) + OddPart(m - u) == OddPart(m)
  {
  }

  lemma NodesOfTwo(p: Params, m: nat, u: nat)
    requires 0 < p.leaf < m && p.primary > 0 && p.secondary > 0 && u == Unit(p, m) && 0 < u < m <= 2 * u
    ensures TableNodes(p, m) == 1 + TableNodes(p, u) + TableNodes(p, m - u)
    ensures Coded(p, m) == 1 + Coded(p, u) + Coded(p, m - u)
  {
    assert KidsNodes(p, m, u) == TableNodes(p, u) + KidsNodes(p, m - u, u);
    assert KidsCoded(p, m, u) == Coded(p, u) + KidsCoded(p, m - u, u);
  }

  lemma UnitOfTwo(p: Params, m: nat)
    requires LeafTwo(p) && m > 2
    ensures var u := Unit(p, m); 0 < u < m <= 2 * u && u % 2 == 0 && (m > 8 ==> u == HalfRound(m, 8))
  {
    LeafTwoBounds(p);
    if m > 8 {
      EightUnits(m);
    }
  }

  /** The nodes of a tree over m keys with leaves of two. */
  lemma {:induction false} LeafTwoNodes(p: Params, m: nat)
    requires LeafTwo(p) && m > 0
    ensures TableNodes(p, m) == OddPart(m)
    decreases m
  {
    if m > 2 {
      var u := Unit(p, m);
      UnitOfTwo(p, m);
      LeafTwoNodes(p, u);
      LeafTwoNodes(p, m - u);
      NodesOfTwo(p, m, u);
      OddSum(m, u);
    }
  }

  lemma OddOr(a: nat)
    ensures BitOr(a, 1) == if a % 2 == 1 then a else a + 1
  {
  }

  lemma HalfAtMost(m: nat)
    requires 8 < m <= 4096
    ensures HalfRound(m, 8) <= 2048
  {
    EightUnits(m);
    assert (m + 15) / 16 <= 256;
  }

  /** Sizes from 2049 to 4096: the two parts. */
  lemma TwoParts(p: Params, m: nat)
    requires LeafTwo(p) && 2048 < m <= 4096
    ensures var u := Unit(p, m);
      0 < u < m <= 2 * u && u <= 2048 && TableNodes(p, u) < 0x800 && TableNodes(p, m - u) < 0x800
    ensures var u := Unit(p, m); 0x800 <= 1 + TableNodes(p, u) + TableNodes(p, m - u) < 0x1000
  {
    var u := Unit(p, m);
    UnitOfTwo(p, m);
    HalfAtMost(m);
    LeafTwoNodes(p, u);
    LeafTwoNodes(p, m - u);
    OddSum(m, u);
  }

  lemma SumOfTwo(p: Params, m: nat, u: nat)
    requires ValidParams(p) && 0 < u < m <= 2 * u && TableNodes(p, u) < 0x800 && TableNodes(p, m - u) < 0x800
    ensures KidsStored(p, m, u) == TableNodes(p, u) + TableNodes(p, m - u)
  {
    assert KidsStored(p, m - u, u) == TableNodes(p, m - u) % 0x800;
  }

  lemma StraightTwo(p: Params, m: nat, u: nat)
    requires ValidParams(p) && 0 < u < m <= 2 * u && TableNodes(p, u) < 0x800 && TableNodes(p, m - u) < 0x800
    ensures Straight(p, u) && Straight(p, m - u) && KidsStraight(p, m, u)
  {
    SmallIsStraight(p, u);
    SmallIsStraight(p, m - u);
    assert KidsStraight(p, m - u, u);
  }

  /** Both are right, and the sum of their nodes carries one bit over. */
  lemma CarriesOne(p: Params, m: nat)
    requires LeafTwo(p) && 2048 < m <= 4096
    ensures Param(p, m) == if p.golomb(m) % 2 == 1 then p.golomb(m) else p.golomb(m) + 1
  {
    TwoParts(p, m);
    SumOfTwo(p, m, Unit(p, m));
    assert NodeSum(p, m) / 0x800 == 1;
    OddOr(p.golomb(m));
  }

  /** Exactly the sizes for which a reader can rely on the table, with leaf size 2. */
  lemma LeafTwoStraight(p: Params, m: nat)
    requires LeafTwo(p)
    ensures Straight(p, m) <==> m <= 2048 || (m <= 4096 && p.golomb(m) % 2 == 1)
  {
    if 0 < m <= 2048 {
      LeafTwoNodes(p, m);
      SmallIsStraight(p, m);
    } else if 2048 < m <= 4096 {
      TwoParts(p, m);
      StraightTwo(p, m, Unit(p, m));
      CarriesOne(p, m);
    } else if m > 4096 {
      EightUnits(m);
      LeafTwoNodes(p, Unit(p, m));
    }
  }

  /** With an even parameter the low parts take one bit more than skipBits says. */
  lemma OneBitMore(p: Params, m: nat)
    requires LeafTwo(p) && 2048 < m <= 4096 && p.golomb(m) % 2 == 0
    ensures FixedBits(p, m) == SkipBits(p, m) + 1
  {
    CarriesOne(p, m);
    TwoParts(p, m);
    StraightTwo(p, m, Unit(p, m));
    KidsStraightExactly(p, m, Unit(p, m));
  }

  /** 3000 keys, for which computeGolombRice's formula gives 6: the entry says 7. */
  lemma ThreeThousand(p: Params, e: nat)
    requires LeafTwo(p) && p.golomb(3000) == 6 && EntryOk(p, e, 3000)
    ensures EntryParam(e) == 7 && EntryNodes(e) == 951 && TableNodes(p, 3000) == 2999
    ensures FixedBits(p, 3000) == EntryBits(e) + 1 && !Straight(p, 3000)
  {
    LeafTwoNodes(p, 3000);
    CarriesOne(p, 3000);
    OneBitMore(p, 3000);
    LeafTwoStraight(p, 3000);
  }

  /** 4097 keys: a key in the second part has the reader skip 7 nodes of 2055. */
  lemma SkipsTooLittle(p: Params, m: nat, e: nat)
    requires LeafTwo(p) && m == 4097 && EntryOk(p, e, Unit(p, m))
    ensures Unit(p, m) == 2056 && TableNodes(p, 2056) == 2055 && EntryNodes(e) == 7
  {
    EightUnits(m);
    LeafTwoNodes(p, 2056);
  }

  // ---- leaf size 1

  /** Leaf size 1, with the bounds that go with it. */
  predicate OneKey(p: Params) { p.leaf == 1 && AggrBounds(1) == (p.primary, p.secondary) }

  lemma UnitOfOne(p: Params, m: nat)
    requires OneKey(p) && m > 1
    ensures p.primary == 2 && p.secondary == 4
    ensures var u := Unit(p, m); 0 < u < m <= 2 * u
  {
    assert Ceil(35 * 1 + 50, 100) == 1;
    HalfRoundSpec(m, 4);
  }

  /**
   * Leaf size 1, which NewRecSplit accepts: the leaves have no code, but the table counts them. For m keys a reader
   * that skips them skips 2m - 1 nodes where m - 1 were written.
   */
  lemma {:induction false} LeafOne(p: Params, m: nat)
    requires OneKey(p) && m > 0
    ensures p.primary == 2 && p.secondary == 4 && TableNodes(p, m) == 2 * m - 1 && Coded(p, m) == m - 1
    decreases m
  {
    assert Ceil(35 * 1 + 50, 100) == 1;
    if m > 1 {
      var u := Unit(p, m);
      UnitOfOne(p, m);
      LeafOne(p, u);
      LeafOne(p, m - u);
      NodesOfTwo(p, m, u);
    }
  }

  // ---- what a reader sees that starts one bit too early

  lemma {:induction false} CombineMore(high: nat, more: nat, data: seq<bool>, f: nat, g: nat)
    requires f + g <= |data|
    ensures Combine(high + more, data, f, g) == Combine(high, data, f, g) + Mul(more, Pow2(g))
    decreases g
  {
    if g > 0 {
      CombineMore(high, more, data, f + 1, g - 1);
      MulTwice(more, Pow2(g - 1));
    } else {
      MulIsProduct(more, 1);
    }
  }

  lemma {:induction false} MulTwice(k: nat, u: nat)
    ensures Mul(k, 2 * u) == 2 * Mul(k, u)
  {
    if k > 0 {
      MulTwice(k - 1, u);
    }
  }

  lemma SmallPower(g: nat)
    requires g <= 31
    ensures Pow2(g) < TWO64
  {
    TwoPower64();
    PowerGrows(g, 63);
    assert Pow2(64) == 2 * Pow2(63);
  }

  lemma {:induction false} PowerGrows(g: nat, k: nat)
    requires g <= k
    ensures Pow2(g) <= Pow2(k)
  {
    if g < k {
      PowerGrows(g, k - 1);
    }
  }

  lemma NoHigh(data: seq<bool>, f: nat, g: nat, d: nat)
    requires d < TWO64 && Here(data, f, ToBits(d, g))
    ensures GolombRice.Joined(0, data, f, g) == d <==> High(d, g) == 0
  {
    HighLow(d, data, f, g);
    CombineMore(0, High(d, g), data, f, g);
    Product(High(d, g), Pow2(g));
    Cut(Combine(0, data, f, g), Mul(High(d, g), Pow2(g)), d);
  }

  lemma HighPlusOne(data: seq<bool>, f: nat, g: nat, d: nat)
    requires d < TWO64 && g <= 31 && Here(data, f, ToBits(d, g))
    ensures GolombRice.Joined(High(d, g) + 1, data, f, g) != d
  {
    SmallPower(g);
    HighLow(d, data, f, g);
    CombineMore(High(d, g), 1, data, f, g);
    assert Mul(1, Pow2(g)) == Pow2(g);
    Wraps(d, Pow2(g));
  }

  /**
   * The salt d is written with its low part at f and its high part at u. A read at u - 1 returns d only if the bit
   * before is set, which ends the unary number at once, and the high part of d is zero.
   */
  lemma StartsEarly(b: Bits, f: nat, u: nat, g: nat, d: nat, rest: Code)
    requires b.Ok() && d < TWO64 && g <= 31 && b.Starts(Join(SaltCode(d, g), rest), f, u) && u > 0
    ensures Ones(b.data, u - 1, |b.data|) > 0 && f + g <= |b.data|
    ensures GolombRice.Joined(NextOne(b.data, u - 1) - (u - 1), b.data, f, g) == d <==> b.data[u - 1] && High(d, g) == 0
  {
    StartsWithSalt(b, f, u, d, g, rest);
    HereConcat(b.data, f, ToBits(d, g), rest.fixed);
    NoHigh(b.data, f, g, d);
    HighPlusOne(b.data, f, g, d);
  }

  lemma Product(h: nat, q: nat)
    requires q > 0
    ensures Mul(h, q) == 0 <==> h == 0
  {
  }

  lemma Cut(c: nat, x: nat, d: nat)
    requires c + x == d < TWO64
    ensures c % TWO64 == d <==> x == 0
  {
  }

  lemma Wraps(d: nat, q: nat)
    requires d < TWO64 && 0 < q < TWO64
    ensures (d + q) % TWO64 != d
  {
  }

  /**
   * The first read of a lookup in a bucket of 2049 to 4096 keys with an even parameter: ReadReset puts it at skipBits,
   * and it gets the salt right only in the case that StartsEarly names.
   */
  lemma RootMisread(b: Bits, p: Params, level: nat, es: seq<Entry>, f: nat)
    requires b.Ok() && LeafTwo(p) && 2048 < |es| <= 4096 && p.golomb(|es|) % 2 == 0 && Solvable(p, level, es)
    requires b.Starts(Encode(p, level, es), f, f + FixedBits(p, |es|))
    ensures var g, d, u := Param(p, |es|), SaltOf(p, level, es), f + SkipBits(p, |es|);
      && u < |b.data| && Ones(b.data, u, |b.data|) > 0 && f + g <= |b.data|
      && (GolombRice.Joined(NextOne(b.data, u) - u, b.data, f, g) == d <==> b.data[u] && High(d, g) == 0)
  {
    OneBitMore(p, |es|);
    ParamBound(p, |es|);
    StartsEarly(b, f, f + FixedBits(p, |es|), Param(p, |es|), SaltOf(p, level, es), EncodeParts(p, level, es, 0));
  }
}
