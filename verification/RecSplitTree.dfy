/** recsplit itself: the recursion over a bucket, in place on the bucket's slices. */
module RecSplitTree {
  import opened Arith
  import opened Sums
  import opened Words
  import opened SplitTree
  import opened SplitCode
  import opened GolombTable
  import opened RecSplitBuild
  import GolombRice

  /** What has been written: unary numbers, low parts, records. */
  datatype Out = Out(unary: seq<nat>, fixed: seq<bool>, recs: seq<nat>)

  /** Between outputs a and b the code c and n records have been written. */
  ghost predicate Wrote(a: Out, b: Out, c: Code, n: nat) {
    && b.unary == a.unary + c.unary && b.fixed == a.fixed + c.fixed
    && a.recs <= b.recs && |b.recs| == |a.recs| + n
  }

  /** Between outputs a and b the tree of es has been written. */
  ghost predicate TreeWritten(p: Params, level: nat, es: seq<Entry>, a: Out, b: Out)
    requires ValidParams(p) && Solvable(p, level, es)
  {
    Wrote(a, b, Encode(p, level, es), |es|) && Placed(p, level, es, b.recs, |a.recs|)
  }

  ghost predicate PartWritten(p: Params, level: nat, part: seq<Entry>, a: Out, b: Out)
    requires ValidParams(p) && SolvablePart(p, level, part)
  {
    Wrote(a, b, PartCode(p, level, part), |part|) && PlacedPart(p, level, part, b.recs, |a.recs|)
  }

  /** The parts before part j have been placed from base on. */
  ghost predicate PlacedUpTo(p: Params, level: nat, es: seq<Entry>, recs: seq<nat>, base: nat, j: nat)
    requires ValidParams(p) && Solvable(p, level, es) && |es| > p.leaf
  {
    forall i :: 0 <= i < j && i < NodeBy(p, level, es).Parts() ==> PlacedAt(p, level, es, recs, base, i)
  }

  /** Between outputs a and b the parts before part j have been written, from base on. */
  ghost predicate Progress(p: Params, level: nat, es: seq<Entry>, j: nat, a: Out, b: Out)
    requires ValidParams(p) && Solvable(p, level, es) && |es| > p.leaf
  {
    && b.unary + EncodeParts(p, level, es, j).unary == a.unary + EncodeParts(p, level, es, 0).unary
    && b.fixed + EncodeParts(p, level, es, j).fixed == a.fixed + EncodeParts(p, level, es, 0).fixed
    && a.recs <= b.recs
    && |b.recs| == |a.recs| + (if j < NodeBy(p, level, es).Parts() then Mul(j, Unit(p, |es|)) else |es|)
    && PlacedUpTo(p, level, es, b.recs, |a.recs|, j)
  }

  /** Records that are in place stay in place when more are written. */
  lemma {:induction false} PlacedGrows(p: Params, level: nat, es: seq<Entry>, recs: seq<nat>, more: seq<nat>, base: nat)
    requires ValidParams(p) && Solvable(p, level, es) && Placed(p, level, es, recs, base) && recs <= more
    ensures Placed(p, level, es, more, base)
    decreases |es|, 1
  {
    if |es| > p.leaf {
      forall j | 0 <= j < NodeBy(p, level, es).Parts() ensures PlacedAt(p, level, es, more, base, j) {
        assert PlacedAt(p, level, es, recs, base, j);
        PlacedAtGrows(p, level, es, recs, more, base, j);
      }
    }
  }

  lemma {:induction false} PlacedAtGrows(p: Params, level: nat, es: seq<Entry>, recs: seq<nat>, more: seq<nat>,
                                         base: nat, j: nat)
    requires ValidParams(p) && Solvable(p, level, es) && |es| > p.leaf && j < NodeBy(p, level, es).Parts()
    requires PlacedAt(p, level, es, recs, base, j) && recs <= more
    ensures PlacedAt(p, level, es, more, base, j)
    decreases |es|, 0
  {
    SplitParts(p, level, es, j);
    PlacedByPart(p, level, es, recs, base, j);
    PlacedByPart(p, level, es, more, base, j);
    var part := Part(NodeBy(p, level, es), es, j);
    if |part| > 1 {
      PlacedGrows(p, level + 1, part, recs, more, base + Mul(j, Unit(p, |es|)));
    }
  }

  lemma ProgressStart(p: Params, level: nat, es: seq<Entry>, a: Out)
    requires ValidParams(p) && Solvable(p, level, es) && |es| > p.leaf
    ensures NodeBy(p, level, es).Parts() > 0 && Progress(p, level, es, 0, a, a)
  {
    UnitShape(p, |es|);
  }

  /** The size of part j, which is at position i, and whether it is the last. */
  lemma PartAt(p: Params, level: nat, es: seq<Entry>, x: Node, j: nat, i: nat)
    requires ValidParams(p) && Solvable(p, level, es) && |es| > p.leaf && x == NodeBy(p, level, es) && j < x.Parts()
    requires i == Mul(j, x.u)
    ensures i < |es| && |Part(x, es, j)| == (if i + x.u < |es| then x.u else |es| - i) < |es| && |Part(x, es, j)| <= x.u
    ensures (i + x.u < |es| <==> j + 1 < x.Parts()) && Mul(j + 1, x.u) == i + x.u
  {
    PartEnd(x, j);
    PartSmaller(p, level, es, j);
    PartSizes(x, es, j);
  }

  lemma ProgressNext(p: Params, level: nat, es: seq<Entry>, j: nat, a: Out, b: Out, c: Out)
    requires ValidParams(p) && Solvable(p, level, es) && |es| > p.leaf && j < NodeBy(p, level, es).Parts()
    requires Progress(p, level, es, j, a, b)
    requires SolvablePart(p, level + 1, Part(NodeBy(p, level, es), es, j))
    requires PartWritten(p, level + 1, Part(NodeBy(p, level, es), es, j), b, c)
    ensures Progress(p, level, es, j + 1, a, c)
  {
    var x := NodeBy(p, level, es);
    SplitParts(p, level, es, j);
    PartEnd(x, j);
    Regroup(b.unary, PartCode(p, level + 1, Part(x, es, j)).unary, EncodeParts(p, level, es, j + 1).unary);
    Regroup(b.fixed, PartCode(p, level + 1, Part(x, es, j)).fixed, EncodeParts(p, level, es, j + 1).fixed);
    PlacedUpToNext(p, level, es, j, b.recs, c.recs, |a.recs|);
  }

  lemma PlacedUpToNext(p: Params, level: nat, es: seq<Entry>, j: nat, recs: seq<nat>, more: seq<nat>, base: nat)
    requires ValidParams(p) && Solvable(p, level, es) && |es| > p.leaf && j < NodeBy(p, level, es).Parts()
    requires PlacedUpTo(p, level, es, recs, base, j) && recs <= more && |recs| == base + Mul(j, Unit(p, |es|))
    requires SolvablePart(p, level + 1, Part(NodeBy(p, level, es), es, j))
    requires PlacedPart(p, level + 1, Part(NodeBy(p, level, es), es, j), more, |recs|)
    ensures PlacedUpTo(p, level, es, more, base, j + 1)
  {
    forall i | 0 <= i < j + 1 && i < NodeBy(p, level, es).Parts() ensures PlacedAt(p, level, es, more, base, i) {
      if i < j {
        PlacedAtGrows(p, level, es, recs, more, base, i);
      } else {
        PlacedByPart(p, level, es, more, base, j);
      }
    }
  }

  lemma SplitWritten(p: Params, level: nat, es: seq<Entry>, a: Out, b: Out, c: Out)
    requires ValidParams(p) && Solvable(p, level, es) && |es| > p.leaf
    requires Wrote(a, b, SaltCode(SaltOf(p, level, es), Param(p, |es|)), 0)
    requires Progress(p, level, es, NodeBy(p, level, es).Parts(), b, c)
    ensures TreeWritten(p, level, es, a, c)
  {
    assert b.recs == a.recs;
    var own, rest := SaltCode(SaltOf(p, level, es), Param(p, |es|)), EncodeParts(p, level, es, 0);
    assert c.unary + [] == c.unary && c.fixed + [] == c.fixed;
    Regroup(a.unary, own.unary, rest.unary);
    Regroup(a.fixed, own.fixed, rest.fixed);
  }

  lemma LeafWritten(p: Params, level: nat, es: seq<Entry>, a: Out, b: Out, c: Out)
    requires ValidParams(p) && Solvable(p, level, es) && |es| <= p.leaf
    requires Wrote(a, b, Code([], []), |es|) && Wrote(b, c, SaltCode(SaltOf(p, level, es), Param(p, |es|)), 0)
    requires forall i :: 0 <= i < |es| ==>
        b.recs[|a.recs| + Slot(p, level, SaltOf(p, level, es), |es|, es[i].fp)] == es[i].off
    ensures TreeWritten(p, level, es, a, c)
  {
    assert c.recs == b.recs;
  }

  // ---- the slices

  /** now differs from was at most between lo and hi. */
  ghost predicate Outside(was: seq<nat>, now: seq<nat>, lo: nat, hi: nat) {
    |was| == |now| && forall k :: 0 <= k < |was| && !(lo <= k < hi) ==> now[k] == was[k]
  }

  /** The parts from part j on are in place in the slices. */
  ghost predicate FilledFrom(x: Node, es: seq<Entry>, keys: seq<nat>, offs: seq<nat>, lo: nat, j: nat)
    requires x.Ok()
  {
    forall i :: j <= i < x.Parts() ==> HoldsAt(Part(x, es, i), keys, offs, lo + Mul(i, x.u))
  }

  /** Work on part j leaves the later parts alone. */
  lemma {:induction false} FilledRest(x: Node, es: seq<Entry>, keys: seq<nat>, offs: seq<nat>, keys': seq<nat>,
                                      offs': seq<nat>, lo: nat, j: nat)
    requires x.Ok() && x.m == |es| && Balanced(x, es) && j < x.Parts() && FilledFrom(x, es, keys, offs, lo, j)
    requires var from, n := lo + Mul(j, x.u), |Part(x, es, j)|;
      Outside(keys, keys', from, from + n) && Outside(offs, offs', from, from + n)
    ensures FilledFrom(x, es, keys', offs', lo, j + 1)
  {
    forall i | j + 1 <= i < x.Parts() ensures HoldsAt(Part(x, es, i), keys', offs', lo + Mul(i, x.u)) {
      assert HoldsAt(Part(x, es, i), keys, offs, lo + Mul(i, x.u));
      LaterPart(x, es, j, i);
      HoldsElsewhere(Part(x, es, i), keys, offs, keys', offs', lo + Mul(i, x.u), lo + Mul(j, x.u),
          lo + Mul(j, x.u) + |Part(x, es, j)|);
    }
  }

  lemma {:induction false} LaterPart(x: Node, es: seq<Entry>, j: nat, i: nat)
    requires x.Ok() && x.m == |es| && Balanced(x, es) && j < i < x.Parts()
    ensures Mul(j, x.u) + |Part(x, es, j)| <= Mul(i, x.u)
  {
    PartSizes(x, es, j);
    MulMonotonic(j, i, x.u);
  }

  lemma {:induction false} HoldsElsewhere(es: seq<Entry>, keys: seq<nat>, offs: seq<nat>, keys': seq<nat>,
                                          offs': seq<nat>, at: nat, lo: nat, hi: nat)
    requires HoldsAt(es, keys, offs, at) && Outside(keys, keys', lo, hi) && Outside(offs, offs', lo, hi) && hi <= at
    ensures HoldsAt(es, keys', offs', at)
  {
  }

  /** What the scratch buffers hold is in the slices once it is copied there. */
  lemma {:induction false} FilledCopied(x: Node, es: seq<Entry>, buf: seq<nat>, offBuf: seq<nat>, keys: seq<nat>,
                                        offs: seq<nat>, lo: nat)
    requires x.Ok() && Filled(x, es, buf, offBuf, 0) && |keys| == |offs| && lo + |buf| <= |keys| && |buf| == |offBuf|
    requires forall k :: 0 <= k < |buf| ==> buf[k] == keys[lo + k] && offBuf[k] == offs[lo + k]
    ensures FilledFrom(x, es, keys, offs, lo, 0)
  {
    forall i | 0 <= i < x.Parts() ensures HoldsAt(Part(x, es, i), keys, offs, lo + Mul(i, x.u)) {
      assert HoldsAt(Part(x, es, i), buf, offBuf, 0 + Mul(i, x.u));
      HoldsMoved(Part(x, es, i), buf, offBuf, keys, offs, Mul(i, x.u), lo);
    }
  }

  lemma {:induction false} HoldsMoved(es: seq<Entry>, buf: seq<nat>, offBuf: seq<nat>, keys: seq<nat>, offs: seq<nat>,
                                      at: nat, lo: nat)
    requires HoldsAt(es, buf, offBuf, at) && |keys| == |offs| && lo + |buf| <= |keys| && |buf| == |offBuf|
    requires forall k :: 0 <= k < |buf| ==> buf[k] == keys[lo + k] && offBuf[k] == offs[lo + k]
    ensures HoldsAt(es, keys, offs, lo + at)
  {
    forall i | 0 <= i < |es| ensures keys[lo + at + i] == es[i].fp && offs[lo + at + i] == es[i].off {
      assert buf[at + i] == keys[lo + (at + i)] && offBuf[at + i] == offs[lo + (at + i)];
    }
  }

  lemma HoldsSlices(es: seq<Entry>, keys: seq<nat>, offs: seq<nat>, lo: nat)
    requires HoldsAt(es, keys, offs, lo)
    ensures Holds(es, keys[lo..lo + |es|], offs[lo..lo + |es|])
  {
  }

  lemma FitsBelow(p: Params, n: nat, m: nat)
    requires ValidParams(p) && FitsUpTo(p, n) && m <= n
    ensures FitsUpTo(p, m)
  {
  }

  /** copy(a[lo:hi], b). */
  method Copy(a: array<nat>, lo: nat, hi: nat, b: array<nat>)
    requires lo <= hi <= a.Length && hi - lo <= b.Length && a != b
    modifies a
    ensures Outside(old(a[..]), a[..], lo, hi) && forall k :: 0 <= k < hi - lo ==> b[k] == a[lo + k]
  {
    for i := 0 to hi - lo
      invariant Outside(old(a[..]), a[..], lo, hi) && forall k :: 0 <= k < i ==> b[k] == a[lo + k]
    {
      a[lo + i] := b[i];
    }
  }

  class Builder {
    const p: Params
    ghost const maxSize: nat
    const gr: GolombRice.Builder
    const count: array<nat>
    var buffer: array<nat>
    var offsetBuffer: array<nat>
    var table: seq<nat>
    var index: seq<nat>

    ghost predicate Valid()
      reads this, gr
    {
      && ValidParams(p) && FitsUpTo(p, maxSize) && maxSize < 0xFFFF
      && gr.Valid() && TableOk(p, table) && |table| <= maxSize + 1
      && count.Length == p.secondary && buffer.Length == offsetBuffer.Length
      && buffer != offsetBuffer && buffer != count && offsetBuffer != count
    }

    constructor (p: Params, ghost maxSize: nat)
      requires ValidParams(p) && FitsUpTo(p, maxSize) && maxSize < 0xFFFF
      ensures Valid() && this.p == p && this.maxSize == maxSize && gr.Contents() == [] && table == [] && index == []
      ensures fresh(gr) && fresh(count) && fresh(buffer) && fresh(offsetBuffer)
    {
      this.p := p;
      this.maxSize := maxSize;
      gr := new GolombRice.Builder();
      count := new nat[p.secondary](i => 0);
      buffer := new nat[0];
      offsetBuffer := new nat[0];
      table := [];
      index := [];
    }

    ghost function Written(unary: seq<nat>): Out
      reads this, gr
      requires gr.Valid()
    {
      Out(unary, gr.Contents(), index)
    }

    /** The slices are apart from the scratch buffers, which are large enough. */
    ghost predicate Scratch(bucket: array<nat>, offsets: array<nat>, m: int)
      reads this
    {
      && bucket.Length == offsets.Length && 0 <= m <= buffer.Length
      && bucket != offsets && bucket != buffer && bucket != offsetBuffer && bucket != count
      && offsets != buffer && offsets != offsetBuffer && offsets != count
    }

    /** Encode a salt with the parameter of its set size: the low part into the bit
        string, the high part onto the list of unary numbers. */
    method AppendSalt(m: nat, salt: nat, unary: seq<nat>) returns (r: seq<nat>)
      requires Valid() && m <= maxSize
      modifies this`table, gr
      ensures Valid() && old(table) <= table && m < |table|
      ensures Wrote(old(Written(unary)), Written(r), SaltCode(salt, Param(p, m)), 0)
    {
      var log2golomb;
      FitsBelow(p, maxSize, m);
      table, log2golomb := GolombParam(p, table, m);
      gr.AppendFixed(salt, log2golomb);
      r := unary + [High(salt, log2golomb)];
    }

    /** Write a leaf's offsets in slot order. */
    method WriteLeaf(level: nat, salt: nat, keys: seq<nat>, offs: seq<nat>, ghost es: seq<Entry>)
      requires Valid() && level < |p.seeds| && 0 < |es| <= offsetBuffer.Length
      requires Holds(es, keys, offs) && Bijective(p, level, salt, es)
      modifies this`index, offsetBuffer
      ensures old(index) <= index && |index| == |old(index)| + |es|
      ensures forall i :: 0 <= i < |es| ==> index[|old(index)| + Slot(p, level, salt, |es|, es[i].fp)] == es[i].off
    {
      var m := |keys|;
      for i := 0 to m
        invariant index == old(index) && offsetBuffer == old(offsetBuffer)
        invariant forall k :: 0 <= k < i ==> offsetBuffer[Slot(p, level, salt, m, es[k].fp)] == es[k].off
      {
        var j := Slot(p, level, salt, m, keys[i]);
        offsetBuffer[j] := offs[i];
      }
      index := index + offsetBuffer[..m];
    }

    /** recsplit on bucket[lo..hi]: appends the code of the entries' tree to the bit
        string and the unary list, and their records to the index. */
    method Recsplit(level: nat, bucket: array<nat>, offsets: array<nat>, lo: nat, hi: nat, unary: seq<nat>,
                    ghost es: seq<Entry>) returns (r: seq<nat>)
      requires Valid() && Scratch(bucket, offsets, hi - lo) && hi <= bucket.Length
      requires |es| == hi - lo <= maxSize && HoldsAt(es, bucket[..], offsets[..], lo) && Solvable(p, level, es)
      modifies this`table, this`index, gr, bucket, offsets, count, buffer, offsetBuffer
      ensures Valid() && old(table) <= table && |es| < |table|
      ensures Outside(old(bucket[..]), bucket[..], lo, hi) && Outside(old(offsets[..]), offsets[..], lo, hi)
      ensures TreeWritten(p, level, es, old(Written(unary)), Written(r))
      decreases |es|, 2
    {
      if hi - lo <= p.leaf {
        HoldsSlices(es, bucket[..], offsets[..], lo);
        r := RecsplitLeaf(level, bucket[lo..hi], offsets[lo..hi], unary, es);
      } else {
        ghost var a := Written(unary);
        var fanout, unit := Shape(p, hi - lo);
        ghost var x := NodeBy(p, level, es);
        var salt := Reorder(level, bucket, offsets, lo, hi, fanout, unit, es);
        r := AppendSalt(hi - lo, salt, unary);
        ghost var b := Written(r);
        r := RecsplitParts(level, bucket, offsets, lo, hi, unit, r, es, x);
        SplitWritten(p, level, es, a, b, Written(r));
      }
    }

    method RecsplitLeaf(level: nat, keys: seq<nat>, offs: seq<nat>, unary: seq<nat>, ghost es: seq<Entry>)
        returns (r: seq<nat>)
      requires Valid() && Holds(es, keys, offs) && |es| <= offsetBuffer.Length
      requires Solvable(p, level, es) && |es| <= p.leaf && |es| <= maxSize
      modifies this`table, this`index, gr, offsetBuffer
      ensures Valid() && old(table) <= table && |es| < |table|
      ensures TreeWritten(p, level, es, old(Written(unary)), Written(r))
    {
      ghost var a := Written(unary);
      var salt := FindBijection(p, level, keys, es);
      WriteLeaf(level, salt, keys, offs, es);
      ghost var b := Written(unary);
      r := AppendSalt(|keys|, salt, unary);
      LeafWritten(p, level, es, a, b, Written(r));
    }

    /** Search the salt of a split and permute the slices into part order. */
    method Reorder(level: nat, bucket: array<nat>, offsets: array<nat>, lo: nat, hi: nat, fanout: nat, unit: nat,
                   ghost es: seq<Entry>) returns (salt: nat)
      requires Valid() && Scratch(bucket, offsets, hi - lo) && hi <= bucket.Length
      requires |es| == hi - lo <= maxSize && HoldsAt(es, bucket[..], offsets[..], lo) && Solvable(p, level, es)
      requires p.leaf < |es|
      requires unit == Unit(p, |es|) && 2 <= unit < |es| && fanout == Units(|es|, unit) && 2 <= fanout <= p.secondary
      modifies bucket, offsets, count, buffer, offsetBuffer
      ensures Outside(old(bucket[..]), bucket[..], lo, hi) && Outside(old(offsets[..]), offsets[..], lo, hi)
      ensures FilledFrom(NodeBy(p, level, es), es, bucket[..], offsets[..], lo, 0)
      ensures salt == SaltOf(p, level, es)
    {
      HoldsSlices(es, bucket[..], offsets[..], lo);
      salt := FindBalance(p, level, bucket[lo..hi], count, es);
      ghost var x := NodeBy(p, level, es);
      DealOut(NodeOf(p, level, salt, hi - lo), fanout, unit, bucket[lo..hi], offsets[lo..hi], count, buffer,
          offsetBuffer, es);
      Copy(bucket, lo, hi, buffer);
      Copy(offsets, lo, hi, offsetBuffer);
      FilledCopied(x, es, buffer[..hi - lo], offsetBuffer[..hi - lo], bucket[..], offsets[..], lo);
    }

    /** The recursive call on part j, which is at position i and has n > 1 keys. */
    method OnePart(level: nat, bucket: array<nat>, offsets: array<nat>, lo: nat, i: nat, n: nat, unary: seq<nat>,
                   ghost a: Out, ghost es: seq<Entry>, ghost x: Node, ghost j: nat) returns (r: seq<nat>)
      requires Valid() && Scratch(bucket, offsets, |es|) && lo + |es| <= bucket.Length
      requires |es| <= maxSize && Solvable(p, level, es) && p.leaf < |es|
      requires x == NodeBy(p, level, es) && j < x.Parts() && i == Mul(j, x.u) && 1 < n == |Part(x, es, j)| < |es|
      requires i + n <= |es|
      requires FilledFrom(x, es, bucket[..], offsets[..], lo, j)
      requires Progress(p, level, es, j, a, Written(unary))
      modifies this`table, this`index, gr, bucket, offsets, count, buffer, offsetBuffer
      ensures Valid() && old(table) <= table
      ensures Outside(old(bucket[..]), bucket[..], lo, lo + |es|)
      ensures Outside(old(offsets[..]), offsets[..], lo, lo + |es|)
      ensures FilledFrom(x, es, bucket[..], offsets[..], lo, j + 1)
      ensures Progress(p, level, es, j + 1, a, Written(r))
      decreases |es|, 0, 0
    {
      ghost var part := Part(x, es, j);
      SplitParts(p, level, es, j);
      r := Recsplit(level + 1, bucket, offsets, lo + i, lo + i + n, unary, part);
      ProgressNext(p, level, es, j, a, old(Written(unary)), Written(r));
      FilledRest(x, es, old(bucket[..]), old(offsets[..]), bucket[..], offsets[..], lo, j);
    }

    /** A last part of one key: its offset is the record. */
    method SinglePart(level: nat, bucket: array<nat>, offsets: array<nat>, lo: nat, i: nat, unary: seq<nat>,
                      ghost a: Out, ghost es: seq<Entry>, ghost x: Node, ghost j: nat) returns (r: seq<nat>)
      requires Valid() && Scratch(bucket, offsets, |es|) && lo + |es| <= bucket.Length
      requires Solvable(p, level, es) && p.leaf < |es|
      requires x == NodeBy(p, level, es) && j < x.Parts() && i == Mul(j, x.u) && 1 == |Part(x, es, j)| && i < |es|
      requires FilledFrom(x, es, bucket[..], offsets[..], lo, j)
      requires Progress(p, level, es, j, a, Written(unary))
      modifies this`index
      ensures Valid() && Progress(p, level, es, j + 1, a, Written(r))
    {
      assert HoldsAt(Part(x, es, j), bucket[..], offsets[..], lo + i);
      SplitParts(p, level, es, j);
      assert offsets[..][lo + i] == offsets[lo + i];
      index := index + [offsets[lo + i]];
      r := unary;
      ProgressNext(p, level, es, j, a, old(Written(unary)), Written(r));
    }

    /** The recursive calls on the parts of a permuted slice. */
    method RecsplitParts(level: nat, bucket: array<nat>, offsets: array<nat>, lo: nat, hi: nat, unit: nat,
                         unary: seq<nat>,
                         ghost es: seq<Entry>, ghost x: Node) returns (r: seq<nat>)
      requires Valid() && Scratch(bucket, offsets, hi - lo) && hi <= bucket.Length
      requires |es| == hi - lo <= maxSize && Solvable(p, level, es) && p.leaf < |es|
      requires x == NodeBy(p, level, es) && x.u == unit && 2 <= unit
      requires FilledFrom(x, es, bucket[..], offsets[..], lo, 0)
      modifies this`table, this`index, gr, bucket, offsets, count, buffer, offsetBuffer
      ensures Valid() && old(table) <= table
      ensures Outside(old(bucket[..]), bucket[..], lo, hi) && Outside(old(offsets[..]), offsets[..], lo, hi)
      ensures Progress(p, level, es, x.Parts(), old(Written(unary)), Written(r))
      decreases |es|, 1
    {
      var i; ghost var j;
      r, i, j := FirstParts(level, bucket, offsets, lo, hi, unit, unary, es, x);
      r, j := LastPart(level, bucket, offsets, lo, hi, i, r, old(Written(unary)), es, x, j);
    }

    /** All parts but the last. */
    method FirstParts(level: nat, bucket: array<nat>, offsets: array<nat>, lo: nat, hi: nat, unit: nat, unary: seq<nat>,
                      ghost es: seq<Entry>, ghost x: Node) returns (r: seq<nat>, i: nat, ghost j: nat)
      requires Valid() && Scratch(bucket, offsets, hi - lo) && hi <= bucket.Length
      requires |es| == hi - lo <= maxSize && Solvable(p, level, es) && p.leaf < |es|
      requires x == NodeBy(p, level, es) && x.u == unit && 2 <= unit
      requires FilledFrom(x, es, bucket[..], offsets[..], lo, 0)
      modifies this`table, this`index, gr, bucket, offsets, count, buffer, offsetBuffer
      ensures Valid() && old(table) <= table && j < x.Parts() && i == Mul(j, unit) <= |es| <= i + unit
      ensures Outside(old(bucket[..]), bucket[..], lo, hi) && Outside(old(offsets[..]), offsets[..], lo, hi)
      ensures FilledFrom(x, es, bucket[..], offsets[..], lo, j)
      ensures Progress(p, level, es, j, old(Written(unary)), Written(r))
      decreases |es|, 0, 2
    {
      r, i, j := unary, 0, 0;
      ghost var a, bs, os := Written(unary), bucket[..], offsets[..];
      ProgressStart(p, level, es, a);
      while i + unit < hi - lo
        invariant j < x.Parts() && i == Mul(j, unit) && i <= hi - lo && Valid() && old(table) <= table
        invariant Outside(bs, bucket[..], lo, hi) && Outside(os, offsets[..], lo, hi)
        invariant FilledFrom(x, es, bucket[..], offsets[..], lo, j)
        invariant Progress(p, level, es, j, a, Written(r))
      {
        r := NextPart(level, bucket, offsets, lo, i, unit, r, a, es, x, j);
        i, j := i + unit, j + 1;
      }
    }

    /** A part before the last. */
    method NextPart(level: nat, bucket: array<nat>, offsets: array<nat>, lo: nat, i: nat, unit: nat, unary: seq<nat>,
                    ghost a: Out, ghost es: seq<Entry>, ghost x: Node, ghost j: nat) returns (r: seq<nat>)
      requires Valid() && Scratch(bucket, offsets, |es|) && lo + |es| <= bucket.Length
      requires |es| <= maxSize && Solvable(p, level, es) && p.leaf < |es|
      requires x == NodeBy(p, level, es) && x.u == unit && 2 <= unit
      requires j < x.Parts() && i == Mul(j, unit) && i + unit < |es|
      requires FilledFrom(x, es, bucket[..], offsets[..], lo, j)
      requires Progress(p, level, es, j, a, Written(unary))
      modifies this`table, this`index, gr, bucket, offsets, count, buffer, offsetBuffer
      ensures Valid() && old(table) <= table
      ensures Outside(old(bucket[..]), bucket[..], lo, lo + |es|)
      ensures Outside(old(offsets[..]), offsets[..], lo, lo + |es|)
      ensures FilledFrom(x, es, bucket[..], offsets[..], lo, j + 1)
      ensures j + 1 < x.Parts() && i + unit == Mul(j + 1, unit) && Progress(p, level, es, j + 1, a, Written(r))
      decreases |es|, 0, 1
    {
      PartAt(p, level, es, x, j, i);
      r := OnePart(level, bucket, offsets, lo, i, unit, unary, a, es, x, j);
    }

    method LastPart(level: nat, bucket: array<nat>, offsets: array<nat>, lo: nat, hi: nat, i: nat, unary: seq<nat>,
                    ghost a: Out, ghost es: seq<Entry>, ghost x: Node, ghost j: nat)
        returns (r: seq<nat>, ghost j': nat)
      requires Valid() && Scratch(bucket, offsets, |es|) && hi == lo + |es| <= bucket.Length
      requires |es| <= maxSize && Solvable(p, level, es) && p.leaf < |es|
      requires x == NodeBy(p, level, es) && j < x.Parts() && i == Mul(j, x.u) <= |es| <= i + x.u
      requires FilledFrom(x, es, bucket[..], offsets[..], lo, j)
      requires Progress(p, level, es, j, a, Written(unary))
      modifies this`table, this`index, gr, bucket, offsets, count, buffer, offsetBuffer
      ensures Valid() && old(table) <= table
      ensures Outside(old(bucket[..]), bucket[..], lo, hi) && Outside(old(offsets[..]), offsets[..], lo, hi)
      ensures j' == x.Parts() && Progress(p, level, es, j', a, Written(r))
      decreases |es|, 0, 1
    {
      PartAt(p, level, es, x, j, i);
      j' := j + 1;
      if hi - lo - i > 1 {
        r := OnePart(level, bucket, offsets, lo, i, hi - lo - i, unary, a, es, x, j);
      } else {
        r := SinglePart(level, bucket, offsets, lo, i, unary, a, es, x, j);
      }
    }
  }
}
