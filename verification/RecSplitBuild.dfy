/** The index builder's recursion: searching salts, dealing a bucket out in place
    through scratch buffers, and writing codes and records in depth-first order. */
module RecSplitBuild {
  import opened Arith
  import opened SplitTree
  import opened SplitCode

  /** The parallel slices keys and offs hold the entries es. */
  ghost predicate Holds(es: seq<Entry>, keys: seq<nat>, offs: seq<nat>) {
    && |es| == |keys| == |offs|
    && forall i :: 0 <= i < |es| ==> es[i].fp == keys[i] && es[i].off == offs[i]
  }

  /** The call of splitParams. */
  method Shape(p: Params, m: nat) returns (fanout: nat, unit: nat)
    requires ValidParams(p) && p.leaf < m < 0xFFFF
    ensures unit == Unit(p, m) && 2 <= unit < m && fanout == Units(m, unit) && 2 <= fanout <= p.secondary
  {
    fanout, unit := SplitParams(p, m).0, SplitParams(p, m).1;
    SplitParamsExact(p, m);
    UnitShape(p, m);
  }

  // ---- salt searches

  /** A leaf's search: the first salt under which the keys' slots set m different bits. */
  method FindBijection(p: Params, level: nat, keys: seq<nat>, ghost es: seq<Entry>) returns (d: nat)
    requires ValidParams(p) && level < |p.seeds| && 0 < |es| <= p.leaf && |es| == |keys|
    requires forall i :: 0 <= i < |es| ==> es[i].fp == keys[i]
    requires HasSalt(p, level, es)
    ensures d == SaltOf(p, level, es)
  {
    d := 0;
    var done := TryBijection(p, level, d, keys, es);
    while !done
      invariant done == Works(p, level, d, es) && d <= SaltOf(p, level, es)
      invariant forall c :: 0 <= c < d ==> !Works(p, level, c, es)
      decreases SaltOf(p, level, es) - d, !done
    {
      d := d + 1;
      done := TryBijection(p, level, d, keys, es);
    }
    SaltUnique(p, level, es, d);
  }

  method TryBijection(p: Params, level: nat, d: nat, keys: seq<nat>, ghost es: seq<Entry>) returns (ok: bool)
    requires ValidParams(p) && level < |p.seeds| && 0 < |es| <= p.leaf && |es| == |keys|
    requires forall i :: 0 <= i < |es| ==> es[i].fp == keys[i]
    ensures ok == Works(p, level, d, es)
  {
    var m := |keys|;
    var mask: set<nat> := {};
    var fail := false;
    var i := 0;
    while !fail && i < m
      invariant 0 <= i <= m
      invariant !fail ==> forall k :: k in mask <==> exists a :: 0 <= a < i && Slot(p, level, d, m, es[a].fp) == k
      invariant !fail ==> forall a, b :: 0 <= a < b < i ==>
          Slot(p, level, d, m, es[a].fp) != Slot(p, level, d, m, es[b].fp)
      invariant fail ==> !Bijective(p, level, d, es)
    {
      var bit := Slot(p, level, d, m, keys[i]);
      if bit in mask {
        fail := true;
      } else {
        mask := mask + {bit};
      }
      i := i + 1;
    }
    ok := !fail;
  }

  /** A split's search: the first salt that sends exactly u keys to every part but the last. */
  method FindBalance(p: Params, level: nat, keys: seq<nat>, count: array<nat>, ghost es: seq<Entry>) returns (d: nat)
    requires ValidParams(p) && level < |p.seeds| && p.leaf < |es| < 0xFFFF && |es| == |keys|
    requires forall i :: 0 <= i < |es| ==> es[i].fp == keys[i]
    requires HasSalt(p, level, es) && p.secondary <= count.Length
    modifies count
    ensures d == SaltOf(p, level, es)
  {
    d := 0;
    var done := TryBalance(NodeOf(p, level, d, |keys|), keys, count, es);
    while !done
      invariant done == Works(p, level, d, es) && d <= SaltOf(p, level, es)
      invariant forall c :: 0 <= c < d ==> !Works(p, level, c, es)
      decreases SaltOf(p, level, es) - d, !done
    {
      d := d + 1;
      done := TryBalance(NodeOf(p, level, d, |keys|), keys, count, es);
    }
    SaltUnique(p, level, es, d);
  }

  method TryBalance(x: Node, keys: seq<nat>, count: array<nat>, ghost es: seq<Entry>) returns (ok: bool)
    requires ValidParams(x.p) && x.Ok() && x.m == |es| == |keys| && x.p.leaf < x.m < 0xFFFF && x.u == Unit(x.p, x.m)
    requires forall i :: 0 <= i < |es| ==> es[i].fp == keys[i]
    requires x.p.secondary <= count.Length
    modifies count
    ensures ok == Balanced(x, es)
  {
    var fanout, unit := Shape(x.p, x.m);
    Tally(x, keys, count, fanout, unit, es);
    ok := true;
    var i := 0;
    while i < fanout - 1
      invariant 0 <= i <= fanout - 1
      invariant forall j :: 0 <= j < fanout - 1 ==> count[j] == |Part(x, es, j)|
      invariant ok <==> forall j :: 0 <= j < i ==> |Part(x, es, j)| == unit
    {
      ok := ok && count[i] == unit;
      i := i + 1;
    }
  }

  /** Counts the keys of every part but the last; the last counter is never cleared. */
  method Tally(x: Node, keys: seq<nat>, count: array<nat>, fanout: nat, unit: nat, ghost es: seq<Entry>)
    requires x.Ok() && x.m == |es| == |keys| && x.u == unit && x.Parts() == fanout <= count.Length && fanout > 0
    requires forall i :: 0 <= i < |es| ==> es[i].fp == keys[i]
    modifies count
    ensures forall j :: 0 <= j < fanout - 1 ==> count[j] == |Part(x, es, j)|
  {
    for i := 0 to fanout - 1
      invariant forall j :: 0 <= j < i ==> count[j] == 0
    {
      count[i] := 0;
    }
    for i := 0 to |keys|
      invariant forall j :: 0 <= j < fanout - 1 ==> count[j] == |Part(x, es[..i], j)|
    {
      var j := PartIndex(x, keys[i]);
      CountNext(x, es, i);
      count[j] := count[j] + 1;
    }
    assert es[..|keys|] == es;
  }

  // ---- dealing a bucket out

  /** The slices hold, from position lo + j * u on, the entries of es sent to part j. */
  ghost predicate Filled(x: Node, es: seq<Entry>, keys: seq<nat>, offs: seq<nat>, lo: nat)
    requires x.Ok()
  {
    forall j :: 0 <= j < x.Parts() ==> HoldsAt(Part(x, es, j), keys, offs, lo + Mul(j, x.u))
  }

  ghost predicate HoldsAt(es: seq<Entry>, keys: seq<nat>, offs: seq<nat>, from: nat) {
    && from + |es| <= |keys| == |offs|
    && forall i :: 0 <= i < |es| ==> keys[from + i] == es[i].fp && offs[from + i] == es[i].off
  }

  method DealOut(x: Node, fanout: nat, unit: nat, keys: seq<nat>, offs: seq<nat>,
                 count: array<nat>, buffer: array<nat>, offsetBuffer: array<nat>, ghost es: seq<Entry>)
    requires x.Ok() && x.m == |es| && x.u == unit && x.Parts() == fanout <= count.Length
    requires Balanced(x, es) && Holds(es, keys, offs)
    requires x.m <= buffer.Length && x.m <= offsetBuffer.Length
    requires buffer != offsetBuffer && buffer != count && offsetBuffer != count
    modifies count, buffer, offsetBuffer
    ensures Filled(x, es, buffer[..x.m], offsetBuffer[..x.m], 0)
  {
    var i, c := 0, 0;
    while i < fanout
      invariant 0 <= i <= fanout && c == Mul(i, unit)
      invariant forall j :: 0 <= j < i ==> count[j] == Mul(j, unit)
    {
      count[i] := c;
      c := c + unit;
      i := i + 1;
    }
    assert Counts(x, [], count[..]);
    MoveAll(x, keys, offs, count, buffer, offsetBuffer, es);
  }

  /** count[j] is the next free position of part j. */
  ghost predicate Counts(x: Node, es: seq<Entry>, cs: seq<nat>)
    requires x.Ok()
  {
    x.Parts() <= |cs| && forall j :: 0 <= j < x.Parts() ==> cs[j] == Mul(j, x.u) + |Part(x, es, j)|
  }

  method MoveAll(x: Node, keys: seq<nat>, offs: seq<nat>, count: array<nat>, buffer: array<nat>,
                 offsetBuffer: array<nat>,
                 ghost es: seq<Entry>)
    requires x.Ok() && x.m == |es| && Balanced(x, es) && Holds(es, keys, offs)
    requires x.m <= buffer.Length && x.m <= offsetBuffer.Length
    requires buffer != offsetBuffer && buffer != count && offsetBuffer != count
    requires Counts(x, [], count[..])
    modifies count, buffer, offsetBuffer
    ensures Filled(x, es, buffer[..x.m], offsetBuffer[..x.m], 0)
  {
    FilledNone(x, buffer[..x.m], offsetBuffer[..x.m]);
    for i := 0 to |keys|
      invariant Counts(x, es[..i], count[..])
      invariant Filled(x, es[..i], buffer[..x.m], offsetBuffer[..x.m], 0)
    {
      MoveOne(x, keys[i], offs[i], count, buffer, offsetBuffer, es, i);
    }
    assert es[..|keys|] == es;
  }

  method MoveOne(x: Node, key: nat, off: nat, count: array<nat>, buffer: array<nat>, offsetBuffer: array<nat>,
                 ghost es: seq<Entry>, ghost i: nat)
    requires x.Ok() && x.m == |es| && Balanced(x, es) && i < |es| && es[i] == Entry(key, off)
    requires x.m <= buffer.Length && x.m <= offsetBuffer.Length
    requires buffer != offsetBuffer && buffer != count && offsetBuffer != count
    requires Counts(x, es[..i], count[..]) && Filled(x, es[..i], buffer[..x.m], offsetBuffer[..x.m], 0)
    modifies count, buffer, offsetBuffer
    ensures Counts(x, es[..i + 1], count[..]) && Filled(x, es[..i + 1], buffer[..x.m], offsetBuffer[..x.m], 0)
  {
    var j := PartIndex(x, key);
    var w := count[j];
    ghost var cs, ks, os := count[..], buffer[..x.m], offsetBuffer[..x.m];
    FilledNext(x, es, i, ks, os);
    CountsNext(x, es, i, cs);
    assert w == cs[j];
    Set(buffer, x.m, w, key);
    Set(offsetBuffer, x.m, w, off);
    Set(count, count.Length, j, w + 1);
  }

  method Set(a: array<nat>, ghost n: nat, i: nat, v: nat)
    requires i < n <= a.Length
    modifies a
    ensures a[..n] == old(a[..n])[i := v] && (n == a.Length ==> a[..] == old(a[..])[i := v])
  {
    a[i] := v;
  }

  lemma CountsNext(x: Node, es: seq<Entry>, i: nat, cs: seq<nat>)
    requires x.Ok() && i < |es| && Counts(x, es[..i], cs)
    ensures var j := x.PartOf(es[i].fp); Counts(x, es[..i + 1], cs[j := cs[j] + 1])
  {
    CountNext(x, es, i);
  }

  /** remap16(...) / unit. */
  method PartIndex(x: Node, key: nat) returns (j: nat)
    requires x.Ok()
    ensures j == x.PartOf(key)
  {
    var s := Slot(x.p, x.level, x.d, x.m, key);
    DivIsQuotient(s, x.u);
    j := s / x.u;
  }

  lemma CountNext(x: Node, es: seq<Entry>, i: nat)
    requires x.Ok() && i < |es|
    ensures forall j: nat ::
              |Part(x, es[..i + 1], j)| == |Part(x, es[..i], j)| + if x.PartOf(es[i].fp) == j then 1 else 0
  {
    forall j: nat {
      PartNext(x, es, i, j);
    }
  }

  lemma FilledNone(x: Node, keys: seq<nat>, offs: seq<nat>)
    requires x.Ok() && |keys| == |offs| == x.m
    ensures Filled(x, [], keys, offs, 0)
  {
    forall j | 0 <= j < x.Parts() ensures HoldsAt(Part(x, [], j), keys, offs, Mul(j, x.u)) {
      UnitsSpec(x.m, x.u);
      MulMonotonic(j, x.Parts() - 1, x.u);
    }
  }

  lemma {:induction false} PartPrefix(x: Node, es: seq<Entry>, i: nat, j: nat)
    requires x.Ok() && i <= |es|
    ensures Part(x, es[..i], j) <= Part(x, es, j)
  {
    if i < |es| {
      var k := |es| - 1;
      PartPrefix(x, es[..k], i, j);
      assert es[..k][..i] == es[..i];
    } else {
      assert es[..i] == es;
    }
  }

  /** The next place of entry i's part is inside the part. */
  lemma PlaceFree(x: Node, es: seq<Entry>, i: nat)
    requires x.Ok() && x.m == |es| && Balanced(x, es) && i < |es|
    ensures var j := x.PartOf(es[i].fp);
      |Part(x, es[..i], j)| < |Part(x, es, j)| && Mul(j, x.u) + |Part(x, es, j)| <= |es| && |Part(x, es, j)| <= x.u
  {
    var j := x.PartOf(es[i].fp);
    PartPrefix(x, es, i + 1, j);
    assert es[..i + 1][..i] == es[..i];
    PartSizes(x, es, j);
  }

  lemma FilledNext(x: Node, es: seq<Entry>, i: nat, keys: seq<nat>, offs: seq<nat>)
    requires x.Ok() && x.m == |es| && Balanced(x, es) && i < |es| == |keys| == |offs|
    requires Filled(x, es[..i], keys, offs, 0)
    ensures var w := Mul(x.PartOf(es[i].fp), x.u) + |Part(x, es[..i], x.PartOf(es[i].fp))|;
      w < |es| && Filled(x, es[..i + 1], keys[w := es[i].fp], offs[w := es[i].off], 0)
  {
    PlaceFree(x, es, i);
    forall j | 0 <= j < x.Parts() {
      FilledPart(x, es, i, j, keys, offs);
    }
  }

  lemma FilledPart(x: Node, es: seq<Entry>, i: nat, j: nat, keys: seq<nat>, offs: seq<nat>)
    requires x.Ok() && x.m == |es| && Balanced(x, es) && i < |es| == |keys| == |offs| && j < x.Parts()
    requires HoldsAt(Part(x, es[..i], j), keys, offs, Mul(j, x.u))
    ensures var w := Mul(x.PartOf(es[i].fp), x.u) + |Part(x, es[..i], x.PartOf(es[i].fp))|;
      w < |es| && HoldsAt(Part(x, es[..i + 1], j), keys[w := es[i].fp], offs[w := es[i].off], Mul(j, x.u))
  {
    var p := x.PartOf(es[i].fp);
    var part := Part(x, es[..i], j);
    PlaceFree(x, es, i);
    PartNext(x, es, i, j);
    if j == p {
      HoldsAtSnoc(part, es[i], keys, offs, Mul(j, x.u));
    } else {
      PartEnds(x, es, i, j);
      PartsApart(x.u, j, p);
      HoldsAtOther(part, es[i], keys, offs, Mul(j, x.u), Mul(p, x.u) + |Part(x, es[..i], p)|);
    }
  }

  lemma PartNext(x: Node, es: seq<Entry>, i: nat, j: nat)
    requires x.Ok() && i < |es|
    ensures Part(x, es[..i + 1], j) == Part(x, es[..i], j) + if x.PartOf(es[i].fp) == j then [es[i]] else []
  {
    assert es[..i + 1][..i] == es[..i];
  }

  lemma PartEnds(x: Node, es: seq<Entry>, i: nat, j: nat)
    requires x.Ok() && x.m == |es| && Balanced(x, es) && i <= |es| && j < x.Parts()
    ensures |Part(x, es[..i], j)| <= x.u
  {
    PartPrefix(x, es, i, j);
    PartSizes(x, es, j);
  }

  lemma HoldsAtSnoc(es: seq<Entry>, e: Entry, keys: seq<nat>, offs: seq<nat>, from: nat)
    requires HoldsAt(es, keys, offs, from) && from + |es| < |keys|
    ensures var w := from + |es|; HoldsAt(es + [e], keys[w := e.fp], offs[w := e.off], from)
  {
  }

  lemma HoldsAtOther(es: seq<Entry>, e: Entry, keys: seq<nat>, offs: seq<nat>, from: nat, w: nat)
    requires HoldsAt(es, keys, offs, from) && w < |keys| && (w < from || from + |es| <= w)
    ensures HoldsAt(es, keys[w := e.fp], offs[w := e.off], from)
  {
  }

  lemma PartsApart(u: nat, i: nat, j: nat)
    requires i != j
    ensures Mul(i, u) + u <= Mul(j, u) || Mul(j, u) + u <= Mul(i, u)
  {
    if i < j {
      MulMonotonic(i, j, u);
    } else {
      MulMonotonic(j, i, u);
    }
  }
}
