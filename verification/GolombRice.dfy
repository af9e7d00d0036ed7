/** The Golomb-Rice bit string of the split tree: the builder that appends the
    low parts and the unary high parts of the salts to an array of 64-bit words,
    and the reader that walks both parts with two cursors. */
module GolombRice {
  import opened Sums
  import opened Words

  /** The unary code of u: u clear bits and a set bit. */
  function Unary(u: nat): (r: seq<bool>)
    ensures |r| == u + 1
  {
    Zeros(u) + [true]
  }

  function UnaryAll(us: seq<nat>): seq<bool> {
    if us == [] then [] else Unary(us[0]) + UnaryAll(us[1..])
  }

  /** No bit is set from `from` on. */
  ghost predicate Clear(data: seq<bool>, from: nat) {
    forall i :: from <= i < |data| ==> !data[i]
  }

  /** data is a whole number of words, just enough for bitCount bits, and clear
      after them. */
  ghost predicate Packed(data: seq<bool>, bitCount: nat) {
    && Aligned(data) && bitCount <= |data| < bitCount + 64
    && Clear(data, bitCount)
  }

  ghost predicate Aligned(data: seq<bool>) { |data| % 64 == 0 }

  class Builder {
    var data: seq<bool>
    var bitCount: nat

    ghost predicate Valid()
      reads this
    {
      Packed(data, bitCount)
    }

    /** The bits appended so far. */
    ghost function Contents(): seq<bool>
      reads this
      requires Valid()
    {
      data[..bitCount]
    }

    constructor ()
      ensures Valid() && Contents() == [] && data == [] && bitCount == 0
    {
      data, bitCount := [], 0;
    }

    method AppendFixed(v: nat, log2golomb: nat)
      requires Valid() && log2golomb <= 64
      modifies this
      ensures Valid()
      ensures bitCount == old(bitCount) + log2golomb
      ensures Contents() == old(Contents()) + ToBits(v, log2golomb)
    {
      if log2golomb == 0 {
        return;
      }
      var grown := Grown(data, (bitCount + log2golomb + 63) / 64);
      assert grown[..bitCount] == data[..bitCount];
      data := StoreFixed(grown, bitCount, v, log2golomb);
      bitCount := bitCount + log2golomb;
    }

    method AppendUnaryAll(unary: seq<nat>)
      requires Valid()
      modifies this
      ensures Valid()
      ensures bitCount == old(bitCount) + |UnaryAll(unary)|
      ensures Contents() == old(Contents()) + UnaryAll(unary)
    {
      var bitInc := UnaryLength(unary);
      var grown := Grown(data, (bitCount + bitInc + 63) / 64);
      assert grown[..bitCount] == data[..bitCount];
      data, bitCount := StoreUnary(grown, bitCount, unary);
    }
  }

  method UnaryLength(unary: seq<nat>) returns (bitInc: nat)
    ensures bitInc == |UnaryAll(unary)|
  {
    bitInc := 0;
    for n := 0 to |unary|
      invariant bitInc == |UnaryAll(unary[..n])|
    {
      UnaryAllSnoc(unary, n);
      bitInc := bitInc + unary[n] + 1;
    }
    assert unary[..|unary|] == unary;
  }

  /** for len(data) < targetSize { data = append(data, 0) } */
  method Grown(data: seq<bool>, targetSize: nat) returns (r: seq<bool>)
    requires Aligned(data) && |data| <= 64 * targetSize
    ensures |r| == 64 * targetSize && r == data + Zeros(64 * targetSize - |data|)
  {
    r := data;
    while |r| < 64 * targetSize
      invariant Aligned(r) && |data| <= |r| <= 64 * targetSize && r == data + Zeros(|r| - |data|)
    {
      assert Zeros(|r| - |data|) + Zeros(64) == Zeros(|r| - |data| + 64);
      r := r + Zeros(64);
    }
  }

  /** Or the low bits of v into the last word used, and let them overflow into the next. */
  method StoreFixed(data: seq<bool>, bitCount: nat, v: nat, log2golomb: nat) returns (r: seq<bool>)
    requires 0 < log2golomb <= 64 && Aligned(data) && Clear(data, bitCount)
    requires bitCount + log2golomb <= |data|
    ensures |r| == |data| && Clear(r, bitCount + log2golomb)
    ensures r[..bitCount + log2golomb] == data[..bitCount] + ToBits(v, log2golomb)
  {
    var lowerBits := LowWord(v, log2golomb);
    var usedBits := bitCount % 64;
    var appendPtr := bitCount / 64;
    WordBounds(|data|, bitCount, log2golomb);
    r := StoreBits(data, appendPtr, usedBits, lowerBits, log2golomb, ToBits(v, log2golomb));
  }

  /** Bits behind the used ones of a word, and in the next word if there is not enough room. */
  method StoreBits(data: seq<bool>, p: nat, used: nat, low: seq<bool>, n: nat, ghost bits: seq<bool>)
      returns (r: seq<bool>)
    requires 64 * p + 64 <= |data| && (used + n > 64 ==> 64 * p + 128 <= |data|) && Clear(data, 64 * p + used)
    requires used < 64 && 0 < n == |bits| <= 64 && low == bits + Zeros(64 - n)
    ensures |r| == |data| && Clear(r, 64 * p + used + n) && r[..64 * p + used + n] == data[..64 * p + used] + bits
  {
    var curWord := Or(WordAt(data, p), Shl(low, used));
    FixedWord(data, p, used, low);
    r := SetWord(data, p, curWord);
    if used + n > 64 {
      curWord := Shr(low, 64 - used);
      ghost var one := r;
      r := SetWord(r, p + 1, curWord);
      StoredTwo(data, one, r, p, used, bits, low);
    } else {
      StoredOne(data, r, p, used, bits, low);
    }
  }

  lemma WordBounds(size: nat, from: nat, g: nat)
    requires size % 64 == 0 && from < size && from + g <= size
    ensures from == 64 * (from / 64) + from % 64
    ensures 64 * (from / 64) + 64 <= size
    ensures from % 64 + g > 64 ==> 64 * (from / 64) + 128 <= size
  {
  }

  /** Or-ing bits above the used ones of a word that is clear there. */
  lemma FixedWord(data: seq<bool>, p: nat, used: nat, low: seq<bool>)
    requires 64 * p + 64 <= |data| && used < 64 && IsWord(low) && Clear(data, 64 * p + used)
    ensures Or(WordAt(data, p), Shl(low, used)) == data[64 * p..64 * p + used] + low[..64 - used]
  {
  }

  lemma StoredOne(data: seq<bool>, r: seq<bool>, p: nat, used: nat, bits: seq<bool>, low: seq<bool>)
    requires 64 * p + 64 <= |data| && used + |bits| <= 64 && low == bits + Zeros(64 - |bits|) && used < 64
    requires Clear(data, 64 * p + used)
    requires r == SetWord(data, p, data[64 * p..64 * p + used] + low[..64 - used])
    ensures Clear(r, 64 * p + used + |bits|)
    ensures r[..64 * p + used + |bits|] == data[..64 * p + used] + bits
  {
    assert r[..64 * p + used] == data[..64 * p + used];
    assert r[64 * p + used..64 * p + 64] == low[..64 - used];
    assert low[..64 - used] == bits + Zeros(64 - used - |bits|);
    assert r[64 * p + 64..] == data[64 * p + 64..];
    assert r == data[..64 * p + used] + (bits + Zeros(64 - used - |bits|)) + data[64 * p + 64..];
  }

  lemma StoredTwo(data: seq<bool>, one: seq<bool>, r: seq<bool>, p: nat, used: nat, bits: seq<bool>, low: seq<bool>)
    requires 64 * p + 128 <= |data| && used < 64 < used + |bits| && |bits| <= 64 && low == bits + Zeros(64 - |bits|)
    requires Clear(data, 64 * p + used)
    requires one == SetWord(data, p, data[64 * p..64 * p + used] + low[..64 - used])
    requires r == SetWord(one, p + 1, Shr(low, 64 - used))
    ensures Clear(r, 64 * p + used + |bits|)
    ensures r[..64 * p + used + |bits|] == data[..64 * p + used] + bits
  {
    var k, q := 64 - used, 64 * p + 64;
    assert one[..q] == data[..64 * p + used] + bits[..k];
    assert one[q..] == data[q..];
    var w := Shr(low, k);
    assert w == bits[k..] + Zeros(64 - |bits| + k);
    assert r[..q] == one[..q] && r[q..q + 64] == w && r[q + 64..] == one[q..][64..];
    TwoWords(data, r, 64 * p + used, q, bits, w);
  }

  lemma TwoWords(data: seq<bool>, r: seq<bool>, from: nat, q: nat, bits: seq<bool>, w: seq<bool>)
    requires from < q < from + |bits| <= q + 64 <= |data| == |r| && Clear(data, from) && |w| == 64
    requires r[..q] == data[..from] + bits[..q - from] && r[q..q + 64] == w && r[q + 64..] == data[q + 64..]
    requires w == bits[q - from..] + Zeros(q + 64 - from - |bits|)
    ensures Clear(r, from + |bits|) && r[..from + |bits|] == data[..from] + bits
  {
    assert r == r[..q] + r[q..q + 64] + r[q + 64..];
    assert bits[..q - from] + bits[q - from..] == bits;
    forall i | q <= i < q + 64 ensures r[i] == w[i - q] {
      assert r[q..q + 64][i - q] == r[i];
    }
    forall i | from + |bits| <= i < |r| ensures !r[i] {
      if i >= q + 64 {
        assert r[i] == r[q + 64..][i - q - 64] == data[i];
      }
    }
    assert r[..from + |bits|] == r[..q] + w[..from + |bits| - q];
  }

  /** Set the bit that ends each unary code. */
  method StoreUnary(data: seq<bool>, from: nat, unary: seq<nat>) returns (r: seq<bool>, bitCount: nat)
    requires Aligned(data) && Clear(data, from) && from + |UnaryAll(unary)| <= |data|
    ensures |r| == |data| && bitCount == from + |UnaryAll(unary)| && Clear(r, bitCount)
    ensures r[..bitCount] == data[..from] + UnaryAll(unary)
  {
    r, bitCount := data, from;
    for n := 0 to |unary|
      invariant |r| == |data|
      invariant bitCount == from + |UnaryAll(unary[..n])| <= |r| && Clear(r, bitCount)
      invariant r[..bitCount] == data[..from] + UnaryAll(unary[..n])
    {
      UnaryAllSnoc(unary, n);
      r, bitCount := StoreOne(r, bitCount, unary[n]);
    }
    assert unary[..|unary|] == unary;
  }

  method StoreOne(data: seq<bool>, from: nat, u: nat) returns (r: seq<bool>, bitCount: nat)
    requires Aligned(data) && Clear(data, from) && from + u < |data|
    ensures |r| == |data| && bitCount == from + u + 1 && Clear(r, bitCount) && r[..bitCount] == data[..from] + Unary(u)
  {
    bitCount := from + u;
    var appendPtr := bitCount / 64;
    r := SetWord(data, appendPtr, Or(WordAt(data, appendPtr), Bit(bitCount % 64)));
    UnaryWord(data, r, appendPtr, bitCount % 64);
    bitCount := bitCount + 1;
  }

  lemma UnaryWord(was: seq<bool>, now: seq<bool>, p: nat, k: nat)
    requires 64 * p + 64 <= |was| && k < 64
    requires now == SetWord(was, p, Or(WordAt(was, p), Bit(k)))
    ensures now == was[64 * p + k := true]
  {
  }

  lemma {:induction false} UnaryAllConcat(a: seq<nat>, b: seq<nat>)
    ensures UnaryAll(a + b) == UnaryAll(a) + UnaryAll(b)
  {
    if a == [] {
      assert a + b == b;
    } else {
      assert (a + b)[1..] == a[1..] + b;
      UnaryAllConcat(a[1..], b);
    }
  }

  lemma UnaryAllSnoc(us: seq<nat>, n: nat)
    requires n < |us|
    ensures UnaryAll(us[..n + 1]) == UnaryAll(us[..n]) + Unary(us[n])
    ensures |UnaryAll(us[..n + 1])| <= |UnaryAll(us)|
  {
    assert us[..n + 1] == us[..n] + [us[n]];
    UnaryAllConcat(us[..n], [us[n]]);
    assert UnaryAll([us[n]]) == Unary(us[n]) + UnaryAll([us[n]][1..]);
    assert us == us[..n + 1] + us[n + 1..];
    UnaryAllConcat(us[..n + 1], us[n + 1..]);
  }

  // ---- the reader

  /** The unary cursor: a window on the `valid` bits that precede word `ptr`. */
  datatype Cursor = Cursor(window: seq<bool>, ptr: nat, valid: nat) {

    function Pos(): int { 64 * ptr - valid }

    ghost predicate On(data: seq<bool>) {
      && 0 < 64 * ptr <= |data|
      && Window(window, valid, data, Pos())
    }

    /** After a read or a skip the last set bit read lies in the window's word. */
    ghost predicate Settled(data: seq<bool>) {
      On(data) && valid < 64
    }
  }

  /** w holds the v bits of data from pos on, padded with clear bits. */
  ghost predicate Window(w: seq<bool>, v: nat, data: seq<bool>, pos: int) {
    && IsWord(w) && v <= 64 && 0 <= pos && pos + v <= |data|
    && (forall i :: 0 <= i < v ==> w[i] == data[pos + i]) && Clear(w, v)
  }

  /** What a read returns: the high part and the g low bits at f, cut to a word. */
  function Joined(high: nat, data: seq<bool>, f: nat, g: nat): nat
    requires f + g <= |data|
  {
    Combine(high, data, f, g) % TWO64
  }

  lemma ShiftedWord(data: seq<bool>, ptr: nat, shift: nat)
    requires 64 * ptr + 64 <= |data| && shift < 64
    ensures Window(Shr(WordAt(data, ptr), shift), 64 - shift, data, 64 * ptr + shift)
  {
  }

  /** window = data[pos / 64] >> (pos % 64). */
  function CursorAt(data: seq<bool>, pos: nat): (c: Cursor)
    requires Aligned(data) && pos < |data|
    ensures c.On(data) && c.Pos() == pos
  {
    var ptr := pos / 64;
    var shift := pos % 64;
    ShiftedWord(data, ptr, shift);
    Cursor(Shr(WordAt(data, ptr), shift), ptr + 1, 64 - shift)
  }

  class Reader {
    const data: seq<bool>
    var currFixedOffset: nat
    var unary: Cursor

    ghost predicate Valid()
      reads this
    {
      Aligned(data) && unary.On(data)
    }

    constructor (data: seq<bool>, bitPos: nat, unaryOffset: nat)
      requires Aligned(data) && bitPos + unaryOffset < |data|
      ensures this.data == data && Valid()
      ensures currFixedOffset == bitPos && unary.Pos() == bitPos + unaryOffset
    {
      // ReadReset
      this.data := data;
      currFixedOffset := bitPos;
      unary := CursorAt(data, bitPos + unaryOffset);
    }

    method ReadNext(log2golomb: nat) returns (result: nat)
      requires Valid() && Ones(data, unary.Pos(), |data|) > 0
      requires log2golomb <= 64 && currFixedOffset < |data| && currFixedOffset + log2golomb <= |data|
      modifies this
      ensures Valid() && unary.Settled(data)
      ensures unary.Pos() == NextOne(data, old(unary.Pos())) + 1
      ensures currFixedOffset == old(currFixedOffset) + log2golomb
      ensures var at := old(unary.Pos());
        result == Joined(NextOne(data, at) - at, data, old(currFixedOffset), log2golomb)
    {
      var zeros, fixed;
      zeros, unary := ReadUnary(data, unary);
      fixed := ReadFixed(data, currFixedOffset, log2golomb);
      CombineBits(zeros, fixed, data, currFixedOffset, log2golomb);
      result := Combine(zeros, fixed, 0, log2golomb) % TWO64;
      currFixedOffset := currFixedOffset + log2golomb;
    }

    method SkipSubtree(nodes: nat, fixedLen: nat)
      requires Valid() && 0 < nodes <= Ones(data, unary.Pos(), |data|)
      modifies this
      ensures Valid() && unary.Settled(data)
      ensures unary.Pos() == PastOnes(data, old(unary.Pos()), nodes)
      ensures currFixedOffset == old(currFixedOffset) + fixedLen
    {
      unary := SkipUnary(data, unary, nodes);
      currFixedOffset := currFixedOffset + fixedLen;
    }
  }

  /** The high part: refill the window while it is empty, then shift the first set
      bit out of it. */
  method ReadUnary(data: seq<bool>, c: Cursor) returns (result: nat, r: Cursor)
    requires Aligned(data) && c.On(data) && Ones(data, c.Pos(), |data|) > 0
    ensures r.Settled(data)
    ensures c.Pos() + result == NextOne(data, c.Pos())
    ensures r.Pos() == c.Pos() + result + 1
  {
    ghost var first := NextOne(data, c.Pos());
    NextOneIsFirst(data, c.Pos());
    result := 0;
    r := c;
    if r.window == Zeros(64) {
      EmptyWindow(data, r, first);
      result := result + r.valid;
      r := NextWord(data, r);
      while r.window == Zeros(64)
        invariant r.On(data) && r.valid == 64
        invariant r.Pos() == c.Pos() + result <= first
        decreases |data| - 64 * r.ptr
      {
        EmptyWindow(data, r, first);
        result := result + 64;
        r := NextWord(data, r);
      }
    }
    var pos := TrailingZeros(r.window);
    FirstInWindow(data, r, first, pos);
    r := ShiftOut(data, r, pos);
    result := result + pos;
  }

  /** window = data[ptr]; ptr++; valid = 64. */
  function NextWord(data: seq<bool>, c: Cursor): (r: Cursor)
    requires 64 * c.ptr + 64 <= |data|
    ensures r.On(data) && r.valid == 64 && r.Pos() == 64 * c.ptr
  {
    Cursor(WordAt(data, c.ptr), c.ptr + 1, 64)
  }

  /** Drop the window's bits up to and including the set bit at k. */
  function ShiftOut(data: seq<bool>, c: Cursor, k: nat): (r: Cursor)
    requires c.On(data) && k < 64 && c.window[k]
    ensures r.Settled(data) && r.Pos() == c.Pos() + k + 1
  {
    ShiftWindow(c.window, c.valid, data, c.Pos(), k);
    Cursor(Shr(Shr(c.window, k), 1), c.ptr, c.valid - (k + 1))
  }

  /** The low part: the bits of one word, joined with the next when they cross over. */
  method ReadFixed(data: seq<bool>, from: nat, log2golomb: nat) returns (bits: seq<bool>)
    requires log2golomb <= 64 && Aligned(data) && from < |data| && from + log2golomb <= |data|
    ensures bits == data[from..from + log2golomb]
  {
    var idx64 := from / 64;
    var shift := from % 64;
    WordBounds(|data|, from, log2golomb);
    var fixed := Shr(WordAt(data, idx64), shift);
    if shift + log2golomb > 64 {
      JoinedWord(data, idx64, shift);
      fixed := Or(fixed, Shl(WordAt(data, idx64 + 1), 64 - shift));
    }
    bits := fixed[..log2golomb];
  }

  lemma JoinedWord(data: seq<bool>, k: nat, shift: nat)
    requires 64 * k + 128 <= |data| && 0 < shift < 64
    ensures Or(Shr(WordAt(data, k), shift), Shl(WordAt(data, k + 1), 64 - shift)) ==
        data[64 * k + shift..64 * k + shift + 64]
  {
    var a, b := Shr(WordAt(data, k), shift), Shl(WordAt(data, k + 1), 64 - shift);
    assert a == data[64 * k + shift..64 * k + 64] + Zeros(shift);
    assert b == Zeros(64 - shift) + data[64 * k + 64..64 * k + 64 + shift];
    var r := data[64 * k + shift..64 * k + shift + 64];
    forall i | 0 <= i < 64 ensures Or(a, b)[i] == r[i] {
      if i < 64 - shift {
        assert !b[i];
      } else {
        assert !a[i] && b[i] == data[64 * k + shift + i];
      }
    }
  }

  lemma {:induction false} CombineBits(high: nat, bits: seq<bool>, data: seq<bool>, f: nat, g: nat)
    requires |bits| == g && f + g <= |data| && bits == data[f..f + g]
    ensures Combine(high, bits, 0, g) == Combine(high, data, f, g)
  {
    CombineFrom(high, bits, data, f, g, 0);
  }

  lemma {:induction false} CombineFrom(high: nat, bits: seq<bool>, data: seq<bool>, f: nat, g: nat, k: nat)
    requires |bits| == g && f + g <= |data| && (forall i :: 0 <= i < g ==> bits[i] == data[f + i]) && k <= g
    ensures Combine(high, bits, k, g - k) == Combine(high, data, f + k, g - k)
    decreases g - k
  {
    if k < g {
      CombineFrom(high, bits, data, f, g, k + 1);
    }
  }

  method SkipUnary(data: seq<bool>, c: Cursor, nodes: nat) returns (r: Cursor)
    requires Aligned(data) && c.On(data) && 0 < nodes <= Ones(data, c.Pos(), |data|)
    ensures r.Settled(data) && r.Pos() == PastOnes(data, c.Pos(), nodes)
  {
    r := c;
    var missing := nodes;
    var cnt := OnesCount(r.window);
    ghost var target := PastOnes(data, c.Pos(), nodes);
    while cnt < missing
      invariant r.On(data) && 0 < missing <= Ones(data, r.Pos(), |data|)
      invariant cnt == Ones(r.window, 0, |r.window|)
      invariant target == PastOnes(data, r.Pos(), missing)
      decreases |data| - 64 * r.ptr
    {
      PastWindow(data, r, missing);
      r := NextWord(data, r);
      missing := missing - cnt;
      cnt := OnesCount(r.window);
    }
    cnt := Select64(r.window, missing - 1);
    NthInWindow(data, r, cnt, missing);
    r := ShiftOut(data, r, cnt);
  }

  lemma ShiftWindow(w: seq<bool>, v: nat, data: seq<bool>, pos: nat, k: nat)
    requires Window(w, v, data, pos) && k < 64 && w[k]
    ensures k < v && Window(Shr(Shr(w, k), 1), v - (k + 1), data, pos + k + 1)
  {
    var r := Shr(Shr(w, k), 1);
    assert r == w[k + 1..] + Zeros(k + 1);
    forall i | 0 <= i < v - (k + 1) ensures r[i] == data[pos + k + 1 + i] {
      assert r[i] == w[k + 1 + i];
    }
  }

  lemma WindowBit(data: seq<bool>, c: Cursor, j: nat)
    requires c.On(data) && j < c.valid
    ensures c.window[j] == data[c.Pos() + j]
  {
  }

  /** An empty window is followed by the first set bit, in some later word. */
  lemma EmptyWindow(data: seq<bool>, c: Cursor, first: nat)
    requires Aligned(data) && c.On(data) && c.window == Zeros(64) && c.Pos() <= first < |data| && data[first]
    ensures c.Pos() + c.valid <= first && 64 * c.ptr + 64 <= |data|
  {
    if first < c.Pos() + c.valid {
      WindowBit(data, c, first - c.Pos());
      assert false;
    }
  }

  /** The window's lowest set bit is the first set bit from its position on. */
  lemma FirstInWindow(data: seq<bool>, c: Cursor, first: nat, k: nat)
    requires c.On(data) && c.Pos() <= first < |data| && data[first]
    requires forall i :: c.Pos() <= i < first ==> !data[i]
    requires k < 64 && c.window[k] && forall i :: 0 <= i < k ==> !c.window[i]
    ensures first == c.Pos() + k
  {
    assert data[c.Pos() + k];
    if first < c.Pos() + k {
      WindowBit(data, c, first - c.Pos());
      assert false;
    }
  }

  /** Refilling the window when it holds fewer set bits than are still missing. */
  lemma PastWindow(data: seq<bool>, c: Cursor, missing: nat)
    requires Aligned(data) && c.On(data) && Ones(c.window, 0, |c.window|) < missing <= Ones(data, c.Pos(), |data|)
    ensures 64 * c.ptr + 64 <= |data| && missing - Ones(c.window, 0, |c.window|) <= Ones(data, 64 * c.ptr, |data|)
    ensures PastOnes(data, c.Pos(), missing) == PastOnes(data, 64 * c.ptr, missing - Ones(c.window, 0, |c.window|))
  {
    WindowOnes(data, c);
    PastStretch(data, c.Pos(), 64 * c.ptr, missing);
  }

  lemma WindowOnes(data: seq<bool>, c: Cursor)
    requires c.On(data)
    ensures Ones(c.window, 0, |c.window|) == Ones(data, c.Pos(), 64 * c.ptr)
  {
    var n := |c.window|;
    OnesSplit(c.window, 0, c.valid, n);
    NoOnes(c.window, c.valid, n);
    OnesSame(c.window, 0, c.valid, data, c.Pos());
  }

  /** The set bit of the window with missing - 1 set bits below it. */
  lemma NthInWindow(data: seq<bool>, c: Cursor, k: nat, missing: nat)
    requires c.On(data) && k < 64 && c.window[k] && Ones(c.window, 0, k) + 1 == missing
    ensures missing <= Ones(data, c.Pos(), |data|) && PastOnes(data, c.Pos(), missing) == c.Pos() + k + 1
  {
    OnesSame(c.window, 0, k, data, c.Pos());
    PastOnesAt(data, c.Pos(), c.Pos() + k, missing);
  }

  /** Two settled cursors on the same data at the same position are the same, so a
      skip leaves the very state that the reads it replaces would. */
  lemma SettledUnique(data: seq<bool>, a: Cursor, b: Cursor)
    requires a.Settled(data) && b.Settled(data) && a.Pos() == b.Pos()
    ensures a == b
  {
    assert a.ptr == b.ptr && a.valid == b.valid;
    forall i | 0 <= i < 64 ensures a.window[i] == b.window[i] {
      if i < a.valid {
        assert a.window[i] == data[a.Pos() + i] == b.window[i];
      }
    }
  }

  // ---- reading back what was written

  /** Where a unary code stands, the next set bit ends it. */
  lemma UnaryHere(data: seq<bool>, k: nat, u: nat)
    requires Here(data, k, Unary(u))
    ensures Ones(data, k, |data|) > 0 && NextOne(data, k) == k + u
  {
    assert Unary(u)[u] == data[k + u];
    forall i | k <= i < k + u ensures !data[i] {
      assert Unary(u)[i - k] == data[k + (i - k)];
    }
    NextOneAt(data, k, k + u);
  }

  /** Skipping as many set bits as there are numbers moves past all their codes. */
  lemma {:induction false} PastUnaryAll(data: seq<bool>, k: nat, us: seq<nat>)
    requires Here(data, k, UnaryAll(us))
    ensures |us| <= Ones(data, k, |data|)
    ensures PastOnes(data, k, |us|) == k + |UnaryAll(us)|
    decreases |us|
  {
    if us != [] {
      var n := k + us[0] + 1;
      HereConcat(data, k, Unary(us[0]), UnaryAll(us[1..]));
      PastUnaryAll(data, n, us[1..]);
      OneInUnary(data, k, us[0]);
      OnesSplit(data, k, n, |data|);
      if |us| == 1 {
        PastOnesAt(data, k, n - 1, 1);
      } else {
        PastStretch(data, k, n, |us|);
      }
    }
  }

  lemma OneInUnary(data: seq<bool>, k: nat, u: nat)
    requires Here(data, k, Unary(u))
    ensures data[k + u] && Ones(data, k, k + u) == 0 && Ones(data, k, k + u + 1) == 1
  {
    assert Unary(u)[u] == data[k + u];
    forall i | k <= i < k + u ensures !data[i] {
      assert Unary(u)[i - k] == data[k + (i - k)];
    }
    NoOnes(data, k, k + u);
    OnesSplit(data, k, k + u, k + u + 1);
    assert Ones(data, k + u, k + u + 1) == 1 + Ones(data, k + u + 1, k + u + 1);
  }

  /** Where a 64-bit value's two parts stand at the two cursors, a read returns it. */
  lemma ReadBack(data: seq<bool>, f: nat, u: nat, v: nat, g: nat)
    requires v < TWO64 && Here(data, f, ToBits(v, g)) && Here(data, u, Unary(High(v, g)))
    ensures Ones(data, u, |data|) > 0 && NextOne(data, u) == u + High(v, g)
    ensures Joined(High(v, g), data, f, g) == v
  {
    UnaryHere(data, u, High(v, g));
    HighLow(v, data, f, g);
  }

  /** The low parts of values vs under parameters gs. */
  function Lows(vs: seq<nat>, gs: seq<nat>): seq<bool>
    requires |vs| == |gs|
  {
    if vs == [] then [] else ToBits(vs[0], gs[0]) + Lows(vs[1..], gs[1..])
  }

  function Highs(vs: seq<nat>, gs: seq<nat>): (r: seq<nat>)
    requires |vs| == |gs|
    ensures |r| == |vs|
  {
    if vs == [] then [] else [High(vs[0], gs[0])] + Highs(vs[1..], gs[1..])
  }

  /** Values written as all their low parts and then all their high parts, after
      anything else in the string, are read back unchanged by ReadReset and ReadNext. */
  method RoundTrip(b: Builder, vs: seq<nat>, gs: seq<nat>) returns (out: seq<nat>)
    requires b.Valid() && |vs| == |gs| > 0
    requires forall i :: 0 <= i < |vs| ==> vs[i] < TWO64 && gs[i] <= 64
    modifies b
    ensures out == vs
  {
    var bitPos := b.bitCount;
    var unaryPos := WriteAll(b, vs, gs);
    WrittenAhead(b.data, bitPos, unaryPos, b.data[..bitPos], vs, gs);
    var r := new Reader(b.data, bitPos, unaryPos - bitPos);
    out := ReadAll(r, vs, gs);
  }

  method WriteAll(b: Builder, vs: seq<nat>, gs: seq<nat>) returns (unaryPos: nat)
    requires b.Valid() && |vs| == |gs|
    requires forall i :: 0 <= i < |vs| ==> gs[i] <= 64
    modifies b
    ensures b.Valid() && unaryPos == old(b.bitCount) + |Lows(vs, gs)|
    ensures b.Contents() == old(b.Contents()) + Lows(vs, gs) + UnaryAll(Highs(vs, gs))
  {
    for n := 0 to |vs|
      invariant b.Valid()
      invariant b.Contents() + Lows(vs[n..], gs[n..]) == old(b.Contents()) + Lows(vs, gs)
    {
      ghost var was := b.Contents();
      b.AppendFixed(vs[n], gs[n]);
      assert vs[n..][1..] == vs[n + 1..] && gs[n..][1..] == gs[n + 1..];
      assert b.Contents() + Lows(vs[n + 1..], gs[n + 1..]) == was + Lows(vs[n..], gs[n..]);
    }
    unaryPos := b.bitCount;
    b.AppendUnaryAll(Highs(vs, gs));
  }

  /** The low parts of vs are at f and their high parts at u. */
  ghost predicate Ahead(data: seq<bool>, f: nat, u: nat, vs: seq<nat>, gs: seq<nat>)
    requires |vs| == |gs|
  {
    f + |Lows(vs, gs)| <= u && Here(data, f, Lows(vs, gs)) && Here(data, u, UnaryAll(Highs(vs, gs)))
  }

  lemma WrittenAhead(data: seq<bool>, f: nat, u: nat, before: seq<bool>, vs: seq<nat>, gs: seq<nat>)
    requires |vs| == |gs| > 0 && |before| == f && u == f + |Lows(vs, gs)|
    requires before + Lows(vs, gs) + UnaryAll(Highs(vs, gs)) <= data
    ensures u < |data| && Ahead(data, f, u, vs, gs)
  {
    var s := before + Lows(vs, gs) + UnaryAll(Highs(vs, gs));
    assert Here(data, 0, s);
    HereConcat(data, 0, before + Lows(vs, gs), UnaryAll(Highs(vs, gs)));
    HereConcat(data, 0, before, Lows(vs, gs));
    assert |UnaryAll(Highs(vs, gs))| > 0;
  }

  method ReadAll(r: Reader, ghost vs: seq<nat>, gs: seq<nat>) returns (out: seq<nat>)
    requires |vs| == |gs| && forall i :: 0 <= i < |vs| ==> vs[i] < TWO64 && gs[i] <= 64
    requires r.Valid() && Ahead(r.data, r.currFixedOffset, r.unary.Pos(), vs, gs)
    modifies r
    ensures out == vs
    decreases |gs|
  {
    if |gs| == 0 {
      return [];
    }
    HereConcat(r.data, r.currFixedOffset, ToBits(vs[0], gs[0]), Lows(vs[1..], gs[1..]));
    HereConcat(r.data, r.unary.Pos(), Unary(High(vs[0], gs[0])), UnaryAll(Highs(vs[1..], gs[1..])));
    ReadBack(r.data, r.currFixedOffset, r.unary.Pos(), vs[0], gs[0]);
    var v := r.ReadNext(gs[0]);
    var rest := ReadAll(r, vs[1..], gs[1..]);
    out := [v] + rest;
  }

  lemma PastFirst(data: seq<bool>, i: nat, n: nat)
    requires i <= |data| && 0 < n <= Ones(data, i, |data|)
    ensures Ones(data, i, |data|) > 0 && n - 1 <= Ones(data, NextOne(data, i) + 1, |data|)
    ensures PastOnes(data, i, n) == PastOnes(data, NextOne(data, i) + 1, n - 1)
    decreases |data| - i
  {
    if !data[i] {
      PastFirst(data, i + 1, n);
    }
  }

  method ReadMany(r: Reader, gs: seq<nat>)
    requires r.Valid() && 0 < |gs| <= Ones(r.data, r.unary.Pos(), |r.data|) && r.currFixedOffset + Total(gs) < |r.data|
    requires forall i :: 0 <= i < |gs| ==> gs[i] <= 64
    modifies r
    ensures r.Valid() && r.unary.Settled(r.data) && r.unary.Pos() == PastOnes(r.data, old(r.unary.Pos()), |gs|)
    ensures r.currFixedOffset == old(r.currFixedOffset) + Total(gs)
  {
    ghost var from, data := r.unary.Pos(), r.data;
    for i := 0 to |gs|
      invariant r.Valid() && r.currFixedOffset == old(r.currFixedOffset) + Sum(gs, i)
      invariant (i > 0 ==> r.unary.Settled(data))
      invariant |gs| - i <= Ones(data, r.unary.Pos(), |data|)
      invariant PastOnes(data, r.unary.Pos(), |gs| - i) == PastOnes(data, from, |gs|)
    {
      SumGrows(gs, i + 1);
      PastFirst(data, r.unary.Pos(), |gs| - i);
      var v := r.ReadNext(gs[i]);
    }
  }

  /**
   * SkipSubtree over n nodes and the bits of their low parts leaves the very state that n calls of ReadNext
   * leave: reader a skips, reader b reads.
   */
  method SkipOrRead(a: Reader, b: Reader, gs: seq<nat>)
    requires a != b && a.Valid() && b.Valid() && a.data == b.data && a.unary == b.unary
    requires a.currFixedOffset == b.currFixedOffset
    requires 0 < |gs| <= Ones(a.data, a.unary.Pos(), |a.data|) && a.currFixedOffset + Total(gs) < |a.data|
    requires forall i :: 0 <= i < |gs| ==> gs[i] <= 64
    modifies a, b
    ensures a.Valid() && b.Valid() && a.unary == b.unary && a.currFixedOffset == b.currFixedOffset
    ensures a.currFixedOffset == old(a.currFixedOffset) + Total(gs)
  {
    a.SkipSubtree(|gs|, Total(gs));
    ReadMany(b, gs);
    SettledUnique(a.data, a.unary, b.unary);
  }

  lemma {:induction false} SumGrows(s: seq<nat>, n: nat)
    requires n <= |s|
    ensures Sum(s, n) <= Total(s)
    decreases |s| - n
  {
    if n < |s| {
      SumGrows(s, n + 1);
    }
  }

  /** bits.TrailingZeros64 of a word that is not zero. */
  method TrailingZeros(w: seq<bool>) returns (k: nat)
    requires IsWord(w) && w != Zeros(64)
    ensures k < 64 && w[k] && forall i :: 0 <= i < k ==> !w[i]
  {
    assert exists i :: 0 <= i < 64 && w[i];
    k := 0;
    while !w[k]
      invariant k < 64 && forall i :: 0 <= i < k ==> !w[i]
      decreases 64 - k
    {
      k := k + 1;
    }
  }

  /** bits.OnesCount64. */
  method OnesCount(w: seq<bool>) returns (n: nat)
    requires IsWord(w)
    ensures n == Ones(w, 0, |w|)
  {
    n := 0;
    for k := 0 to 64
      invariant n + Ones(w, k, |w|) == Ones(w, 0, |w|)
    {
      if w[k] {
        n := n + 1;
      }
    }
  }

  /** bitutil.Select64: the position of the set bit that has k set bits below it. */
  method Select64(w: seq<bool>, k: nat) returns (p: nat)
    requires IsWord(w) && k < Ones(w, 0, |w|)
    ensures p < 64 && w[p] && Ones(w, 0, p) == k
  {
    p := 0;
    var seen := 0;
    while !w[p] || seen < k
      invariant p < 64 && seen == Ones(w, 0, p) && seen + Ones(w, p, |w|) == Ones(w, 0, |w|) && seen <= k
      decreases 64 - p
    {
      OnesSplit(w, 0, p, p + 1);
      assert Ones(w, p, p + 1) == (if w[p] then 1 else 0) + Ones(w, p + 1, p + 1);
      if w[p] {
        seen := seen + 1;
      }
      p := p + 1;
    }
  }
}
