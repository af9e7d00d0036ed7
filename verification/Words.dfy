/** Machine words as bit vectors, and the bit streams they pack.

    A uint64 is the sequence of its 64 bits, least significant first, and a
    `[]uint64` is the concatenation of its words, so shifting, masking and
    or-ing are positional and word k is an aligned slice of one long stream. */
module Words {

  const TWO64: nat := 0x1_0000_0000_0000_0000

  function Zeros(n: nat): (r: seq<bool>)
    ensures |r| == n
    ensures forall i :: 0 <= i < n ==> !r[i]
  {
    seq(n, i => false)
  }

  predicate IsWord(w: seq<bool>) { |w| == 64 }

  /** a | b. */
  function Or(a: seq<bool>, b: seq<bool>): (r: seq<bool>)
    requires |a| == |b|
    ensures |r| == |a|
    ensures forall i :: 0 <= i < |a| ==> r[i] == (a[i] || b[i])
  {
    if a == [] then [] else [a[0] || b[0]] + Or(a[1..], b[1..])
  }

  /** a << k; every bit leaves the word once k reaches 64. */
  function Shl(a: seq<bool>, k: nat): (r: seq<bool>)
    requires IsWord(a)
    ensures IsWord(r)
  {
    if k >= 64 then Zeros(64) else Zeros(k) + a[..64 - k]
  }

  /** a >> k. */
  function Shr(a: seq<bool>, k: nat): (r: seq<bool>)
    requires IsWord(a)
    ensures IsWord(r)
  {
    if k >= 64 then Zeros(64) else a[k..] + Zeros(k)
  }

  /** 1 << k. */
  function Bit(k: nat): (r: seq<bool>)
    requires k < 64
    ensures IsWord(r)
  {
    Zeros(k) + [true] + Zeros(63 - k)
  }

  /** data[k]. */
  function WordAt(data: seq<bool>, k: nat): (r: seq<bool>)
    requires 64 * k + 64 <= |data|
    ensures IsWord(r)
  {
    data[64 * k..64 * k + 64]
  }

  /** data[k] = w. */
  function SetWord(data: seq<bool>, k: nat, w: seq<bool>): (r: seq<bool>)
    requires 64 * k + 64 <= |data| && IsWord(w)
    ensures |r| == |data|
  {
    data[..64 * k] + w + data[64 * k + 64..]
  }

  function Pow2(k: nat): (r: nat)
    ensures r > 0
  {
    if k == 0 then 1 else 2 * Pow2(k - 1)
  }

  /** The low n bits of v, least significant first. */
  function ToBits(v: nat, n: nat): (r: seq<bool>)
    ensures |r| == n
  {
    if n == 0 then [] else [v % 2 == 1] + ToBits(v / 2, n - 1)
  }

  /** v & ((1 << n) - 1) as a word. */
  function LowWord(v: nat, n: nat): (r: seq<bool>)
    requires n <= 64
    ensures IsWord(r)
  {
    ToBits(v, n) + Zeros(64 - n)
  }

  /** v >> g. */
  function High(v: nat, g: nat): nat {
    if g == 0 then v else High(v / 2, g - 1)
  }

  /** (high << g) | the g bits of data from f on, before it is cut to a word. */
  function Combine(high: nat, data: seq<bool>, f: nat, g: nat): nat
    requires f + g <= |data|
    decreases g
  {
    if g == 0 then high else (if data[f] then 1 else 0) + 2 * Combine(high, data, f + 1, g - 1)
  }

  /** data holds the given bits from position k on. */
  ghost predicate Here(data: seq<bool>, k: nat, bits: seq<bool>) {
    k + |bits| <= |data| && forall i :: 0 <= i < |bits| ==> bits[i] == data[k + i]
  }

  lemma HereConcat(data: seq<bool>, k: nat, a: seq<bool>, b: seq<bool>)
    ensures Here(data, k, a + b) <==> Here(data, k, a) && Here(data, k + |a|, b)
  {
    if Here(data, k, a + b) {
      forall i | 0 <= i < |a| ensures a[i] == data[k + i] {
        assert (a + b)[i] == a[i];
      }
      forall i | 0 <= i < |b| ensures b[i] == data[k + |a| + i] {
        assert (a + b)[|a| + i] == b[i];
      }
    }
  }

  /** A number is its high part shifted back, or-ed with its low bits. */
  lemma {:induction false} HighLow(v: nat, data: seq<bool>, f: nat, g: nat)
    requires Here(data, f, ToBits(v, g))
    ensures Combine(High(v, g), data, f, g) == v
    decreases g
  {
    if g > 0 {
      HereConcat(data, f, [v % 2 == 1], ToBits(v / 2, g - 1));
      HighLow(v / 2, data, f + 1, g - 1);
      assert ToBits(v, g)[0] == data[f + 0];
    }
  }

  // ---- counting set bits

  /** The number of set bits of s from i up to j. */
  function Ones(s: seq<bool>, i: nat, j: nat): nat
    requires i <= j <= |s|
    decreases j - i
  {
    if i == j then 0 else (if s[i] then 1 else 0) + Ones(s, i + 1, j)
  }

  /** The position of the first set bit from i on. */
  function NextOne(s: seq<bool>, i: nat): (k: nat)
    requires i <= |s| && Ones(s, i, |s|) > 0
    ensures i <= k < |s| && s[k]
    decreases |s| - i
  {
    if s[i] then i else NextOne(s, i + 1)
  }

  /** The position just past the n-th set bit from i on: where n reads of unary
      numbers leave the reader. */
  function PastOnes(s: seq<bool>, i: nat, n: nat): (k: nat)
    requires i <= |s| && n <= Ones(s, i, |s|)
    ensures i <= k <= |s|
    decreases |s| - i
  {
    if n == 0 then i
    else if s[i] then PastOnes(s, i + 1, n - 1)
    else PastOnes(s, i + 1, n)
  }

  lemma {:induction false} OnesSplit(s: seq<bool>, i: nat, j: nat, k: nat)
    requires i <= j <= k <= |s|
    ensures Ones(s, i, k) == Ones(s, i, j) + Ones(s, j, k)
    decreases j - i
  {
    if i < j {
      OnesSplit(s, i + 1, j, k);
    }
  }

  lemma {:induction false} NoOnes(s: seq<bool>, i: nat, j: nat)
    requires i <= j <= |s|
    ensures Ones(s, i, j) == 0 <==> forall k :: i <= k < j ==> !s[k]
    decreases j - i
  {
    if i < j {
      NoOnes(s, i + 1, j);
    }
  }

  /** Equal stretches have equally many set bits. */
  lemma {:induction false} OnesSame(s: seq<bool>, i: nat, j: nat, t: seq<bool>, d: int)
    requires i <= j <= |s| && 0 <= i + d && j + d <= |t|
    requires forall k :: i <= k < j ==> s[k] == t[k + d]
    ensures Ones(s, i, j) == Ones(t, i + d, j + d)
    decreases j - i
  {
    if i < j {
      OnesSame(s, i + 1, j, t, d);
    }
  }

  lemma {:induction false} NextOneAt(s: seq<bool>, i: nat, p: nat)
    requires i <= p < |s| && s[p] && forall k :: i <= k < p ==> !s[k]
    ensures Ones(s, i, |s|) > 0 && NextOne(s, i) == p
    decreases p - i
  {
    if i < p {
      NextOneAt(s, i + 1, p);
    }
  }

  lemma {:induction false} NextOneIsFirst(s: seq<bool>, i: nat)
    requires i <= |s| && Ones(s, i, |s|) > 0
    ensures forall k :: i <= k < NextOne(s, i) ==> !s[k]
    decreases |s| - i
  {
    if !s[i] {
      NextOneIsFirst(s, i + 1);
    }
  }

  /** Passing a stretch that holds fewer than n set bits only uses up those bits. */
  lemma {:induction false} PastStretch(s: seq<bool>, i: nat, j: nat, n: nat)
    requires i <= j <= |s| && Ones(s, i, j) < n <= Ones(s, i, |s|)
    ensures n - Ones(s, i, j) <= Ones(s, j, |s|)
    ensures PastOnes(s, i, n) == PastOnes(s, j, n - Ones(s, i, j))
    decreases j - i
  {
    if i < j {
      PastStretch(s, i + 1, j, if s[i] then n - 1 else n);
    }
  }

  /** A set bit with n - 1 set bits before it is the n-th. */
  lemma {:induction false} PastOnesAt(s: seq<bool>, i: nat, p: nat, n: nat)
    requires i <= p < |s| && s[p] && n == Ones(s, i, p) + 1
    ensures n <= Ones(s, i, |s|) && PastOnes(s, i, n) == p + 1
    decreases p - i
  {
    if i < p {
      PastOnesAt(s, i + 1, p, if s[i] then n - 1 else n);
    }
  }

  // ---- powers

  function Pow256(n: nat): (r: nat)
    ensures r > 0
  {
    if n == 0 then 1 else 256 * Pow256(n - 1)
  }

  lemma {:induction false} PowerGrows(a: nat, b: nat)
    requires a <= b
    ensures Pow2(a) <= Pow2(b)
  {
    if a < b {
      PowerGrows(a, b - 1);
    }
  }

  lemma {:induction false} PowerOfBytes(n: nat)
    ensures Pow2(8 * n) == Pow256(n)
  {
    if n > 0 {
      PowerOfBytes(n - 1);
      SixteenTimes(8 * n - 8);
      SixteenTimes(8 * n - 4);
    }
  }

  lemma SixteenTimes(n: nat)
    ensures Pow2(n + 4) == 16 * Pow2(n)
  {
    assert Pow2(n + 4) == 2 * Pow2(n + 3) && Pow2(n + 3) == 2 * Pow2(n + 2) && Pow2(n + 2) == 2 * Pow2(n + 1);
  }

  lemma TwoPower64()
    ensures Pow2(64) == TWO64
  {
    var n := 8;
    assert Pow256(8) == TWO64;
    PowerOfBytes(n);
  }
}
