/** Numbers as bytes, the highest first. */
module BigEndian {
  import opened Words
  import opened Uvarint

  /** The last n bytes of v. */
  function ToBytes(v: nat, n: nat): (r: seq<nat>)
    ensures |r| == n && forall i :: 0 <= i < n ==> r[i] < 256
  {
    if n == 0 then [] else ToBytes(v / 256, n - 1) + [v % 256]
  }

  /** The number in the n bytes from i on. */
  function FromBytes(s: seq<nat>, i: nat, n: nat): nat
    requires i + n <= |s|
  {
    if n == 0 then 0 else 256 * FromBytes(s, i, n - 1) + s[i + n - 1]
  }

  lemma {:induction false} BytesBack(s: seq<nat>, i: nat, v: nat, n: nat)
    requires BytesAt(s, i, ToBytes(v, n)) && v < Pow256(n)
    ensures FromBytes(s, i, n) == v
  {
    if n > 0 {
      var b := ToBytes(v / 256, n - 1);
      forall k | 0 <= k < n - 1 ensures s[i + k] == b[k] {
        assert ToBytes(v, n)[k] == b[k];
      }
      assert s[i + (n - 1)] == ToBytes(v, n)[n - 1] == v % 256;
      BytesBack(s, i, v / 256, n - 1);
    }
  }

  lemma BytesWithin(s: seq<nat>, i: nat, whole: seq<nat>, j: nat, bytes: seq<nat>)
    requires BytesAt(s, i, whole) && BytesAt(whole, j, bytes)
    ensures BytesAt(s, i + j, bytes)
  {
    forall k | 0 <= k < |bytes| ensures s[i + j + k] == bytes[k] {
      assert s[i + (j + k)] == whole[j + k];
    }
  }

  /** The low b bytes of the number in k + b bytes. */
  lemma {:induction false} LowBytes(s: seq<nat>, i: nat, k: nat, b: nat) returns (q: nat)
    requires i + k + b <= |s| && AllBytes(s)
    ensures FromBytes(s, i, k + b) == Pow256(b) * q + FromBytes(s, i + k, b) && FromBytes(s, i + k, b) < Pow256(b)
  {
    if b == 0 {
      q := FromBytes(s, i, k);
    } else {
      q := LowBytes(s, i, k, b - 1);
      ProductOfThree(Pow256(b - 1), q);
    }
  }

  lemma ProductOfThree(p: nat, q: nat)
    ensures 256 * p * q == 256 * (p * q)
  {
  }
}
