/** Byte strings, and the variable-length numbers of the intermediate file. */
module Uvarint {

  /** s holds the given bytes from position i on. */
  ghost predicate BytesAt(s: seq<nat>, i: nat, bytes: seq<nat>) {
    i + |bytes| <= |s| && forall k :: 0 <= k < |bytes| ==> s[i + k] == bytes[k]
  }

  ghost predicate AllBytes(s: seq<nat>) { forall i :: 0 <= i < |s| ==> s[i] < 256 }

  /** binary.PutUvarint: 7 bits a byte, lowest first, all but the last marked. */
  function PutUvarint(v: nat): (r: seq<nat>)
    ensures |r| > 0 && forall i :: 0 <= i < |r| ==> r[i] < 256
  {
    if v < 128 then [v] else [v % 128 + 128] + PutUvarint(v / 128)
  }

  /** v * 128^n. */
  function Scale(v: nat, n: nat): nat { if n == 0 then v else 128 * Scale(v, n - 1) }

  lemma {:induction false} ScaleSplit(v: nat, n: nat)
    ensures Scale(v, n) == Scale(v % 128, n) + Scale(v / 128, n + 1)
  {
    if n > 0 {
      ScaleSplit(v, n - 1);
    } else {
      assert Scale(v / 128, 1) == 128 * Scale(v / 128, 0);
    }
  }

  /** binary.ReadUvarint returns the number that was put, and stops behind it. */
  method ReadUvarint(s: seq<nat>, at: nat, ghost v: nat) returns (r: nat, next: nat)
    requires BytesAt(s, at, PutUvarint(v))
    ensures r == v && next == at + |PutUvarint(v)|
  {
    r, next := 0, at;
    var n := 0;
    ghost var rest := v;
    while s[next] >= 128
      invariant at <= next && next + |PutUvarint(rest)| == at + |PutUvarint(v)| && BytesAt(s, next, PutUvarint(rest))
      invariant r + Scale(rest, n) == v
      decreases rest
    {
      ScaleSplit(rest, n);
      ghost var tail := PutUvarint(rest / 128);
      assert rest >= 128 && s[next + 0] == rest % 128 + 128;
      forall k | 0 <= k < |tail| ensures s[next + 1 + k] == tail[k] {
        assert s[next + (k + 1)] == PutUvarint(rest)[k + 1];
      }
      r := r + Scale(s[next] - 128, n);
      rest, next, n := rest / 128, next + 1, n + 1;
    }
    assert s[next + 0] == PutUvarint(rest)[0];
    r, next := r + Scale(s[next], n), next + 1;
  }
}
