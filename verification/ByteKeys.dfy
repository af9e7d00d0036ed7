/** Byte strings in the order of bytes.Compare, and prefixes. */
module ByteKeys {
  type Key = seq<nat>

  predicate Less(a: Key, b: Key)
    decreases |a|
  {
    b != [] && (a == [] || a[0] < b[0] || (a[0] == b[0] && Less(a[1..], b[1..])))
  }

  predicate HasPrefix(k: Key, p: Key) { p <= k }

  lemma {:induction false} LessIrreflexive(a: Key)
    ensures !Less(a, a)
  {
    if a != [] {
      LessIrreflexive(a[1..]);
    }
  }

  lemma {:induction false} LessTotal(a: Key, b: Key)
    ensures a == b || Less(a, b) || Less(b, a)
  {
    if a != [] && b != [] && a[0] == b[0] {
      LessTotal(a[1..], b[1..]);
      assert a == [a[0]] + a[1..] && b == [b[0]] + b[1..];
    }
  }

  lemma {:induction false} LessTransitive(a: Key, b: Key, c: Key)
    requires Less(a, b) && Less(b, c)
    ensures Less(a, c)
  {
    if a != [] && a[0] == b[0] == c[0] {
      LessTransitive(a[1..], b[1..], c[1..]);
    }
  }

  lemma LessAsymmetric(a: Key, b: Key)
    requires Less(a, b)
    ensures !Less(b, a) && a != b
  {
    LessIrreflexive(a);
    if Less(b, a) {
      LessTransitive(a, b, a);
    }
  }

  /** A proper prefix comes first. */
  lemma {:induction false} PrefixLess(p: Key, k: Key)
    requires HasPrefix(k, p) && p != k
    ensures Less(p, k)
  {
    if p != [] {
      assert p[0] == k[0];
      PrefixLess(p[1..], k[1..]);
    }
  }

  /** The keys with a prefix are an interval. */
  lemma {:induction false} PrefixInterval(p: Key, a: Key, b: Key, c: Key)
    requires HasPrefix(a, p) && HasPrefix(c, p) && !Less(b, a) && !Less(c, b)
    ensures HasPrefix(b, p)
  {
    if p != [] {
      assert a[0] == p[0] == c[0];
      assert b != [] && b[0] == p[0];
      PrefixInterval(p[1..], a[1..], b[1..], c[1..]);
      assert p == [p[0]] + p[1..] && b == [b[0]] + b[1..];
    }
  }
}
