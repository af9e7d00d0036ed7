/** The suffixes of a superstring: the filter that keeps those at even places, and the common
    prefixes of neighbours in their order. A superstring has two bytes for each character: 1 and
    the character, or 0 and 0 between words. */
module SuffixLcp {
  import opened ByteKeys
  import opened Sums

  // ---- lists without repetition

  /** Different numbers below n are at most n. */
  lemma {:induction false} AtMost(v: seq<nat>, n: nat)
    requires AllDifferent(v) && forall a {:trigger v[a]} :: 0 <= a < |v| ==> v[a] < n
    ensures |v| <= n
    decreases n
  {
    if |v| > 0 {
      assert v[0] < n;
      if a :| 0 <= a < |v| && v[a] == n - 1 {
        AtMost(RemoveAt(v, a), n - 1);
      } else {
        AtMost(v, n - 1);
      }
    }
  }

  /** A list with all numbers below n has at least n entries. */
  lemma {:induction false} AtLeast(v: seq<nat>, n: nat)
    requires forall p: nat :: p < n ==> p in v
    ensures n <= |v|
    decreases n
  {
    if n > 0 {
      assert n - 1 in v;
      var a :| 0 <= a < |v| && v[a] == n - 1;
      var w := RemoveAt(v, a);
      forall p: nat | p < n - 1 ensures p in w {
        assert p in v;
        var b :| 0 <= b < |v| && v[b] == p;
        assert w[if b < a then b else b - 1] == p;
      }
      AtLeast(w, n - 1);
    }
  }

  // ---- suffixes

  /** The suffix that starts with character p. */
  function Suffix(s: Key, p: nat): Key
    requires 2 * p <= |s|
  {
    s[2 * p..]
  }

  function Flag(s: Key, p: nat): nat
    requires 2 * p < |s|
  {
    s[2 * p]
  }

  function Char(s: Key, p: nat): nat
    requires 2 * p + 1 < |s|
  {
    s[2 * p + 1]
  }

  ghost predicate Superstring(s: Key, n: nat) {
    |s| == 2 * n && forall p {:trigger Flag(s, p)} :: 0 <= p < n ==> Flag(s, p) <= 1
  }

  /** All suffixes in ascending order, as the suffix sorter gives them. */
  ghost predicate SuffixArray(s: Key, sa: seq<nat>) {
    && |sa| == |s| && (forall a {:trigger sa[a]} :: 0 <= a < |sa| ==> sa[a] < |s|)
    && (forall p: nat :: p < |s| ==> p in sa)
    && forall a, b {:trigger Less(s[sa[a]..], s[sa[b]..])} :: 0 <= a < b < |sa| ==> Less(s[sa[a]..], s[sa[b]..])
  }

  /** The suffixes of the characters in ascending order. */
  ghost predicate CharSuffixes(s: Key, f: seq<nat>, n: nat) {
    && |s| == 2 * n && |f| == n && (forall a {:trigger f[a]} :: 0 <= a < n ==> f[a] < n)
    && (forall p: nat :: p < n ==> p in f)
    && forall a, b {:trigger Less(Suffix(s, f[a]), Suffix(s, f[b]))} :: 0 <= a < b < n ==>
        Less(Suffix(s, f[a]), Suffix(s, f[b]))
  }

  lemma {:induction false} SuffixesDiffer(s: Key, sa: seq<nat>, a: nat, b: nat)
    requires SuffixArray(s, sa) && a < b < |sa|
    ensures sa[a] != sa[b]
  {
    assert Less(s[sa[a]..], s[sa[b]..]);
    LessIrreflexive(s[sa[a]..]);
  }

  /** The filter after i entries: src lists the places of the even ones. */
  ghost predicate FilteredTo(sa: seq<nat>, f: seq<nat>, src: seq<nat>, i: nat) {
    && i <= |sa| && |f| == |src|
    && (forall a {:trigger src[a]} :: 0 <= a < |src| ==> src[a] < i && sa[src[a]] % 2 == 0 && f[a] == sa[src[a]] / 2)
    && (forall a, b {:trigger src[a], src[b]} :: 0 <= a < b < |src| ==> src[a] < src[b])
    && forall m: nat :: m < i && sa[m] % 2 == 0 ==> m in src
  }

  lemma {:induction false} FilterNext(sa: seq<nat>, f: seq<nat>, src: seq<nat>, i: nat)
    requires FilteredTo(sa, f, src, i) && i < |sa|
    ensures if sa[i] % 2 == 0 then FilteredTo(sa, f + [sa[i] / 2], src + [i], i + 1) else FilteredTo(sa, f, src, i + 1)
  {
    if sa[i] % 2 == 0 {
      forall m: nat | m < i + 1 && sa[m] % 2 == 0 ensures m in src + [i] {
        if m < i {
          assert m in src;
        } else {
          assert (src + [i])[|src|] == m;
        }
      }
    }
  }

  lemma {:induction false} FilteredDiffer(s: Key, sa: seq<nat>, f: seq<nat>, src: seq<nat>, i: nat, n: nat)
    requires SuffixArray(s, sa) && |s| == 2 * n && FilteredTo(sa, f, src, i)
    ensures AllDifferent(f) && (forall a {:trigger f[a]} :: 0 <= a < |f| ==> f[a] < n) && |f| <= n
  {
    forall a {:trigger f[a]} | 0 <= a < |f| ensures f[a] < n {
      assert sa[src[a]] < |s|;
    }
    forall a, b {:trigger f[a], f[b]} | 0 <= a < b < |f| ensures f[a] != f[b] {
      assert src[a] < src[b];
      SuffixesDiffer(s, sa, src[a], src[b]);
    }
    AtMost(f, n);
  }

  /** The filter gives the suffixes of the characters in order. */
  lemma {:induction false} FilteredAll(s: Key, sa: seq<nat>, f: seq<nat>, src: seq<nat>, n: nat)
    requires SuffixArray(s, sa) && |s| == 2 * n && FilteredTo(sa, f, src, |sa|)
    ensures CharSuffixes(s, f, n)
  {
    FilteredDiffer(s, sa, f, src, |sa|, n);
    forall p: nat | p < n ensures p in f {
      assert 2 * p in sa;
      var m: nat :| m < |sa| && sa[m] == 2 * p;
      assert m in src;
      var a :| 0 <= a < |src| && src[a] == m;
      assert f[a] == p;
    }
    AtLeast(f, n);
    forall a, b {:trigger Less(Suffix(s, f[a]), Suffix(s, f[b]))} | 0 <= a < b < n
      ensures Less(Suffix(s, f[a]), Suffix(s, f[b])) {
      assert src[a] < src[b];
      assert Less(s[sa[src[a]]..], s[sa[src[b]]..]);
      assert 2 * f[a] == sa[src[a]] && 2 * f[b] == sa[src[b]];
    }
  }

  /** The filter in place: the even entries, halved, move to the front. */
  method FilterEven(ghost s: Key, sa: array<nat>, n: nat)
    requires SuffixArray(s, sa[..]) && |s| == 2 * n
    modifies sa
    ensures CharSuffixes(s, sa[..n], n)
  {
    ghost var was, src: seq<nat> := sa[..], [];
    var j: nat := 0;
    for i := 0 to sa.Length
      invariant j <= i && j <= n && |src| == j && FilteredTo(was, sa[..j], src, i) && sa[i..] == was[i..]
    {
      assert sa[i] == sa[i..][0] == was[i];
      FilterNext(was, sa[..j], src, i);
      if sa[i] % 2 == 0 {
        FilteredDiffer(s, was, sa[..j] + [was[i] / 2], src + [i], i + 1, n);
        ghost var front := sa[..j];
        sa[j] := sa[i] / 2;
        assert sa[..j + 1] == front + [was[i] / 2];
        src := src + [i];
        j := j + 1;
      }
      assert sa[i + 1..] == was[i + 1..];
    }
    FilteredAll(s, was, sa[..j], src, n);
  }

  /** The inverse of the order: where each suffix stands. */
  ghost predicate Inverse(f: seq<nat>, inv: seq<nat>, n: nat) {
    && |f| == n && |inv| == n && (forall p {:trigger inv[p]} :: 0 <= p < n ==> inv[p] < n && f[inv[p]] == p)
    && forall r {:trigger f[r]} :: 0 <= r < n ==> f[r] < n && inv[f[r]] == r
  }

  method Invert(ghost s: Key, f: seq<nat>, inv: array<nat>, n: nat)
    requires CharSuffixes(s, f, n) && inv.Length == n
    modifies inv
    ensures Inverse(f, inv[..], n)
  {
    for i := 0 to n
      invariant forall r {:trigger f[r]} :: 0 <= r < i ==> inv[f[r]] == r
    {
      forall r {:trigger f[r]} | 0 <= r < i ensures f[r] != f[i] {
        assert Less(Suffix(s, f[r]), Suffix(s, f[i]));
        LessIrreflexive(Suffix(s, f[i]));
      }
      inv[f[i]] := i;
    }
    forall p {:trigger inv[..][p]} | 0 <= p < n ensures inv[..][p] < n && f[inv[..][p]] == p {
      var q: nat := p;
      assert q in f;
      var r :| 0 <= r < n && f[r] == p;
      assert inv[f[r]] == r;
    }
  }

  // ---- common prefixes

  predicate SameChar(s: Key, p: nat, q: nat)
    requires 2 * p + 1 < |s| && 2 * q + 1 < |s|
  {
    Flag(s, p) != 0 && Flag(s, q) != 0 && Char(s, p) == Char(s, q)
  }

  /** The first k characters from i and from j on agree, and none of them is a separator. */
  ghost predicate Matches(s: Key, n: nat, i: nat, j: nat, k: nat) {
    && |s| == 2 * n && i + k <= n && j + k <= n
    && forall t {:trigger Agree(s, i, j, t)} :: 0 <= t < k ==> Agree(s, i, j, t)
  }

  ghost predicate Agree(s: Key, i: nat, j: nat, t: nat)
    requires 2 * (i + t) + 1 < |s| && 2 * (j + t) + 1 < |s|
  {
    SameChar(s, i + t, j + t)
  }

  /** k is the number of characters that agree. */
  ghost predicate Exactly(s: Key, n: nat, i: nat, j: nat, k: nat) {
    Matches(s, n, i, j, k) && (i + k < n && j + k < n ==> !SameChar(s, i + k, j + k))
  }

  /** The bytes of matching characters agree. */
  lemma {:induction false} MatchingBytes(s: Key, n: nat, i: nat, j: nat, k: nat)
    requires Superstring(s, n) && Matches(s, n, i, j, k)
    ensures HasPrefix(Suffix(s, j), s[2 * i..2 * (i + k)]) && HasPrefix(Suffix(s, i), s[2 * i..2 * (i + k)])
  {
    var p, x, y := s[2 * i..2 * (i + k)], Suffix(s, i), Suffix(s, j);
    forall t | 0 <= t < |p| ensures p[t] == y[t] {
      var c := t / 2;
      assert Flag(s, i + c) <= 1 && Flag(s, j + c) <= 1;
      assert Agree(s, i, j, c);
      assert t == 2 * c || t == 2 * c + 1;
    }
    assert p == y[..|p|];
    assert p == x[..|p|];
  }

  lemma {:induction false} BytesMatch(s: Key, n: nat, i: nat, j: nat, k: nat)
    requires |s| == 2 * n && i + k <= n && j <= n && HasPrefix(Suffix(s, j), s[2 * i..2 * (i + k)])
    requires forall p {:trigger Flag(s, p)} :: i <= p < i + k ==> Flag(s, p) != 0
    ensures Matches(s, n, i, j, k)
  {
    var b, y := s[2 * i..2 * (i + k)], Suffix(s, j);
    assert |b| == 2 * k <= |y|;
    forall t {:trigger Agree(s, i, j, t)} | 0 <= t < k ensures Agree(s, i, j, t) {
      assert Flag(s, i + t) != 0;
      assert b[2 * t] == y[2 * t] == s[2 * (j + t)] && b[2 * t + 1] == y[2 * t + 1] == s[2 * (j + t) + 1];
    }
  }

  /** A suffix between two others has at least their common prefix. */
  lemma {:induction false} Between(s: Key, n: nat, x: nat, y: nat, z: nat, k: nat)
    requires Superstring(s, n) && Matches(s, n, x, z, k) && y <= n && !Less(Suffix(s, y), Suffix(s, x))
    requires !Less(Suffix(s, z), Suffix(s, y))
    ensures Matches(s, n, x, y, k)
  {
    MatchingBytes(s, n, x, z, k);
    PrefixInterval(s[2 * x..2 * (x + k)], Suffix(s, x), Suffix(s, y), Suffix(s, z));
    forall p {:trigger Flag(s, p)} | x <= p < x + k ensures Flag(s, p) != 0 {
      assert Agree(s, x, z, p - x);
    }
    BytesMatch(s, n, x, y, k);
  }

  /** Without their first character, which agrees, two suffixes are in the same order. */
  lemma {:induction false} OneLess(s: Key, n: nat, i: nat, j: nat, k: nat)
    requires Superstring(s, n) && Matches(s, n, i, j, k) && k > 0 && Less(Suffix(s, i), Suffix(s, j))
    ensures Matches(s, n, i + 1, j + 1, k - 1) && Less(Suffix(s, i + 1), Suffix(s, j + 1))
  {
    assert Flag(s, i) <= 1 && Flag(s, j) <= 1 && Agree(s, i, j, 0);
    forall t {:trigger Agree(s, i + 1, j + 1, t)} | 0 <= t < k - 1 ensures Agree(s, i + 1, j + 1, t) {
      assert Agree(s, i, j, t + 1);
    }
    var x, y := Suffix(s, i), Suffix(s, j);
    assert x[0] == y[0] && x[1..][0] == y[1..][0];
    assert Less(x[1..], y[1..]) && Less(x[1..][1..], y[1..][1..]);
    assert x[1..][1..] == Suffix(s, i + 1) && y[1..][1..] == Suffix(s, j + 1);
  }

  lemma {:induction false} RankLess(s: Key, f: seq<nat>, inv: seq<nat>, n: nat, p: nat, q: nat)
    requires CharSuffixes(s, f, n) && Inverse(f, inv, n) && p < n && q < n && Less(Suffix(s, p), Suffix(s, q))
    ensures inv[p] < inv[q]
  {
    LessIrreflexive(Suffix(s, p));
    assert f[inv[p]] == p && f[inv[q]] == q;
    if inv[q] < inv[p] {
      assert Less(Suffix(s, f[inv[q]]), Suffix(s, f[inv[p]]));
      LessAsymmetric(Suffix(s, p), Suffix(s, q));
    }
  }

  /** The next suffix in order after that of character i. */
  ghost predicate HasNext(inv: seq<nat>, n: nat, i: nat) { i < |inv| && inv[i] + 1 < n }

  /** The first k characters of a suffix and the next one in order agree. */
  ghost predicate NextMatches(s: Key, f: seq<nat>, inv: seq<nat>, n: nat, i: nat, k: nat) {
    Inverse(f, inv, n) && i < n && inv[i] + 1 < n && Matches(s, n, i, f[inv[i] + 1], k)
  }

  /** Kasai's argument: what is left of the common prefix carries over to the next character. */
  lemma {:induction false} CarriesOver(s: Key, f: seq<nat>, inv: seq<nat>, n: nat, i: nat, k: nat)
    requires Superstring(s, n) && CharSuffixes(s, f, n) && NextMatches(s, f, inv, n, i, k) && i + 1 < n
    requires HasNext(inv, n, i + 1)
    ensures NextMatches(s, f, inv, n, i + 1, if k > 0 then k - 1 else 0)
  {
    if k > 1 {
      assert f[inv[i]] == i;
      assert Less(Suffix(s, f[inv[i]]), Suffix(s, f[inv[i] + 1]));
      OneLess(s, n, i, f[inv[i] + 1], k);
      NextBetween(s, f, inv, n, i + 1, f[inv[i] + 1] + 1, k - 1);
    }
  }

  /** The next suffix is at or before any later one, so it shares as much. */
  lemma {:induction false} NextBetween(s: Key, f: seq<nat>, inv: seq<nat>, n: nat, x: nat, z: nat, k: nat)
    requires Superstring(s, n) && CharSuffixes(s, f, n) && Inverse(f, inv, n) && x < n && z < n && inv[x] + 1 < n
    requires Matches(s, n, x, z, k) && Less(Suffix(s, x), Suffix(s, z))
    ensures Matches(s, n, x, f[inv[x] + 1], k)
  {
    RankLess(s, f, inv, n, x, z);
    assert f[inv[x]] == x && f[inv[z]] == z;
    NotAfter(s, f, n, inv[x], inv[x] + 1);
    NotAfter(s, f, n, inv[x] + 1, inv[z]);
    Between(s, n, x, f[inv[x] + 1], z, k);
  }

  lemma {:induction false} NotAfter(s: Key, f: seq<nat>, n: nat, a: nat, b: nat)
    requires CharSuffixes(s, f, n) && a <= b < n
    ensures !Less(Suffix(s, f[b]), Suffix(s, f[a]))
  {
    LessIrreflexive(Suffix(s, f[a]));
    if a < b {
      assert Less(Suffix(s, f[a]), Suffix(s, f[b]));
      LessAsymmetric(Suffix(s, f[a]), Suffix(s, f[b]));
    }
  }

  /** The inner loop: from k matching characters to all of them. */
  method Extend(s: Key, n: nat, i: nat, j: nat, start: nat) returns (k: nat)
    requires Matches(s, n, i, j, start)
    ensures Exactly(s, n, i, j, k)
  {
    k := start;
    while i + k < n && j + k < n && SameChar(s, i + k, j + k)
      invariant Matches(s, n, i, j, k)
      decreases n - i - k
    {
      k := k + 1;
    }
  }

  /** The common prefix of the suffix of character p and the next one, where there is one. */
  ghost predicate LcpAt(s: Key, f: seq<nat>, inv: seq<nat>, lcp: seq<nat>, n: nat, p: nat)
    requires Inverse(f, inv, n) && |lcp| == n && p < n
  {
    inv[p] + 1 < n ==> Exactly(s, n, p, f[inv[p] + 1], lcp[inv[p]])
  }

  ghost predicate LcpUpto(s: Key, f: seq<nat>, inv: seq<nat>, lcp: seq<nat>, n: nat, i: nat) {
    && Inverse(f, inv, n) && |lcp| == n && i <= n
    && forall p {:trigger LcpAt(s, f, inv, lcp, n, p)} :: 0 <= p < i ==> LcpAt(s, f, inv, lcp, n, p)
  }

  lemma {:induction false} LcpNext(s: Key, f: seq<nat>, inv: seq<nat>, lcp: seq<nat>, n: nat, i: nat, k: nat)
    requires LcpUpto(s, f, inv, lcp, n, i) && i < n && (inv[i] + 1 < n ==> Exactly(s, n, i, f[inv[i] + 1], k))
    ensures LcpUpto(s, f, inv, if inv[i] + 1 < n then lcp[inv[i] := k] else lcp, n, i + 1)
  {
    var lcp' := if inv[i] + 1 < n then lcp[inv[i] := k] else lcp;
    forall p {:trigger LcpAt(s, f, inv, lcp', n, p)} | 0 <= p < i + 1 ensures LcpAt(s, f, inv, lcp', n, p) {
      if p < i {
        assert LcpAt(s, f, inv, lcp, n, p);
        assert f[inv[p]] == p && f[inv[i]] == i;
      }
    }
  }

  /** Kasai's algorithm: for every rank but the last the exact number of characters that the
      suffix there has in common with the next. The last entry keeps the value that the buffer had,
      although the walk over the drops of lcp reads it at its last step. */
  method Kasai(s: Key, f: seq<nat>, inv: seq<nat>, lcp: array<nat>, n: nat)
    requires Superstring(s, n) && CharSuffixes(s, f, n) && Inverse(f, inv, n) && lcp.Length == n
    modifies lcp
    ensures forall r {:trigger f[r]} :: 0 <= r < n - 1 ==> Exactly(s, n, f[r], f[r + 1], lcp[r])
    ensures n > 0 ==> lcp[n - 1] == old(lcp[n - 1])
  {
    var k: nat := 0;
    for i := 0 to n
      invariant LcpUpto(s, f, inv, lcp[..], n, i) && (n > 0 ==> lcp[n - 1] == old(lcp[n - 1]))
      invariant i < n && HasNext(inv, n, i) ==> NextMatches(s, f, inv, n, i, k)
    {
      ghost var was := lcp[..];
      if inv[i] == n - 1 {
        k := 0;
        LcpNext(s, f, inv, was, n, i, 0);
      } else {
        var j := f[inv[i] + 1];
        k := Extend(s, n, i, j, k);
        LcpNext(s, f, inv, was, n, i, k);
        lcp[inv[i]] := k;
        assert lcp[..] == was[inv[i] := k];
        if i + 1 < n && HasNext(inv, n, i + 1) {
          CarriesOver(s, f, inv, n, i, k);
        }
        if k > 0 {
          k := k - 1;
        }
      }
    }
    forall r {:trigger f[r]} | 0 <= r < n - 1 ensures Exactly(s, n, f[r], f[r + 1], lcp[r]) {
      assert LcpAt(s, f, inv, lcp[..], n, f[r]) && inv[f[r]] == r;
    }
  }
}
