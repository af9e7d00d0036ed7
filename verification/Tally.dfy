/** The words that reducedict is given, and what it counts: as the maps it keeps and as one bag of marks. */
module Tally {
  import opened Sums
  import opened Uvarint

  type Bytes = seq<nat>

  datatype Word = Word(bytes: Bytes, compress: bool)

  /** No patterns are looked for in the word. */
  predicate Bypasses(w: Word) { w.bytes == [] || !w.compress }

  /** The intermediate form of such a word. */
  function Plain(w: Bytes): Bytes { if w == [] then [0] else PutUvarint(|w|) + [0] + w }

  /** A position code in a posMap, or one more use of a pattern. */
  datatype Mark = Position(n: nat) | Use(pattern: nat)

  /** The two counts every word makes for itself. */
  function LengthMarks(n: nat): multiset<Mark> { multiset{Position(n + 1), Position(0)} }

  function Count(m: map<nat, nat>, k: nat): map<nat, nat> { m[k := if k in m then m[k] + 1 else 1] }

  /** The counters hold exactly the marks of the bag. */
  ghost predicate Tallies(posMap: map<nat, nat>, uses: seq<nat>, bag: multiset<Mark>) {
    && (forall k: nat :: bag[Position(k)] == if k in posMap then posMap[k] else 0)
    && (forall k :: k in posMap ==> posMap[k] > 0)
    && forall c: nat :: bag[Use(c)] == if c < |uses| then uses[c] else 0
  }

  lemma NoneTallied(uses: seq<nat>)
    requires forall c :: 0 <= c < |uses| ==> uses[c] == 0
    ensures Tallies(map[], uses, multiset{})
  {
  }

  lemma PositionTallied(posMap: map<nat, nat>, uses: seq<nat>, bag: multiset<Mark>, k: nat)
    requires Tallies(posMap, uses, bag)
    ensures Tallies(Count(posMap, k), uses, bag + multiset{Position(k)})
  {
  }

  lemma UseTallied(posMap: map<nat, nat>, uses: seq<nat>, bag: multiset<Mark>, c: nat)
    requires Tallies(posMap, uses, bag) && c < |uses|
    ensures Tallies(posMap, uses[c := uses[c] + 1], bag + multiset{Use(c)})
  {
  }

  /** The maps of all workers are added up. */
  method TallyAll(bag: multiset<Mark>, n: nat) returns (posMap: map<nat, nat>, uses: seq<nat>)
    requires forall c: nat :: Use(c) in bag ==> c < n
    ensures Tallies(posMap, uses, bag) && |uses| == n
  {
    posMap, uses := map[], seq(n, _ => 0);
    var rest := bag;
    ghost var done: multiset<Mark> := multiset{};
    while rest != multiset{}
      invariant done + rest == bag && |uses| == n && Tallies(posMap, uses, done)
      decreases |rest|
    {
      var m :| m in rest;
      if m.Position? {
        PositionTallied(posMap, uses, done, m.n);
        posMap := Count(posMap, m.n);
      } else {
        assert m in bag;
        UseTallied(posMap, uses, done, m.pattern);
        uses := uses[m.pattern := uses[m.pattern] + 1];
      }
      done, rest := done + multiset{m}, rest - multiset{m};
    }
  }

  // ---- several bags

  /** The first n bags together. */
  function Merged(bags: seq<multiset<Mark>>, n: nat): multiset<Mark>
    requires n <= |bags|
  {
    if n == 0 then multiset{} else Merged(bags, n - 1) + bags[n - 1]
  }

  lemma {:induction false} MergedSame(bags: seq<multiset<Mark>>, more: seq<multiset<Mark>>, n: nat)
    requires n <= |bags| && bags <= more
    ensures Merged(more, n) == Merged(bags, n)
  {
    if n > 0 {
      MergedSame(bags, more, n - 1);
    }
  }

  lemma MergedSnoc(bags: seq<multiset<Mark>>, b: multiset<Mark>)
    ensures Merged(bags + [b], |bags| + 1) == Merged(bags, |bags|) + b
  {
    MergedSame(bags, bags + [b], |bags|);
  }

  lemma {:induction false} MergedHolds(bags: seq<multiset<Mark>>, n: nat, i: nat, m: Mark)
    requires i < n <= |bags| && m in bags[i]
    ensures m in Merged(bags, n)
  {
    if i < n - 1 {
      MergedHolds(bags, n - 1, i, m);
    }
  }

  lemma {:induction false} MergedFrom(bags: seq<multiset<Mark>>, n: nat, m: Mark) returns (i: nat)
    requires n <= |bags| && m in Merged(bags, n)
    ensures i < n && m in bags[i]
  {
    if m in bags[n - 1] {
      i := n - 1;
    } else {
      i := MergedFrom(bags, n - 1, m);
    }
  }

  // ---- how many marks there are

  ghost function Hits(ms: seq<Mark>, bag: multiset<Mark>): (r: seq<nat>)
    ensures |r| == |ms| && forall i :: 0 <= i < |r| ==> r[i] == bag[ms[i]]
  {
    seq(|ms|, i requires 0 <= i < |ms| => bag[ms[i]])
  }

  lemma {:induction false} HitsAdd(ms: seq<Mark>, a: multiset<Mark>, b: multiset<Mark>, n: nat)
    requires n <= |ms|
    ensures Sum(Hits(ms, a + b), n) == Sum(Hits(ms, a), n) + Sum(Hits(ms, b), n)
  {
    if n > 0 {
      HitsAdd(ms, a, b, n - 1);
    }
  }

  /** One mark is hit once, or not at all. */
  lemma {:induction false} HitsOne(ms: seq<Mark>, m: Mark, n: nat)
    requires n <= |ms| && AllDifferent(ms)
    ensures Sum(Hits(ms, multiset{m}), n) == if m in ms[..n] then 1 else 0
  {
    if n > 0 {
      HitsOne(ms, m, n - 1);
      assert ms[..n] == ms[..n - 1] + [ms[n - 1]];
    }
  }

  /** At most n marks of the bag are among these. */
  ghost predicate AtMost(ms: seq<Mark>, bag: multiset<Mark>, n: nat) { Total(Hits(ms, bag)) <= n }

  lemma AtMostBoth(ms: seq<Mark>, a: multiset<Mark>, i: nat, b: multiset<Mark>, j: nat)
    requires AtMost(ms, a, i) && AtMost(ms, b, j)
    ensures AtMost(ms, a + b, i + j)
  {
    HitsAdd(ms, a, b, |ms|);
  }

  lemma AtMostOne(ms: seq<Mark>, m: Mark)
    requires AllDifferent(ms)
    ensures AtMost(ms, multiset{m}, 1) && (m !in ms ==> AtMost(ms, multiset{m}, 0))
  {
    HitsOne(ms, m, |ms|);
    assert ms[..|ms|] == ms;
  }

  lemma {:induction false} AtMostNone(ms: seq<Mark>, n: nat)
    requires n <= |ms|
    ensures Sum(Hits(ms, multiset{}), n) == 0
  {
    if n > 0 {
      AtMostNone(ms, n - 1);
    }
  }

  lemma {:induction false} MergedAtMost(ms: seq<Mark>, bags: seq<multiset<Mark>>, limits: seq<nat>, n: nat)
    requires n <= |bags| == |limits| && forall i :: 0 <= i < |bags| ==> AtMost(ms, bags[i], limits[i])
    ensures AtMost(ms, Merged(bags, n), Sum(limits, n))
  {
    if n == 0 {
      AtMostNone(ms, |ms|);
    } else {
      MergedAtMost(ms, bags, limits, n - 1);
      AtMostBoth(ms, Merged(bags, n - 1), Sum(limits, n - 1), bags[n - 1], limits[n - 1]);
    }
  }
}
