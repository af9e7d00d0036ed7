/** Words to the bytes of a compressed file and back to the same words, with one worker and with many. */
module Compressor {
  import opened Words
  import opened Sums
  import opened Tally
  import opened HuffmanTree
  import opened HuffmanDepth
  import opened DecodeTables
  import opened WordLayout
  import opened Uvarint
  import opened Reencode
  import opened OptimiseCluster
  import opened Intermediate
  import opened HuffmanBook
  import opened SegmentFile
  import opened CompressFile
  import Q = ParallelQueue
  import R = ParallelRun

  const MAX_PATTERN_LEN := 128

  /** The words and the patterns are such as the compressor takes: found matches are occurrences, no pattern is there
      twice or longer than MAX_PATTERN_LEN, lengths are machine words, and there are fewer than Fib(65) symbols, so
      that no code is longer than a machine word. */
  ghost predicate Input(words: seq<Word>, find: Bytes -> seq<Match>, dict: seq<Scored>) {
    && WordsOk(words, find, dict) && DifferentWords(dict) && Symbols(words, find) < Fib(65)
    && (forall c :: 0 <= c < |dict| ==> |dict[c].word| <= MAX_PATTERN_LEN)
    && forall i :: 0 <= i < |words| ==> |words[i].bytes| + 1 < TWO64
  }

  // ---- the sizes of the dictionaries

  lemma {:induction false} UvarintLength(v: nat, n: nat)
    requires n > 0 && v < Scale(1, n)
    ensures |PutUvarint(v)| <= n
  {
    if v >= 128 {
      assert Scale(1, 1) == 128 * Scale(1, 0);
      UvarintLength(v / 128, n - 1);
    }
  }

  lemma WordUvarint(v: nat)
    requires v < TWO64
    ensures |PutUvarint(v)| <= 10
  {
    assert Scale(1, 10) == 0x40_0000_0000_0000_0000;
    UvarintLength(v, 10);
  }

  const MAX_ENTRY := 148

  lemma {:induction false} JoinedSize(blocks: seq<seq<nat>>, n: nat)
    requires n <= |blocks| && forall i :: 0 <= i < |blocks| ==> |blocks[i]| <= MAX_ENTRY
    ensures |Joined(blocks, n)| <= MAX_ENTRY * n
  {
    if n > 0 {
      JoinedSize(blocks, n - 1);
    }
  }

  lemma FibFive(n: nat)
    ensures Fib(n + 5) == 3 * Fib(n) + 5 * Fib(n + 1) && Fib(n + 6) == 5 * Fib(n) + 8 * Fib(n + 1)
  {
    assert Fib(n + 2) == Fib(n) + Fib(n + 1) && Fib(n + 3) == Fib(n + 1) + Fib(n + 2);
    assert Fib(n + 4) == Fib(n + 2) + Fib(n + 3);
    assert Fib(n + 5) == Fib(n + 3) + Fib(n + 4) && Fib(n + 6) == Fib(n + 4) + Fib(n + 5);
  }

  lemma {:induction false} FibFives(k: nat)
    ensures Fib(5 * k) <= Fib(5 * k + 1) <= 2 * Fib(5 * k) && Fib(5 * k) <= Thirteen(k)
  {
    if k > 0 {
      FibFives(k - 1);
      FibFive(5 * (k - 1));
    }
  }

  function Thirteen(k: nat): nat { if k == 0 then 1 else 13 * Thirteen(k - 1) }

  lemma FewSymbols()
    ensures Fib(65) <= 302875106592253
  {
    FibFives(13);
    assert Thirteen(13) == 302875106592253;
  }

  /** A dictionary of n entries, none deeper than a code word is wide. */
  ghost predicate Shallow<T>(d: Dictionary<T>, n: nat) {
    |d.depths| == |d.syms| == n && forall k :: 0 <= k < n ==> d.depths[k] <= 64
  }

  lemma PatternRoom(d: Dictionary<seq<nat>>)
    requires Shallow(d, |d.depths|) && |d.depths| < Fib(65)
    requires forall k :: 0 <= k < |d.syms| ==> |d.syms[k]| <= MAX_PATTERN_LEN
    ensures |PatternBytes(d)| < TWO64
  {
    var blocks := PatternBlocks(d);
    forall i | 0 <= i < |blocks| ensures |blocks[i]| <= MAX_ENTRY {
      WordUvarint(d.depths[i]);
      WordUvarint(|d.syms[i]|);
    }
    JoinedSize(blocks, |blocks|);
    FewSymbols();
  }

  lemma PositionRoom(d: Dictionary<nat>)
    requires Shallow(d, |d.depths|) && |d.depths| < Fib(65) && forall k :: 0 <= k < |d.syms| ==> d.syms[k] < TWO64
    ensures |PositionBytes(d)| < TWO64
  {
    var blocks := PositionBlocks(d);
    forall i | 0 <= i < |blocks| ensures |blocks[i]| <= MAX_ENTRY {
      WordUvarint(d.depths[i]);
      WordUvarint(d.syms[i]);
    }
    JoinedSize(blocks, |blocks|);
    FewSymbols();
  }

  // ---- the two codes

  ghost predicate Alike(ms: seq<Mark>) { AllDifferent(ms) && (AllPositions(ms) || AllUses(ms)) }

  /** Of different positions, and of different patterns, at most n are counted together. */
  ghost predicate Limited(bag: multiset<Mark>, n: nat) {
    forall ms: seq<Mark> {:trigger Alike(ms)} :: Alike(ms) ==> AtMost(ms, bag, n)
  }

  ghost predicate PositionsOk(d: Dictionary<nat>, t: Tree<nat>, posMap: map<nat, nat>) {
    && (forall v :: v in posMap ==> In(t, v)) && (forall k :: 0 <= k < |d.syms| ==> d.syms[k] in posMap)
    && if d.depths == [] then posMap == map[] && t == Leaf(0) else DictionaryOf(d, t)
  }

  lemma PositionTotal(values: seq<nat>, counts: seq<nat>, posMap: map<nat, nat>, uses: seq<nat>, bag: multiset<Mark>,
                      n: nat)
    requires AllDifferent(values) && |counts| == |values| && Tallies(posMap, uses, bag) && Limited(bag, n)
    requires forall i :: 0 <= i < |values| ==> values[i] in posMap && counts[i] == posMap[values[i]]
    ensures Total(counts) <= n
  {
    var ms := seq(|values|, i requires 0 <= i < |values| => Position(values[i]));
    assert Alike(ms);
    forall i | 0 <= i < |ms| ensures Hits(ms, bag)[i] == counts[i] {
      assert ms[i] == Position(values[i]);
    }
    assert Hits(ms, bag) == counts;
  }

  lemma UseTotal(nums: seq<nat>, counts: seq<nat>, posMap: map<nat, nat>, uses: seq<nat>, bag: multiset<Mark>, n: nat)
    requires (forall i, j :: 0 <= i < j < |nums| ==> nums[i] < nums[j]) && |counts| == |nums|
    requires Tallies(posMap, uses, bag) && Limited(bag, n)
    requires forall i :: 0 <= i < |nums| ==> nums[i] < |uses| && counts[i] == uses[nums[i]]
    ensures Total(counts) <= n
  {
    var ms := seq(|nums|, i requires 0 <= i < |nums| => Use(nums[i]));
    assert Alike(ms);
    forall i | 0 <= i < |ms| ensures Hits(ms, bag)[i] == counts[i] {
      assert ms[i] == Use(nums[i]);
    }
    assert Hits(ms, bag) == counts;
  }

  lemma {:induction false} AtLeastOneEach(counts: seq<nat>, n: nat)
    requires n <= |counts| && forall i :: 0 <= i < |counts| ==> counts[i] > 0
    ensures n <= Sum(counts, n)
  {
    if n > 0 {
      AtLeastOneEach(counts, n - 1);
    }
  }

  /** The position code, and the dictionary that is written for it. */
  method PositionBook(posMap: map<nat, nat>, ghost uses: seq<nat>, ghost bag: multiset<Mark>, ghost n: nat)
      returns (pos2code: map<nat, Code>, d: Dictionary<nat>, ghost t: Tree<nat>)
    requires Tallies(posMap, uses, bag) && Limited(bag, n) && n < Fib(65)
    ensures PositionsOk(d, t, posMap) && Shallow(d, |d.depths|) && |d.depths| <= n
    ensures (posMap != map[] ==> HasCodes(pos2code, t))
  {
    var values, counts := ListPositions(posMap);
    PositionTotal(values, counts, posMap, uses, bag, n);
    AtLeastOneEach(counts, |counts|);
    if |values| == 0 {
      assert posMap == map[];
      pos2code, d, t := map[], Dictionary([], []), Leaf(0);
      return;
    }
    var codes;
    codes, d, t := MakeBook(values, counts);
    pos2code := MapCodes(values, codes, t);
    forall v | v in posMap ensures In(t, v) {
      var i :| 0 <= i < |values| && values[i] == v;
      assert CodeIs(codes[i], values[i], t);
    }
  }

  ghost predicate PatternsOk(d: Dictionary<seq<nat>>, t: Tree<seq<nat>>, dict: seq<Scored>) {
    && (forall k :: 0 <= k < |d.syms| ==> exists c :: 0 <= c < |dict| && dict[c].word == d.syms[k])
    && if d.depths == [] then t == Leaf([]) else DictionaryOf(d, t)
  }

  /** The pattern code; when no pattern is used its dictionary is empty. */
  method PatternBook(dict: seq<Scored>, uses: seq<nat>, ghost posMap: map<nat, nat>, ghost bag: multiset<Mark>,
                     ghost n: nat)
      returns (code2pattern: seq<Entry>, d: Dictionary<seq<nat>>, ghost t: Tree<seq<nat>>)
    requires |uses| == |dict| && DifferentWords(dict) && Tallies(posMap, uses, bag) && Limited(bag, n) && n < Fib(65)
    ensures UsedCoded(dict, uses, code2pattern, t) && PatternsOk(d, t, dict) && Shallow(d, |d.depths|)
    ensures |d.depths| <= n
  {
    var nums, values, counts := ListPatterns(dict, uses);
    UseTotal(nums, counts, posMap, uses, bag, n);
    AtLeastOneEach(counts, |counts|);
    var codes: seq<Code>;
    if |values| == 0 {
      codes, d, t := [], Dictionary([], []), Leaf([]);
    } else {
      codes, d, t := MakeBook(values, counts);
    }
    code2pattern := PatternCodes(dict, nums, codes);
    if |values| > 0 {
      PatternsCoded(dict, uses, nums, values, codes, code2pattern, t);
    }
  }

  // ---- the whole file

  function EmptyWords(words: seq<Word>, n: nat): nat
    requires n <= |words|
  {
    if n == 0 then 0 else EmptyWords(words, n - 1) + if words[n - 1].bytes == [] then 1 else 0
  }

  lemma {:induction false} EmptyWordsFew(words: seq<Word>, n: nat)
    requires n <= |words|
    ensures EmptyWords(words, n) <= n
  {
    if n > 0 {
      EmptyWordsFew(words, n - 1);
    }
  }

  /** The file holds the words in their order. */
  ghost predicate Holds(file: seq<nat>, words: seq<Word>, g: Segment, b: Books, forms: seq<Form>, ps: seq<nat>) {
    && FitsFields(g) && file == FileOf(g) && TreesOf(g, b) && !TooDeep(g.patterns.depths)
    && !TooDeep(g.positions.depths)
    && (g.patterns.depths == [] ==> b.patTree == Leaf([])) && (g.positions.depths == [] ==> b.posTree == Leaf(0))
    && In(b.posTree, 0)
    && EncodedTo(g.data, b, words, forms, ps, |words|) && g.wordsCount == |words|
    && g.emptyWordsCount == EmptyWords(words, |words|)
  }

  /** The second half of reducedict: the codes from the counters, the dictionaries, and the re-encoded words. */
  method Encode(s: seq<nat>, posMap: map<nat, nat>, uses: seq<nat>, inCount: nat, emptyWordsCount: nat,
                dict: seq<Scored>,
                ghost bag: multiset<Mark>, ghost words: seq<Word>, ghost find: Bytes -> seq<Match>,
                ghost forms: seq<Form>)
      returns (file: seq<nat>, ghost g: Segment, ghost b: Books, ghost ps: seq<nat>)
    requires Input(words, find, dict) && Written(s, bag, words, find, forms, |words|, dict) && |uses| == |dict|
    requires Tallies(posMap, uses, bag)
    requires inCount == |words| && emptyWordsCount == EmptyWords(words, |words|)
    ensures Holds(file, words, g, b, forms, ps)
  {
    ghost var n := Symbols(words, find);
    AllLimited(bag, words, find, forms);
    var code2pattern, patterns; ghost var patTree;
    code2pattern, patterns, patTree := PatternBook(dict, uses, posMap, bag, n);
    var pos2code, positions; ghost var posTree;
    pos2code, positions, posTree := PositionBook(posMap, uses, bag, n);
    b := Books(posTree, patTree);
    FormsCodable(b, s, bag, words, find, forms, dict, posMap, uses, code2pattern);
    PositionsKnown(s, bag, words, find, forms, dict, posMap, uses);
    var data;
    data, ps := ReencodeAll(s, pos2code, code2pattern, b, words, forms, dict);
    g := Segment(inCount, emptyWordsCount, patterns, positions, data);
    RoomFor(g, b, words, find, dict, posMap);
    file := WriteSegment(Segment(inCount, emptyWordsCount, patterns, positions, data));
  }

  lemma AllLimited(bag: multiset<Mark>, words: seq<Word>, find: Bytes -> seq<Match>, forms: seq<Form>)
    requires BagOk(bag, words, find, forms) && |forms| == |words|
    ensures Limited(bag, Symbols(words, find))
  {
    forall ms: seq<Mark> | Alike(ms) ensures AtMost(ms, bag, Symbols(words, find)) {
      MarksAtMost(ms, bag, words, find, forms);
    }
  }

  lemma {:induction false} PieceMarkFrom(cover: seq<Piece>, nums: seq<nat>, j: nat, w: seq<nat>, v: nat)
    requires j <= |cover| == |nums| && Covers(w, cover) && Position(v) in PieceMarks(multiset{}, cover, nums, j)
    ensures v <= |w| + 1
  {
    if v == Rel(cover, j - 1) {
      assert WordLayout.Fits(w, cover[j - 1]);
    } else {
      PieceMarkFrom(cover, nums, j - 1, w, v);
    }
  }

  /** Every counted position is a terminator, or no larger than some word; every word has counted some. */
  lemma PositionsKnown(s: seq<nat>, bag: multiset<Mark>, words: seq<Word>, find: Bytes -> seq<Match>, forms: seq<Form>,
                       dict: seq<Scored>,
                       posMap: map<nat, nat>, uses: seq<nat>)
    requires Written(s, bag, words, find, forms, |words|, dict) && Tallies(posMap, uses, bag)
    requires Input(words, find, dict)
    ensures (forall v :: v in posMap ==> v < TWO64) && (words != [] ==> 0 in posMap)
  {
    forall v | v in posMap ensures v < TWO64 {
      assert bag[Position(v)] > 0;
      var i := MergedFrom(Bags(words, forms), |forms|, Position(v));
      assert FormOk(s, words[i], forms[i], dict);
      if Position(v) in MarksOf(forms[i].c) {
        PieceMarkFrom(forms[i].c.cover, forms[i].c.nums, |forms[i].c.cover|, words[i].bytes, v);
      }
    }
    if words != [] {
      WordCounted(s, bag, words, find, forms, dict, posMap, uses, 0);
    }
  }

  lemma {:induction false} TwoEach(words: seq<Word>, find: Bytes -> seq<Match>, n: nat)
    requires n <= |words|
    ensures 2 * n <= Sum(SymbolCounts(words, find), n)
  {
    if n > 0 {
      TwoEach(words, find, n - 1);
    }
  }

  lemma RoomFor(g: Segment, b: Books, words: seq<Word>, find: Bytes -> seq<Match>, dict: seq<Scored>,
                posMap: map<nat, nat>)
    requires Input(words, find, dict) && |g.data| % 8 == 0 && g.wordsCount == |words|
    requires g.emptyWordsCount == EmptyWords(words, |words|)
    requires Shallow(g.patterns, |g.patterns.depths|) && |g.patterns.depths| <= Symbols(words, find)
    requires PatternsOk(g.patterns, b.patTree, dict)
    requires Shallow(g.positions, |g.positions.depths|) && |g.positions.depths| <= Symbols(words, find)
    requires PositionsOk(g.positions, b.posTree, posMap)
    requires forall v :: v in posMap ==> v < TWO64
    ensures FitsFields(g) && TreesOf(g, b) && !TooDeep(g.patterns.depths) && !TooDeep(g.positions.depths)
  {
    PatternRoom(g.patterns);
    PositionRoom(g.positions);
    TwoEach(words, find, |words|);
    EmptyWordsFew(words, |words|);
    FewSymbols();
  }

  /** Open the file and read words until there are no more. */
  method Decode(file: seq<nat>, threshold: nat, ghost words: seq<Word>, ghost g: Segment, ghost b: Books,
                ghost forms: seq<Form>, ghost ps: seq<nat>)
      returns (d: Decompressor, out: seq<seq<nat>>)
    requires Holds(file, words, g, b, forms, ps)
    ensures d.Decompressor? && d.wordsCount == |words| && d.emptyWordsCount == EmptyWords(words, |words|)
    ensures Same(out, words, |words|)
  {
    d := NewDecompressor(file, threshold, g, b);
    assert Pow2(0) == 1;
    // A table that is not there is never consulted.
    var posDict := if d.posDict.Some? then d.posDict.value else Dense(0, [Hit(0, 0)]);
    var patternDict := if d.dict.Some? then d.dict.value else Dense(0, [Hit([], 0)]);
    out := DecodeAll(d.data, posDict, patternDict, b, words, forms, ps);
  }

  method CountEmpty(words: seq<Word>) returns (n: nat)
    ensures n == EmptyWords(words, |words|)
  {
    n := 0;
    for i := 0 to |words|
      invariant n == EmptyWords(words, i)
    {
      if |words[i].bytes| == 0 {
        n := n + 1;
      }
    }
  }

  /** Compress with one worker and read back: the same words in the same order. */
  method RoundTrip(words: seq<Word>, find: Bytes -> seq<Match>, dict: seq<Scored>, threshold: nat)
      returns (file: seq<nat>, d: Decompressor, out: seq<seq<nat>>)
    requires Input(words, find, dict)
    ensures d.Decompressor? && d.wordsCount == |words| && d.emptyWordsCount == EmptyWords(words, |words|)
    ensures Same(out, words, |words|)
  {
    var s, posMap, uses; ghost var bag, forms;
    s, posMap, uses, bag, forms := WriteIntermediate(words, find, dict);
    var emptyWordsCount := CountEmpty(words);
    ghost var g, b, ps;
    file, g, b, ps := Encode(s, posMap, uses, |words|, emptyWordsCount, dict, bag, words, find, forms);
    d, out := Decode(file, threshold, words, g, b, forms, ps);
  }

  // ---- with workers

  /** What the workers write and count for a word is the form and the marks of some cover of it. */
  ghost predicate WorkersCover(p: Q.Setup, find: Bytes -> seq<Match>, dict: seq<Scored>) {
    forall i :: 0 <= i < |p.words| && !Bypasses(p.words[i]) ==> exists c: Chosen :: CoversWord(p, i, find, dict, c)
  }

  ghost predicate CoversWord(p: Q.Setup, i: nat, find: Bytes -> seq<Match>, dict: seq<Scored>, c: Chosen)
    requires i < |p.words|
  {
    var w := p.words[i];
    IsForm(Q.Form(p, w), w, c, dict, MatchCount(w, find)) && p.marks(w.bytes) == MarksOf(c)
  }

  lemma WordForm(p: Q.Setup, find: Bytes -> seq<Match>, dict: seq<Scored>, i: nat) returns (c: Chosen)
    requires WorkersCover(p, find, dict) && i < |p.words| && WordOk(p.words[i], find, dict)
    ensures IsForm(Q.Form(p, p.words[i]), p.words[i], c, dict, MatchCount(p.words[i], find))
    ensures Q.Marks(p, p.words[i]) == WordMarks(p.words[i], c)
  {
    if Bypasses(p.words[i]) {
      c := Chosen([], [], p.words[i].bytes);
      PlainForms(p.words[i], dict);
    } else {
      c :| CoversWord(p, i, find, dict, c);
    }
  }

  lemma NextWritten(p: Q.Setup, find: Bytes -> seq<Match>, dict: seq<Scored>, n: nat, file: seq<nat>,
                    bag: multiset<Mark>, forms: seq<Form>)
      returns (more: seq<Form>)
    requires WorkersCover(p, find, dict) && n < |p.words| && WordOk(p.words[n], find, dict)
    requires Written(file, bag, p.words, find, forms, n, dict)
    ensures Written(file + Q.Form(p, p.words[n]), bag + Q.Marks(p, p.words[n]), p.words, find, more, n + 1, dict)
  {
    var c := WordForm(p, find, dict, n);
    WrittenNext(file, bag, Q.Form(p, p.words[n]), p.words, find, forms, n, c, dict);
    more := forms + [Form(|file|, c)];
  }

  /** The forms and marks of all words, whoever handled them, are an intermediate file and its counts. */
  lemma {:induction false} FormsWritten(p: Q.Setup, find: Bytes -> seq<Match>, dict: seq<Scored>, n: nat)
      returns (forms: seq<Form>)
    requires WorkersCover(p, find, dict) && WordsOk(p.words, find, dict) && n <= |p.words|
    ensures Written(Q.Forms(p, n), Q.AllMarks(p, n), p.words, find, forms, n, dict)
  {
    if n == 0 {
      forms := [];
      WrittenNone(p.words, find, dict);
    } else {
      forms := FormsWritten(p, find, dict, n - 1);
      forms := NextWritten(p, find, dict, n - 1, Q.Forms(p, n - 1), Q.AllMarks(p, n - 1), forms);
    }
  }

  lemma UsesKnown(s: seq<nat>, bag: multiset<Mark>, words: seq<Word>, find: Bytes -> seq<Match>, forms: seq<Form>,
                  dict: seq<Scored>)
    requires Written(s, bag, words, find, forms, |words|, dict)
    ensures forall c: nat :: Use(c) in bag ==> c < |dict|
  {
    forall c: nat | Use(c) in bag ensures c < |dict| {
      var i := MergedFrom(Bags(words, forms), |forms|, Use(c));
      assert FormOk(s, words[i], forms[i], dict);
      UseMarkFrom(forms[i].c, dict, |forms[i].c.cover|, c);
    }
  }

  lemma {:induction false} UseMarkFrom(c: Chosen, dict: seq<Scored>, j: nat, u: nat)
    requires FromDict(c, dict) && j <= |c.cover| && Use(u) in PieceMarks(multiset{}, c.cover, c.nums, j)
    ensures u < |dict|
  {
    if u != c.nums[j - 1] {
      UseMarkFrom(c, dict, j - 1, u);
    }
  }

  /** Compress with workers, scheduled in any way, and read back: the same words in the same order. The run has come
      to where no step is possible. */
  method ParallelRoundTrip(p: Q.Setup, find: Bytes -> seq<Match>, dict: seq<Scored>, threshold: nat, last: Q.State,
                           ghost steps: seq<Q.Step>, ghost states: seq<Q.State>)
      returns (file: seq<nat>, d: Decompressor, out: seq<seq<nat>>)
    requires Input(p.words, find, dict) && WorkersCover(p, find, dict)
    requires Q.Run(p, steps, states) && states[|steps|] == last && forall step: Q.Step :: !Q.Enabled(p, last, step)
    ensures d.Decompressor? && d.wordsCount == |p.words| && d.emptyWordsCount == EmptyWords(p.words, |p.words|)
    ensures Same(out, p.words, |p.words|)
  {
    ghost var bag := Q.AllMarks(p, |p.words|);
    R.Parallel(p, steps, states);
    ghost var forms := FormsWritten(p, find, dict, |p.words|);
    UsesKnown(last.file, bag, p.words, find, forms, dict);
    var posMap, uses := TallyAll(Merged(last.bags, |last.bags|), |dict|);
    var emptyWordsCount := CountEmpty(p.words);
    ghost var g, b, ps;
    file, g, b, ps := Encode(last.file, posMap, uses, |p.words|, emptyWordsCount, dict, bag, p.words, find, forms);
    d, out := Decode(file, threshold, p.words, g, b, forms, ps);
  }
}
