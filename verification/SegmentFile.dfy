/** The compressed file as bytes: two counts, the two dictionaries and the words, as reducedict writes them and
    NewDecompressor reads them. */
module SegmentFile {
  import opened Options
  import opened Words
  import opened Sums
  import opened Uvarint
  import opened BigEndian
  import opened HuffmanTree
  import opened DecodeTables
  import opened WordLayout
  import opened HuffmanCoder
  import opened HuffmanBook

  const MAX_DEPTH := 2048

  /** What the file says; the words as bits, lowest first. */
  datatype Segment = Segment(wordsCount: nat, emptyWordsCount: nat, patterns: Dictionary<seq<nat>>,
      positions: Dictionary<nat>, data: seq<bool>)

  datatype Decompressor =
    | TooShort
    | InvalidDictionary
    | Decompressor(wordsCount: nat, emptyWordsCount: nat, dict: Option<Table<seq<nat>>>, posDict: Option<Table<nat>>,
        data: seq<bool>)

  // ---- bits as bytes

  function Packed(data: seq<bool>): (r: seq<nat>)
    requires |data| % 8 == 0
    ensures |r| == |data| / 8
  {
    if data == [] then [] else var n := |data| - 8; Packed(data[..n]) + [Value(data[n..])]
  }

  lemma {:induction false} RawSnoc(bytes: seq<nat>, v: nat)
    ensures Raw(bytes + [v]) == Raw(bytes) + ToBits(v, 8)
  {
    assert (bytes + [v])[..|bytes|] == bytes;
  }

  lemma {:induction false} PackedBack(data: seq<bool>, k: nat)
    requires |data| == 8 * k
    ensures Raw(Packed(data)) == data
  {
    if k > 0 {
      var n := 8 * (k - 1);
      var init, last := data[..n], data[n..];
      PackedBack(init, k - 1);
      PathBits(last);
      assert Packed(data) == Packed(init) + [Value(last)];
      RawSnoc(Packed(init), Value(last));
      assert data == init + last;
    }
  }

  // ---- blocks of bytes one behind the other

  function Joined(blocks: seq<seq<nat>>, n: nat): seq<nat>
    requires n <= |blocks|
  {
    if n == 0 then [] else Joined(blocks, n - 1) + blocks[n - 1]
  }

  lemma {:induction false} JoinedAt(blocks: seq<seq<nat>>, n: nat, k: nat)
    requires k < n <= |blocks|
    ensures BytesAt(Joined(blocks, n), |Joined(blocks, k)|, blocks[k])
  {
    if k < n - 1 {
      JoinedAt(blocks, n - 1, k);
    }
  }

  ghost predicate NoneEmpty(blocks: seq<seq<nat>>) { forall i :: 0 <= i < |blocks| ==> blocks[i] != [] }

  lemma {:induction false} JoinedGrows(blocks: seq<seq<nat>>, k: nat, n: nat)
    requires k <= n <= |blocks| && NoneEmpty(blocks)
    ensures |Joined(blocks, k)| <= |Joined(blocks, n)| && (k < n ==> |Joined(blocks, k)| < |Joined(blocks, n)|)
  {
    if k < n {
      JoinedGrows(blocks, k, n - 1);
    }
  }

  // ---- the dictionaries

  ghost predicate Sized<T>(d: Dictionary<T>) { |d.depths| == |d.syms| }

  function PatternEntry(depth: nat, word: seq<nat>): (r: seq<nat>)
    ensures r != []
  {
    PutUvarint(depth) + PutUvarint(|word|) + word
  }

  function PositionEntry(depth: nat, pos: nat): (r: seq<nat>)
    ensures r != []
  {
    PutUvarint(depth) + PutUvarint(pos)
  }

  function PatternBlocks(d: Dictionary<seq<nat>>): (r: seq<seq<nat>>)
    requires Sized(d)
    ensures |r| == |d.depths| && NoneEmpty(r)
    ensures forall i :: 0 <= i < |r| ==> r[i] == PatternEntry(d.depths[i], d.syms[i])
  {
    seq(|d.depths|, i requires 0 <= i < |d.depths| => PatternEntry(d.depths[i], d.syms[i]))
  }

  function PositionBlocks(d: Dictionary<nat>): (r: seq<seq<nat>>)
    requires Sized(d)
    ensures |r| == |d.depths| && NoneEmpty(r)
    ensures forall i :: 0 <= i < |r| ==> r[i] == PositionEntry(d.depths[i], d.syms[i])
  {
    seq(|d.depths|, i requires 0 <= i < |d.depths| => PositionEntry(d.depths[i], d.syms[i]))
  }

  function PatternBytes(d: Dictionary<seq<nat>>): seq<nat>
    requires Sized(d)
  {
    Joined(PatternBlocks(d), |d.depths|)
  }

  function PositionBytes(d: Dictionary<nat>): seq<nat>
    requires Sized(d)
  {
    Joined(PositionBlocks(d), |d.depths|)
  }

  // ---- the file

  /** Everything the file says fits the fields it is written to. */
  ghost predicate FitsFields(g: Segment) {
    && Sized(g.patterns) && Sized(g.positions) && |g.data| % 8 == 0 && g.wordsCount < TWO64 && g.emptyWordsCount < TWO64
    && |PatternBytes(g.patterns)| < TWO64 && |PositionBytes(g.positions)| < TWO64
  }

  ghost function FileOf(g: Segment): (r: seq<nat>)
    requires Sized(g.patterns) && Sized(g.positions) && |g.data| % 8 == 0
    ensures |r| >= 32
  {
    var patterns, positions := PatternBytes(g.patterns), PositionBytes(g.positions);
    ToBytes(g.wordsCount, 8) + ToBytes(g.emptyWordsCount, 8) + ToBytes(|patterns|, 8) + patterns
    + ToBytes(|positions|, 8) + positions + Packed(g.data)
  }

  method WritePattern(file: seq<nat>, depth: nat, word: seq<nat>) returns (r: seq<nat>)
    ensures r == file + PatternEntry(depth, word)
  {
    r := file + PutUvarint(depth);
    r := r + PutUvarint(|word|);
    r := r + word;
  }

  method WritePosition(file: seq<nat>, depth: nat, pos: nat) returns (r: seq<nat>)
    ensures r == file + PositionEntry(depth, pos)
  {
    r := file + PutUvarint(depth);
    r := r + PutUvarint(pos);
  }

  method PatternSize(depth: nat, word: seq<nat>) returns (size: nat)
    ensures size == |PatternEntry(depth, word)|
  {
    size := |PutUvarint(depth)| + |PutUvarint(|word|)| + |word|;
  }

  method PositionSize(depth: nat, pos: nat) returns (size: nat)
    ensures size == |PositionEntry(depth, pos)|
  {
    size := |PutUvarint(depth)| + |PutUvarint(pos)|;
  }

  method WritePatterns(file: seq<nat>, d: Dictionary<seq<nat>>) returns (r: seq<nat>)
    requires Sized(d)
    ensures r == file + ToBytes(|PatternBytes(d)|, 8) + PatternBytes(d)
  {
    ghost var blocks := PatternBlocks(d);
    var size := 0;
    for k := 0 to |d.depths|
      invariant size == |Joined(blocks, k)|
    {
      var n := PatternSize(d.depths[k], d.syms[k]);
      assert n == |blocks[k]|;
      size := size + n;
    }
    r := file + ToBytes(size, 8);
    ghost var head := r;
    for k := 0 to |d.depths|
      invariant r == head + Joined(blocks, k)
    {
      r := WritePattern(r, d.depths[k], d.syms[k]);
      Regroup(head, Joined(blocks, k), blocks[k]);
    }
  }

  method WritePositions(file: seq<nat>, d: Dictionary<nat>) returns (r: seq<nat>)
    requires Sized(d)
    ensures r == file + ToBytes(|PositionBytes(d)|, 8) + PositionBytes(d)
  {
    ghost var blocks := PositionBlocks(d);
    var size := 0;
    for k := 0 to |d.depths|
      invariant size == |Joined(blocks, k)|
    {
      var n := PositionSize(d.depths[k], d.syms[k]);
      assert n == |blocks[k]|;
      size := size + n;
    }
    r := file + ToBytes(size, 8);
    ghost var head := r;
    for k := 0 to |d.depths|
      invariant r == head + Joined(blocks, k)
    {
      r := WritePosition(r, d.depths[k], d.syms[k]);
      Regroup(head, Joined(blocks, k), blocks[k]);
    }
  }

  /** The counts and the dictionaries, and behind them what the coder wrote. */
  method WriteSegment(g: Segment) returns (file: seq<nat>)
    requires Sized(g.patterns) && Sized(g.positions) && |g.data| % 8 == 0
    ensures file == FileOf(g)
  {
    file := ToBytes(g.wordsCount, 8) + ToBytes(g.emptyWordsCount, 8);
    file := WritePatterns(file, g.patterns);
    file := WritePositions(file, g.positions);
    file := file + Packed(g.data);
  }

  // ---- reading it

  ghost predicate TooDeep(depths: seq<nat>) { exists i :: 0 <= i < |depths| && depths[i] > MAX_DEPTH }

  lemma BytesOfParts(s: seq<nat>, i: nat, a: seq<nat>, b: seq<nat>)
    requires BytesAt(s, i, a + b)
    ensures BytesAt(s, i, a) && BytesAt(s, i + |a|, b)
  {
    forall k | 0 <= k < |a| ensures s[i + k] == a[k] {
      assert (a + b)[k] == a[k];
    }
    forall k | 0 <= k < |b| ensures s[i + |a| + k] == b[k] {
      assert s[i + (|a| + k)] == (a + b)[|a| + k];
    }
  }

  lemma BytesSlice(s: seq<nat>, i: nat, a: seq<nat>)
    requires BytesAt(s, i, a)
    ensures s[i..i + |a|] == a
  {
  }

  /** One entry of the pattern dictionary. */
  method ReadPattern(data: seq<nat>, at: nat, ghost depth: nat, ghost word: seq<nat>)
      returns (d: nat, r: seq<nat>, next: nat)
    requires BytesAt(data, at, PatternEntry(depth, word))
    ensures d == depth && (d <= MAX_DEPTH ==> r == word && next == at + |PatternEntry(depth, word)|)
  {
    BytesOfParts(data, at, PutUvarint(depth) + PutUvarint(|word|), word);
    BytesOfParts(data, at, PutUvarint(depth), PutUvarint(|word|));
    var i;
    d, i := ReadUvarint(data, at, depth);
    if d > MAX_DEPTH {
      r, next := [], i;
      return;
    }
    var l;
    l, i := ReadUvarint(data, i, |word|);
    BytesSlice(data, i, word);
    r, next := data[i..i + l], i + l;
  }

  method ReadPosition(data: seq<nat>, at: nat, ghost depth: nat, ghost pos: nat) returns (d: nat, r: nat, next: nat)
    requires BytesAt(data, at, PositionEntry(depth, pos))
    ensures d == depth && (d <= MAX_DEPTH ==> r == pos && next == at + |PositionEntry(depth, pos)|)
  {
    BytesOfParts(data, at, PutUvarint(depth), PutUvarint(pos));
    var i;
    d, i := ReadUvarint(data, at, depth);
    if d > MAX_DEPTH {
      r, next := 0, i;
      return;
    }
    r, next := ReadUvarint(data, i, pos);
  }

  /** The entries before block k have been read. */
  ghost predicate ReadTo<T>(d: Dictionary<T>, blocks: seq<seq<nat>>, k: nat, at: nat, depths: seq<nat>, syms: seq<T>) {
    && k <= |blocks| == |d.depths| == |d.syms| && NoneEmpty(blocks) && at == |Joined(blocks, k)|
    && depths == d.depths[..k] && syms == d.syms[..k]
    && forall j :: 0 <= j < k ==> d.depths[j] <= MAX_DEPTH
  }

  /** There is another entry where the bytes are not at their end. */
  lemma Another<T>(d: Dictionary<T>, blocks: seq<seq<nat>>, k: nat, at: nat, depths: seq<nat>, syms: seq<T>)
    requires ReadTo(d, blocks, k, at, depths, syms)
    ensures at <= |Joined(blocks, |blocks|)| && (at < |Joined(blocks, |blocks|)| <==> k < |blocks|)
    ensures k < |blocks| ==> BytesAt(Joined(blocks, |blocks|), at, blocks[k])
  {
    JoinedGrows(blocks, k, |blocks|);
    if k < |blocks| {
      JoinedAt(blocks, |blocks|, k);
    }
  }

  lemma ReadNext<T>(d: Dictionary<T>, blocks: seq<seq<nat>>, k: nat, at: nat, depths: seq<nat>, syms: seq<T>)
    requires ReadTo(d, blocks, k, at, depths, syms) && k < |blocks| && d.depths[k] <= MAX_DEPTH
    ensures ReadTo(d, blocks, k + 1, at + |blocks[k]|, depths + [d.depths[k]], syms + [d.syms[k]])
  {
  }

  lemma ReadAll<T>(d: Dictionary<T>, blocks: seq<seq<nat>>, at: nat, depths: seq<nat>, syms: seq<T>)
    requires ReadTo(d, blocks, |blocks|, at, depths, syms)
    ensures Dictionary(depths, syms) == d && !TooDeep(d.depths)
  {
  }

  method ReadPatterns(data: seq<nat>, ghost d: Dictionary<seq<nat>>) returns (ok: bool, r: Dictionary<seq<nat>>)
    requires Sized(d) && data == PatternBytes(d)
    ensures ok <==> !TooDeep(d.depths)
    ensures ok ==> r == d
  {
    var depths: seq<nat>, patterns: seq<seq<nat>>, i: nat := [], [], 0;
    ghost var blocks, k: nat := PatternBlocks(d), 0;
    Another(d, blocks, k, i, depths, patterns);
    while i < |data|
      invariant ReadTo(d, blocks, k, i, depths, patterns) && (i < |data| <==> k < |blocks|)
      decreases |blocks| - k
    {
      Another(d, blocks, k, i, depths, patterns);
      var depth, pattern, next := ReadPattern(data, i, d.depths[k], d.syms[k]);
      if depth > MAX_DEPTH {
        return false, Dictionary([], []);
      }
      ReadNext(d, blocks, k, i, depths, patterns);
      depths, patterns, i, k := depths + [depth], patterns + [pattern], next, k + 1;
      Another(d, blocks, k, i, depths, patterns);
    }
    ReadAll(d, blocks, i, depths, patterns);
    ok, r := true, Dictionary(depths, patterns);
  }

  method ReadPositions(data: seq<nat>, ghost d: Dictionary<nat>) returns (ok: bool, r: Dictionary<nat>)
    requires Sized(d) && data == PositionBytes(d)
    ensures ok <==> !TooDeep(d.depths)
    ensures ok ==> r == d
  {
    var depths: seq<nat>, poss: seq<nat>, i: nat := [], [], 0;
    ghost var blocks, k: nat := PositionBlocks(d), 0;
    Another(d, blocks, k, i, depths, poss);
    while i < |data|
      invariant ReadTo(d, blocks, k, i, depths, poss) && (i < |data| <==> k < |blocks|)
      decreases |blocks| - k
    {
      Another(d, blocks, k, i, depths, poss);
      var depth, pos, next := ReadPosition(data, i, d.depths[k], d.syms[k]);
      if depth > MAX_DEPTH {
        return false, Dictionary([], []);
      }
      ReadNext(d, blocks, k, i, depths, poss);
      depths, poss, i, k := depths + [depth], poss + [pos], next, k + 1;
      Another(d, blocks, k, i, depths, poss);
    }
    ReadAll(d, blocks, i, depths, poss);
    ok, r := true, Dictionary(depths, poss);
  }

  /** Where everything is in the file. */
  lemma Parts(g: Segment)
    requires FitsFields(g)
    ensures var file, p, q := FileOf(g), |PatternBytes(g.patterns)|, |PositionBytes(g.positions)|;
            && FromBytes(file, 0, 8) == g.wordsCount && FromBytes(file, 8, 8) == g.emptyWordsCount
            && FromBytes(file, 16, 8) == p
            && 24 + p + 8 + q <= |file| && file[24..24 + p] == PatternBytes(g.patterns)
            && FromBytes(file, 24 + p, 8) == q
            && file[24 + p + 8..24 + p + 8 + q] == PositionBytes(g.positions)
            && file[24 + p + 8 + q..] == Packed(g.data)
  {
    var a, b, c, x := ToBytes(g.wordsCount, 8), ToBytes(g.emptyWordsCount, 8), ToBytes(|PatternBytes(g.patterns)|,
        8), PatternBytes(g.patterns);
    var d, y, z := ToBytes(|PositionBytes(g.positions)|, 8), PositionBytes(g.positions), Packed(g.data);
    Placed(a, b, c, x, d, y, z);
    var file := FileOf(g);
    assert Pow256(8) == TWO64;
    BytesBack(file, 0, g.wordsCount, 8);
    BytesBack(file, 8, g.emptyWordsCount, 8);
    BytesBack(file, 16, |x|, 8);
    BytesBack(file, 24 + |x|, |y|, 8);
  }

  lemma Placed(a: seq<nat>, b: seq<nat>, c: seq<nat>, x: seq<nat>, d: seq<nat>, y: seq<nat>, z: seq<nat>)
    requires |a| == |b| == |c| == |d| == 8
    ensures var s := a + b + c + x + d + y + z;
            && BytesAt(s, 0, a) && BytesAt(s, 8, b) && BytesAt(s, 16, c) && BytesAt(s, 24 + |x|, d)
            && |s| == 32 + |x| + |y| + |z|
            && s[24..24 + |x|] == x && s[24 + |x| + 8..24 + |x| + 8 + |y|] == y && s[24 + |x| + 8 + |y|..] == z
  {
  }

  /** The dictionaries list the trees, where there is something to list. */
  ghost predicate TreesOf(g: Segment, b: Books) {
    && (g.patterns.depths != [] ==> DictionaryOf(g.patterns, b.patTree))
    && (g.positions.depths != [] ==> DictionaryOf(g.positions, b.posTree))
  }

  /** What the opened file gives: the counts, a table for each dictionary that is not empty, and the words. */
  ghost predicate Opens(r: Decompressor, g: Segment, b: Books) {
    && r.Decompressor? && r.wordsCount == g.wordsCount && r.emptyWordsCount == g.emptyWordsCount && r.data == g.data
    && (r.dict.Some? <==> g.patterns.depths != []) && (r.dict.Some? ==> TableOk(r.dict.value, b.patTree))
    && (r.posDict.Some? <==> g.positions.depths != []) && (r.posDict.Some? ==> TableOk(r.posDict.value, b.posTree))
  }

  /** NewDecompressor opens what was written, unless a code is deeper than MAX_DEPTH; a file without room for the
      counts and sizes is refused. */
  method NewDecompressor(file: seq<nat>, threshold: nat, ghost g: Segment, ghost b: Books) returns (r: Decompressor)
    requires |file| >= 32 ==> FitsFields(g) && file == FileOf(g) && TreesOf(g, b)
    ensures r.TooShort? <==> |file| < 32
    ensures r.InvalidDictionary? <==> |file| >= 32 && (TooDeep(g.patterns.depths) || TooDeep(g.positions.depths))
    ensures r.Decompressor? ==> Opens(r, g, b)
  {
    if |file| < 32 {
      return TooShort;
    }
    Parts(g);
    var wordsCount, emptyWordsCount := FromBytes(file, 0, 8), FromBytes(file, 8, 8);
    var dictSize := FromBytes(file, 16, 8);
    var ok, patterns := ReadPatterns(file[24..24 + dictSize], g.patterns);
    if !ok {
      return InvalidDictionary;
    }
    var dict := None;
    if dictSize > 0 {
      var table := MakeTable(patterns.depths, patterns.syms, threshold, b.patTree);
      dict := Some(table);
    }
    var pos := 24 + dictSize;
    dictSize := FromBytes(file, pos, 8);
    var positions;
    ok, positions := ReadPositions(file[pos + 8..pos + 8 + dictSize], g.positions);
    if !ok {
      return InvalidDictionary;
    }
    var posDict := None;
    if dictSize > 0 {
      var table := MakeTable(positions.depths, positions.syms, 9, b.posTree);
      posDict := Some(table);
    }
    PackedBack(g.data, |g.data| / 8);
    r := Decompressor(wordsCount, emptyWordsCount, dict, posDict, Raw(file[pos + 8 + dictSize..]));
  }
}
