/** The second half of reducedict: the intermediate form of every word is read back and
    written with the Huffman codes. */
module Reencode {
  import opened Words
  import opened HuffmanTree
  import opened WordLayout
  import opened HuffmanCoder
  import opened Uvarint

  /** A code as it is handed to the coder. */
  datatype Code = Code(code: nat, codeBits: nat)

  /** A pattern of code2pattern. */
  datatype Entry = Entry(word: seq<nat>, code: Code)

  /** The map holds the codes of exactly the tree's symbols. */
  ghost predicate HasCodes(codes: map<nat, Code>, t: Tree<nat>) {
    && (forall v: nat :: v in codes <==> In(t, v))
    && forall v :: v in codes ==> ToBits(codes[v].code, codes[v].codeBits) == CodeOf(t, v)
  }

  /** Number c of code2pattern is a pattern with a code. */
  ghost predicate CodedPattern(code2pattern: seq<Entry>, c: nat, t: Tree<seq<nat>>) {
    && c < |code2pattern| && In(t, code2pattern[c].word)
    && ToBits(code2pattern[c].code.code, code2pattern[c].code.codeBits) == CodeOf(t, code2pattern[c].word)
  }

  // ---- the intermediate form

  /** Where the entry of piece j starts. */
  ghost function EntryPos(at: nat, w: seq<nat>, cover: seq<Piece>, nums: seq<nat>, j: nat): nat
    requires j <= |cover| == |nums|
  {
    if j == 0 then at + |PutUvarint(|w|)| + |PutUvarint(|cover|)|
    else EntryPos(at, w, cover, nums, j - 1) + |PutUvarint(cover[j - 1].start)| + |PutUvarint(nums[j - 1])|
  }

  ghost predicate EntryAt(s: seq<nat>, at: nat, w: seq<nat>, cover: seq<Piece>, nums: seq<nat>, j: nat)
    requires j < |cover| == |nums|
  {
    && BytesAt(s, EntryPos(at, w, cover, nums, j), PutUvarint(cover[j].start))
    && BytesAt(s, EntryPos(at, w, cover, nums, j) + |PutUvarint(cover[j].start)|, PutUvarint(nums[j]))
  }

  /** The characters of gap j among all uncovered characters. */
  ghost predicate GapIn(raw: seq<nat>, w: seq<nat>, cover: seq<Piece>, j: nat)
    requires j <= |cover|
  {
    && Gaps(w, cover, j) + Gap(w, cover, j) <= |raw| && Covered(cover, j) + Gap(w, cover, j) <= |w|
    && forall m :: Covered(cover, j) <= m < Covered(cover, j) + Gap(w, cover, j) ==>
         raw[Gaps(w, cover, j) + (m - Covered(cover, j))] == w[m]
  }

  ghost predicate Uncovered(raw: seq<nat>, w: seq<nat>, cover: seq<Piece>) {
    |raw| == Gaps(w, cover, |cover| + 1) && forall j :: 0 <= j <= |cover| ==> GapIn(raw, w, cover, j)
  }

  /** The intermediate form of a word from position `at` on: its length, the number of its
      patterns, a start and a pattern number each, and the uncovered characters. */
  ghost predicate IntermediateAt(s: seq<nat>, at: nat, w: seq<nat>, cover: seq<Piece>, nums: seq<nat>, raw: seq<nat>) {
    && |nums| == |cover| && BytesAt(s, at, PutUvarint(|w|))
    && (w != [] ==>
          && BytesAt(s, at + |PutUvarint(|w|)|, PutUvarint(|cover|))
          && (forall j :: 0 <= j < |cover| ==> EntryAt(s, at, w, cover, nums, j))
          && BytesAt(s, EntryPos(at, w, cover, nums, |cover|), raw) && Uncovered(raw, w, cover))
  }

  ghost function IntermediateEnd(at: nat, w: seq<nat>, cover: seq<Piece>, nums: seq<nat>, raw: seq<nat>): nat
    requires |nums| == |cover|
  {
    if w == [] then at + |PutUvarint(0)| else EntryPos(at, w, cover, nums, |cover|) + |raw|
  }

  // ---- what has been written

  lemma HereGrows(s: seq<bool>, s': seq<bool>, k: nat, bits: seq<bool>)
    requires Here(s, k, bits) && s <= s'
    ensures Here(s', k, bits)
  {
  }

  lemma HereAppended(s: seq<bool>, bits: seq<bool>)
    ensures Here(s + bits, |s|, bits)
  {
  }

  /** The codes of the first j pieces are written. */
  ghost predicate CodesTo(s: seq<bool>, b: Books, w: seq<nat>, cover: seq<Piece>, p: nat, j: nat)
    requires j <= |cover|
  {
    && |s| == BitPos(b, w, cover, p, j) && Here(s, 8 * p, CodeOf(b.posTree, |w| + 1))
    && (forall i :: 0 <= i < j ==> PosAt(s, b, w, cover, p, i))
    && forall i :: 0 <= i < j ==> PatternAt(s, b, w, cover, p, i)
  }

  lemma {:induction false} CodesGrow(s: seq<bool>, s': seq<bool>, b: Books, w: seq<nat>, cover: seq<Piece>, p: nat,
                                     j: nat)
    requires j <= |cover| && CodesTo(s, b, w, cover, p, j) && s <= s'
    ensures Here(s', 8 * p, CodeOf(b.posTree, |w| + 1))
    ensures forall i :: 0 <= i < j ==> PosAt(s', b, w, cover, p, i)
    ensures forall i :: 0 <= i < j ==> PatternAt(s', b, w, cover, p, i)
  {
    forall i | 0 <= i < j ensures PosAt(s', b, w, cover, p, i) {
      assert PosAt(s, b, w, cover, p, i);
    }
    forall i | 0 <= i < j ensures PatternAt(s', b, w, cover, p, i) {
      assert PatternAt(s, b, w, cover, p, i);
    }
  }

  lemma {:induction false} CodesNext(s: seq<bool>, b: Books, w: seq<nat>, cover: seq<Piece>, p: nat, j: nat)
    requires j < |cover| && CodesTo(s, b, w, cover, p, j) && In(b.posTree, PosOf(cover, j))
    requires In(b.patTree, cover[j].pattern)
    ensures CodesTo(s + CodeOf(b.posTree, PosOf(cover, j)) + CodeOf(b.patTree, cover[j].pattern), b, w, cover, p, j + 1)
  {
    var s1 := s + CodeOf(b.posTree, PosOf(cover, j));
    var s2 := s1 + CodeOf(b.patTree, cover[j].pattern);
    CodesGrow(s, s2, b, w, cover, p, j);
    HereAppended(s, CodeOf(b.posTree, PosOf(cover, j)));
    HereGrows(s1, s2, |s|, CodeOf(b.posTree, PosOf(cover, j)));
    HereAppended(s1, CodeOf(b.patTree, cover[j].pattern));
    assert PosAt(s2, b, w, cover, p, j) && PatternAt(s2, b, w, cover, p, j);
  }

  /** The characters behind the codes are where the layout has them. */
  lemma {:induction false} RawBack(bytes: seq<nat>, s: seq<bool>, x: nat, i: nat)
    requires Here(s, 8 * x, Raw(bytes)) && i < |bytes| && bytes[i] < 256
    ensures 8 * (x + i) + 8 <= |s| && ByteOf(s, x + i) == bytes[i]
    decreases |bytes|
  {
    var n := |bytes| - 1;
    var init := bytes[..n];
    HereConcat(s, 8 * x, Raw(init), ToBits(bytes[n], 8));
    if i < n {
      RawBack(init, s, x, i);
    } else {
      NumberBack(s, 8 * (x + n), bytes[n], 8);
    }
  }

  lemma {:induction false} NumberBack(s: seq<bool>, k: nat, v: nat, n: nat)
    requires Here(s, k, ToBits(v, n)) && v < Pow2(n)
    ensures Number(s, k, k + n) == v
    decreases n
  {
    if n > 0 {
      var rest := ToBits(v / 2, n - 1);
      assert ToBits(v, n)[0] == s[k + 0];
      forall i | 0 <= i < n - 1 ensures rest[i] == s[k + 1 + i] {
        assert ToBits(v, n)[i + 1] == s[k + (i + 1)];
      }
      NumberBack(s, k + 1, v / 2, n - 1);
    }
  }

  lemma {:induction false} GapWritten(s: seq<bool>, b: Books, w: seq<nat>, cover: seq<Piece>, p: nat, raw: seq<nat>,
                                      j: nat)
    requires j <= |cover| && GapIn(raw, w, cover, j) && Here(s, 8 * RawStart(b, w, cover, p), Raw(raw))
    requires forall i :: 0 <= i < |raw| ==> raw[i] < 256
    ensures GapAt(s, b, w, cover, p, j)
  {
    var x, i, n := RawStart(b, w, cover, p) + Gaps(w, cover, j), Covered(cover, j), Gap(w, cover, j);
    assert 8 * (x + n) <= |s|;
    forall m | i <= m < i + n ensures ByteOf(s, x + (m - i)) == w[m] {
      RawBack(raw, s, RawStart(b, w, cover, p), Gaps(w, cover, j) + (m - i));
    }
  }

  // ---- re-encoding

  /** Everything that the word needs has a code. */
  ghost predicate Codable(b: Books, w: seq<nat>, cover: seq<Piece>, nums: seq<nat>, code2pattern: seq<Entry>) {
    && |nums| == |cover| && In(b.posTree, |w| + 1) && In(b.posTree, 0)
    && forall j :: 0 <= j < |cover| ==> PieceCodable(b, cover, nums, code2pattern, j)
  }

  ghost predicate PieceCodable(b: Books, cover: seq<Piece>, nums: seq<nat>, code2pattern: seq<Entry>, j: nat)
    requires j < |cover| == |nums|
  {
    && In(b.posTree, Rel(cover, j)) && CodedPattern(code2pattern, nums[j], b.patTree)
    && code2pattern[nums[j]].word == cover[j].pattern
  }

  /** pos2code[v], if there is one, goes to the coder. */
  method EncodePos(coder: Coder, pos2code: map<nat, Code>, v: nat, ghost t: Tree<nat>)
    requires coder.Valid() && HasCodes(pos2code, t) && In(t, v)
    modifies coder
    ensures coder.Valid() && coder.Bits() == old(coder.Bits()) + CodeOf(t, v)
  {
    if v in pos2code {
      coder.Encode(pos2code[v].code, pos2code[v].codeBits);
    }
  }

  /** The codes of all pieces, and the count of uncovered characters before the last one's
      end. */
  method ReencodePieces(coder: Coder, s: seq<nat>, first: nat, pNum: nat, pos2code: map<nat, Code>,
                        code2pattern: seq<Entry>,
                        ghost b: Books, ghost at: nat, ghost w: seq<nat>, ghost cover: seq<Piece>,
                        ghost nums: seq<nat>, ghost raw: seq<nat>, ghost p: nat)
      returns (next: nat, lastUncovered: nat, uncoveredCount: nat)
    requires coder.Valid() && CodesTo(coder.Bits(), b, w, cover, p, 0) && pNum == |cover| && w != []
    requires IntermediateAt(s, at, w, cover, nums, raw) && first == EntryPos(at, w, cover, nums, 0)
    requires HasCodes(pos2code, b.posTree) && Covers(w, cover) && Codable(b, w, cover, nums, code2pattern)
    modifies coder
    ensures coder.Valid() && CodesTo(coder.Bits(), b, w, cover, p, |cover|) && old(coder.Bits()) <= coder.Bits()
    ensures next == EntryPos(at, w, cover, nums, |cover|)
    ensures lastUncovered == Covered(cover, |cover|) && uncoveredCount == Gaps(w, cover, |cover|)
  {
    next, lastUncovered, uncoveredCount := first, 0, 0;
    var lastPos := 0;
    for i := 0 to pNum
      invariant coder.Valid() && CodesTo(coder.Bits(), b, w, cover, p, i) && old(coder.Bits()) <= coder.Bits()
      invariant next == EntryPos(at, w, cover, nums, i) && lastPos == Start(cover, i)
      invariant lastUncovered == Covered(cover, i) && uncoveredCount == Gaps(w, cover, i)
    {
      var pos, code;
      pos, code, next := ReadEntry(s, next, at, w, cover, nums, raw, i);
      ghost var before := coder.Bits();
      PieceCodes(b, w, cover, nums, code2pattern, i);
      EncodePos(coder, pos2code, pos - lastPos + 1, b.posTree);
      lastPos := pos;
      var patternCode := code2pattern[code];
      uncoveredCount := AddGap(uncoveredCount, lastUncovered, pos);
      lastUncovered := pos + |patternCode.word|;
      coder.Encode(patternCode.code.code, patternCode.code.codeBits);
      CodesNext(before, b, w, cover, p, i);
    }
  }

  lemma PieceCodes(b: Books, w: seq<nat>, cover: seq<Piece>, nums: seq<nat>, code2pattern: seq<Entry>, j: nat)
    requires Codable(b, w, cover, nums, code2pattern) && Covers(w, cover) && j < |cover|
    ensures PieceCodable(b, cover, nums, code2pattern, j) && Start(cover, j) <= cover[j].start
    ensures PosOf(cover, j) == cover[j].start - Start(cover, j) + 1
  {
    assert InOrder(cover, j);
  }

  method ReadEntry(s: seq<nat>, from: nat, ghost at: nat, ghost w: seq<nat>, ghost cover: seq<Piece>,
                   ghost nums: seq<nat>, ghost raw: seq<nat>, ghost j: nat)
      returns (pos: nat, code: nat, next: nat)
    requires IntermediateAt(s, at, w, cover, nums, raw) && w != [] && j < |cover|
    requires from == EntryPos(at, w, cover, nums, j)
    ensures pos == cover[j].start && code == nums[j] && next == EntryPos(at, w, cover, nums, j + 1)
  {
    assert EntryAt(s, at, w, cover, nums, j);
    pos, next := ReadUvarint(s, from, cover[j].start);
    code, next := ReadUvarint(s, next, nums[j]);
  }

  /** One word of the intermediate file becomes one word of the compressed file. */
  method ReencodeWord(coder: Coder, s: seq<nat>, at: nat, pos2code: map<nat, Code>, code2pattern: seq<Entry>,
                      ghost b: Books, ghost w: seq<nat>, ghost cover: seq<Piece>, ghost nums: seq<nat>,
                      ghost raw: seq<nat>, ghost p: nat)
      returns (next: nat)
    requires coder.Valid() && coder.outputBits == 0 && |coder.w| == 8 * p
    requires IntermediateAt(s, at, w, cover, nums, raw) && forall i :: 0 <= i < |raw| ==> raw[i] < 256
    requires HasCodes(pos2code, b.posTree) && Covers(w, cover) && Codable(b, w, cover, nums, code2pattern)
    modifies coder
    ensures coder.Valid() && coder.outputBits == 0 && old(coder.w) <= coder.w && |coder.w| == 8 * End(b, w, cover, p)
    ensures EncodedAt(coder.w, b, w, cover, p) && next == IntermediateEnd(at, w, cover, nums, raw)
  {
    var l;
    l, next := ReadUvarint(s, at, |w|);
    EncodePos(coder, pos2code, l + 1, b.posTree);
    if l == 0 {
      coder.Flush();
    } else {
      var pNum;
      pNum, next := ReadUvarint(s, next, |cover|);
      next := ReencodeBody(coder, s, next, l, pNum, pos2code, code2pattern, b, at, w, cover, nums, raw, p);
    }
  }

  /** What follows the length of a word that is not empty. */
  method ReencodeBody(coder: Coder, s: seq<nat>, first: nat, l: nat, pNum: nat, pos2code: map<nat, Code>,
                      code2pattern: seq<Entry>,
                      ghost b: Books, ghost at: nat, ghost w: seq<nat>, ghost cover: seq<Piece>,
                      ghost nums: seq<nat>, ghost raw: seq<nat>, ghost p: nat)
      returns (next: nat)
    requires coder.Valid() && CodesTo(coder.Bits(), b, w, cover, p, 0) && pNum == |cover| && w != [] && l == |w|
    requires IntermediateAt(s, at, w, cover, nums, raw) && first == EntryPos(at, w, cover, nums, 0)
    requires forall i :: 0 <= i < |raw| ==> raw[i] < 256
    requires HasCodes(pos2code, b.posTree) && Covers(w, cover) && Codable(b, w, cover, nums, code2pattern)
    modifies coder
    ensures coder.Valid() && coder.outputBits == 0 && old(coder.Bits()) <= coder.w
    ensures |coder.w| == 8 * End(b, w, cover, p)
    ensures EncodedAt(coder.w, b, w, cover, p) && next == EntryPos(at, w, cover, nums, |cover|) + |raw|
  {
    var lastUncovered, uncoveredCount;
    next, lastUncovered, uncoveredCount := ReencodePieces(coder, s, first, pNum, pos2code, code2pattern, b, at, w,
        cover, nums, raw, p);
    uncoveredCount := AddGap(uncoveredCount, lastUncovered, l);
    ghost var codes := coder.Bits();
    EncodePos(coder, pos2code, 0, b.posTree);
    coder.Flush();
    ghost var flushed := coder.Bits();
    var uncovered := Copied(s, next, uncoveredCount, raw);
    coder.Write(uncovered);
    WordWritten(codes, flushed, coder.w, b, w, cover, p, raw);
    next := next + uncoveredCount;
  }

  /** io.CopyN. */
  method Copied(s: seq<nat>, from: nat, n: nat, ghost raw: seq<nat>) returns (r: seq<nat>)
    requires BytesAt(s, from, raw) && n == |raw|
    ensures r == raw
  {
    r := s[from..from + n];
  }

  lemma {:induction false} WordWritten(codes: seq<bool>, flushed: seq<bool>, s: seq<bool>, b: Books, w: seq<nat>,
                                       cover: seq<Piece>, p: nat, raw: seq<nat>)
    requires w != [] && Covers(w, cover) && In(b.posTree, |w| + 1) && In(b.posTree, 0)
    requires CodesTo(codes, b, w, cover, p, |cover|)
    requires codes + CodeOf(b.posTree, 0) <= flushed && |flushed| == 8 * NextByte(|codes + CodeOf(b.posTree, 0)|)
    requires s == flushed + Raw(raw)
    requires Uncovered(raw, w, cover) && forall i :: 0 <= i < |raw| ==> raw[i] < 256
    ensures EncodedAt(s, b, w, cover, p) && |s| == 8 * End(b, w, cover, p)
  {
    CodesGrow(codes, s, b, w, cover, p, |cover|);
    HereAppended(codes, CodeOf(b.posTree, 0));
    HereGrows(codes + CodeOf(b.posTree, 0), s, |codes|, CodeOf(b.posTree, 0));
    HereAppended(flushed, Raw(raw));
    forall j | 0 <= j <= |cover| ensures PosAt(s, b, w, cover, p, j) {
      if j == |cover| {
        assert PosOf(cover, j) == 0;
      }
    }
    forall j | 0 <= j <= |cover| ensures GapAt(s, b, w, cover, p, j) {
      assert GapIn(raw, w, cover, j);
      GapWritten(s, b, w, cover, p, raw, j);
    }
  }
}
