/** The decompressor's cursor over compressed words. */
module Getter {
  import opened Words
  import opened HuffmanTree
  import opened DecodeTables
  import opened WordLayout

  // ---- uint16 values as 16 bits

  /** uint16(data[p]). */
  function Wide(data: seq<bool>, p: nat): (r: seq<bool>)
    requires 8 * p + 8 <= |data|
    ensures |r| == 16
  {
    seq(16, i requires 0 <= i < 16 => i < 8 && data[8 * p + i])
  }

  function RightShift(w: seq<bool>, k: nat): (r: seq<bool>)
    requires |w| == 16
    ensures |r| == 16
  {
    seq(16, i requires 0 <= i < 16 => i + k < 16 && w[i + k])
  }

  function LeftShift(w: seq<bool>, k: nat): (r: seq<bool>)
    requires |w| == 16
    ensures |r| == 16
  {
    seq(16, i requires 0 <= i < 16 => i >= k && w[i - k])
  }

  /** The next bitLen bits, from one byte or two. */
  function Window(data: seq<bool>, dataP: nat, dataBit: nat, bitLen: nat): (r: seq<bool>)
    requires |data| % 8 == 0 && 8 * dataP < |data| && dataBit < 8 && bitLen <= 9
    ensures |r| == bitLen
  {
    var code := RightShift(Wide(data, dataP), dataBit);
    var more := if 8 - dataBit < bitLen && dataP +
        1 < |data| / 8 then Or(code, LeftShift(Wide(data, dataP + 1), 8 - dataBit)) else code;
    more[..bitLen]
  }

  lemma {:induction false} WindowBits(data: seq<bool>, dataP: nat, dataBit: nat, bitLen: nat)
    requires |data| % 8 == 0 && 8 * dataP < |data| && dataBit < 8 && bitLen <= 9
    ensures Reads(Value(Window(data, dataP, dataBit, bitLen)), bitLen, data, 8 * dataP + dataBit)
    ensures Value(Window(data, dataP, dataBit, bitLen)) < Pow2(bitLen)
  {
    var w, at := Window(data, dataP, dataBit, bitLen), 8 * dataP + dataBit;
    ValueBelow(w);
    forall b | 0 <= b < bitLen ensures BitOf(Value(w), b) == (at + b < |data| && data[at + b]) {
      ValueBit(w, b);
      WindowBit(data, dataP, dataBit, bitLen, b);
    }
  }

  lemma {:induction false} WindowBit(data: seq<bool>, dataP: nat, dataBit: nat, bitLen: nat, b: nat)
    requires |data| % 8 == 0 && 8 * dataP < |data| && dataBit < 8 && b < bitLen <= 9
    ensures var at := 8 * dataP + dataBit + b; Window(data, dataP, dataBit, bitLen)[b] == (at < |data| && data[at])
  {
    var n := |data| / 8;
    assert |data| == 8 * n;
    var first := RightShift(Wide(data, dataP), dataBit);
    if dataBit + b < 8 {
      assert first[b] == data[8 * dataP + dataBit + b];
    } else {
      assert !first[b];
      if dataP + 1 < n {
        assert LeftShift(Wide(data, dataP + 1), 8 - dataBit)[b] == data[8 * (dataP + 1) + (b - (8 - dataBit))];
      }
    }
  }

  /** The cell for the next bits, which start with the path of leaf k of the table's
      tree; where it is a link, the rest of the path leads on in the deeper table. */
  method ReadCell<T>(data: seq<bool>, dataP: nat, dataBit: nat, table: Table<T>, ghost t: Tree<T>, ghost k: nat)
      returns (cell: Cell<T>, ghost t': Tree<T>, ghost k': nat)
    requires |data| % 8 == 0 && dataBit < 8 && TableOk(table, t) && t.Node? && k < Size(t)
    requires Here(data, 8 * dataP + dataBit, Path(t, k))
    ensures cell.Hit? || cell.Link?
    ensures cell.Hit? ==> cell == Hit(Sym(t, k), |Path(t, k)|) && |Path(t, k)| > 0
    ensures cell.Link? ==>
      && TableOk(cell.table, t') && t'.Node? && k' < Size(t') && Sym(t', k') == Sym(t, k)
      && Here(data, 8 * dataP + dataBit + 9, Path(t', k')) && |Path(t, k)| == 9 + |Path(t', k')|
  {
    WindowBits(data, dataP, dataBit, table.bitLen);
    var code := Value(Window(data, dataP, dataBit, table.bitLen));
    cell := Lookup(table, code);
    assert Answers(cell, t, code, 0);
    t', k' := Follow(cell, t, k, code, 0, table.bitLen, data, 8 * dataP + dataBit);
  }

  // ---- filling the word

  /** copy(buf[at:], part). */
  function Patched(buf: seq<nat>, at: nat, part: seq<nat>): (r: seq<nat>)
    ensures |r| == |buf|
  {
    seq(|buf|, i requires 0 <= i < |buf| => if at <= i < at + |part| then part[i - at] else buf[i])
  }

  /** data[from:from+n]. */
  function RawBytes(data: seq<bool>, from: nat, n: nat): (r: seq<nat>)
    requires 8 * (from + n) <= |data|
    ensures |r| == n && forall i :: 0 <= i < n ==> r[i] == ByteOf(data, from + i)
  {
    if n == 0 then [] else RawBytes(data, from, n - 1) + [ByteOf(data, from + n - 1)]
  }

  /** The buffer, as far as it goes, agrees with the word from lo to hi. */
  ghost predicate Agrees(buf: seq<nat>, w: seq<nat>, lo: nat, hi: nat) {
    |buf| <= |w| && hi <= |w| && forall x :: lo <= x < hi && x < |buf| ==> buf[x] == w[x]
  }

  /** The first n pieces are in the buffer. */
  ghost predicate PiecesIn(buf: seq<nat>, w: seq<nat>, cover: seq<Piece>, n: nat) {
    n <= |cover| && forall j :: 0 <= j < n ==> Agrees(buf, w, cover[j].start, cover[j].start + |cover[j].pattern|)
  }

  lemma {:induction false} PieceFilled(buf: seq<nat>, w: seq<nat>, cover: seq<Piece>, n: nat)
    requires Covers(w, cover) && |buf| == |w| && n < |cover| && PiecesIn(buf, w, cover, n)
    ensures PiecesIn(Patched(buf, cover[n].start, cover[n].pattern), w, cover, n + 1)
  {
    var r, p := Patched(buf, cover[n].start, cover[n].pattern), cover[n];
    assert Fits(w, p);
    forall x | p.start <= x < p.start + |p.pattern| ensures r[x] == w[x] {
      assert w[p.start + (x - p.start)] == p.pattern[x - p.start];
    }
    forall j | 0 <= j < n + 1 ensures Agrees(r, w, cover[j].start, cover[j].start + |cover[j].pattern|) {
      assert Fits(w, cover[j]);
    }
  }

  /** Raw characters of the word keep what is right, and add their own range. */
  lemma {:induction false} RawFilled(buf: seq<nat>, w: seq<nat>, cover: seq<Piece>, data: seq<bool>, x: nat, i: nat,
                                     n: nat)
    requires PiecesIn(buf, w, cover, |cover|) && Agrees(buf, w, 0, i) && RawAt(data, x, w, i, n)
    ensures var r := Patched(buf, i, RawBytes(data, x, n)); PiecesIn(r, w, cover, |cover|) && Agrees(r, w, 0, i + n)
  {
    var r := Patched(buf, i, RawBytes(data, x, n));
    forall m | i <= m < i + n && m < |buf| ensures r[m] == w[m] {
      assert ByteOf(data, x + (m - i)) == w[m];
    }
    forall j | 0 <= j < |cover| ensures Agrees(r, w, cover[j].start, cover[j].start + |cover[j].pattern|) {
    }
  }

  /** With the gap before it filled, a piece extends what is right. */
  lemma {:induction false} PieceReached(buf: seq<nat>, w: seq<nat>, cover: seq<Piece>, j: nat)
    requires j < |cover| && PiecesIn(buf, w, cover, |cover|) && Agrees(buf, w, 0, Covered(cover, j) + Gap(w, cover, j))
    ensures Agrees(buf, w, 0, Covered(cover, j + 1))
  {
    var p := cover[j];
    assert Agrees(buf, w, p.start, p.start + |p.pattern|);
  }

  /** Everything before piece j is in the buffer, and all the patterns are. */
  ghost predicate FilledTo(buf: seq<nat>, w: seq<nat>, cover: seq<Piece>, j: nat) {
    j <= |cover| && PiecesIn(buf, w, cover, |cover|) && Agrees(buf, w, 0, Covered(cover, j))
  }

  /** Copy the uncovered characters from lastUncovered to bufPos, if there are any. */
  method CopyGap(buf: seq<nat>, lastUncovered: nat, bufPos: nat, data: seq<bool>, postLoopPos: nat,
                 ghost b: Books, ghost w: seq<nat>, ghost cover: seq<Piece>, ghost p: nat, ghost j: nat)
      returns (r: seq<nat>, pos: nat)
    requires |buf| == |w| && FilledTo(buf, w, cover, j) && GapAt(data, b, w, cover, p, j)
    requires lastUncovered == Covered(cover, j) && bufPos == Until(w, cover, j)
    requires postLoopPos == RawStart(b, w, cover, p) + Gaps(w, cover, j)
    ensures |r| == |w| && pos == RawStart(b, w, cover, p) + Gaps(w, cover, j + 1)
    ensures if j < |cover| then FilledTo(r, w, cover, j + 1) else r == w
  {
    r, pos := buf, postLoopPos;
    if bufPos > lastUncovered {
      var dif := bufPos - lastUncovered;
      RawFilled(buf, w, cover, data, postLoopPos, lastUncovered, dif);
      r := Patched(buf, lastUncovered, RawBytes(data, postLoopPos, dif));
      pos := postLoopPos + dif;
    }
    if j < |cover| {
      PieceReached(r, w, cover, j);
    }
  }

  /**
   * The characters that Next does not copy into a buffer with n bytes before the word: it compares the end of the last
   * pattern, counted from the start of the buffer, with the length of the word, so n of the characters behind it,
   * or all of them, are missing.
   */
  function Lost(n: nat, w: seq<nat>, cover: seq<Piece>): nat {
    if w == [] then 0 else
      var tail := Gap(w, cover, |cover|);
      if n < tail then n else tail
  }

  /** Appending the plain word "ab" to a single byte loses one of its characters. */
  lemma LosesOne()
    ensures Lost(1, [97, 98], []) == 1
  {
  }

  /** Next is right exactly for an empty buffer, an empty word, or a word that ends with a pattern. */
  lemma LosesNone(n: nat, w: seq<nat>, cover: seq<Piece>)
    ensures Lost(n, w, cover) == 0 <==> n == 0 || w == [] || Covered(cover, |cover|) >= |w|
  {
  }

  /** The last gap, as Next copies it. */
  method CopyTail(buf: seq<nat>, before: nat, lastUncovered: nat, data: seq<bool>, postLoopPos: nat,
                  ghost b: Books, ghost w: seq<nat>, ghost cover: seq<Piece>, ghost p: nat)
      returns (r: seq<nat>, pos: nat)
    requires |buf| == |w| > 0 && FilledTo(buf, w, cover, |cover|) && GapAt(data, b, w, cover, p, |cover|)
    requires lastUncovered == Covered(cover, |cover|) <= |w|
    requires postLoopPos == RawStart(b, w, cover, p) + Gaps(w, cover, |cover|)
    ensures |r| == |w| && pos + Lost(before, w, cover) == RawStart(b, w, cover, p) + Gaps(w, cover, |cover| + 1)
    ensures Agrees(r, w, 0, |w| - Lost(before, w, cover))
  {
    r, pos := buf, postLoopPos;
    if |buf| > before + lastUncovered {
      var dif := |buf| - (before + lastUncovered);
      RawFilled(buf, w, cover, data, postLoopPos, lastUncovered, dif);
      r := Patched(buf, lastUncovered, RawBytes(data, postLoopPos, dif));
      pos := postLoopPos + dif;
    }
  }

  /** Compare the uncovered characters from lastUncovered to bufPos, if there are any. */
  method MatchGap(buf: seq<nat>, lastUncovered: nat, bufPos: nat, data: seq<bool>, postLoopPos: nat,
                  ghost b: Books, ghost w: seq<nat>, ghost cover: seq<Piece>, ghost p: nat, ghost j: nat)
      returns (ok: bool, pos: nat)
    requires |buf| == |w| && FilledTo(buf, w, cover, j) && GapAt(data, b, w, cover, p, j)
    requires lastUncovered == Covered(cover, j) && bufPos == Until(w, cover, j)
    requires postLoopPos == RawStart(b, w, cover, p) + Gaps(w, cover, j)
    ensures ok ==> pos == RawStart(b, w, cover, p) + Gaps(w, cover, j + 1)
    ensures ok ==> if j < |cover| then FilledTo(buf, w, cover, j + 1) else buf == w
    ensures !ok ==> buf != w
  {
    ok, pos := true, postLoopPos;
    if bufPos > lastUncovered {
      var dif := bufPos - lastUncovered;
      RawCompared(buf, w, lastUncovered, dif, data, postLoopPos, dif);
      if |buf| < bufPos || !SameBytes(buf, lastUncovered, RawBytes(data, postLoopPos, dif), dif) {
        return false, pos;
      }
      pos := postLoopPos + dif;
    }
    if j < |cover| {
      PieceReached(buf, w, cover, j);
    }
  }

  lemma {:induction false} RawCompared(buf: seq<nat>, w: seq<nat>, at: nat, dif: nat, data: seq<bool>, x: nat, n: nat)
    requires RawAt(data, x, w, at, dif) && |buf| <= |w| && n == if |buf| < at + dif then Between(at, |buf|) else dif
    ensures at + n <= |buf| || n == 0
    ensures Agrees(buf, w, at, at + dif) <==> n == 0 || SameBytes(buf, at, RawBytes(data, x, dif), n)
  {
    var raw := RawBytes(data, x, dif);
    forall i | 0 <= i < dif ensures w[at + i] == raw[i] {
      assert ByteOf(data, x + (at + i - at)) == w[at + i];
    }
    Compared(buf, w, at, raw, n);
  }

  // ---- comparing with the word

  /** bytes.Equal(buf[at:at+n], part[:n]). */
  predicate SameBytes(buf: seq<nat>, at: nat, part: seq<nat>, n: nat)
    requires at + n <= |buf| && n <= |part|
  {
    forall i :: 0 <= i < n ==> buf[at + i] == part[i]
  }

  /** As far as the buffer goes, comparing it with a part of the word that starts at `at`
      tells whether it agrees there. */
  lemma {:induction false} Compared(buf: seq<nat>, w: seq<nat>, at: nat, part: seq<nat>, n: nat)
    requires |buf| <= |w| && at + |part| <= |w| && forall i :: 0 <= i < |part| ==> w[at + i] == part[i]
    requires n == if |buf| < at + |part| then Between(at, |buf|) else |part|
    ensures at + n <= |buf| || n == 0
    ensures Agrees(buf, w, at, at + |part|) <==> n == 0 || SameBytes(buf, at, part, n)
  {
    if Agrees(buf, w, at, at + |part|) && n > 0 {
      forall i | 0 <= i < n ensures buf[at + i] == part[i] {
        assert w[at + i] == part[i];
      }
    }
    if n == 0 || SameBytes(buf, at, part, n) {
      forall x | at <= x < at + |part| && x < |buf| ensures buf[x] == w[x] {
        assert buf[at + (x - at)] == part[x - at] && w[at + (x - at)] == part[x - at];
      }
    }
  }

  /** Compare a pattern with the prefix, as far as the prefix goes. */
  method PrefixPiece(prefix: seq<nat>, bufPos: nat, pattern: seq<nat>, ghost w: seq<nat>, ghost cover: seq<Piece>,
                     ghost j: nat)
      returns (ok: bool)
    requires Covers(w, cover) && j < |cover| && |prefix| <= |w| && PiecesIn(prefix, w, cover, j)
    requires bufPos == cover[j].start && pattern == cover[j].pattern
    ensures ok ==> PiecesIn(prefix, w, cover, j + 1)
    ensures !ok ==> !(prefix <= w)
  {
    var comparisonLen: int := if |prefix| < bufPos + |pattern| then |prefix| - bufPos else |pattern|;
    assert Fits(w, cover[j]);
    Compared(prefix, w, bufPos, pattern, if comparisonLen < 0 then 0 else comparisonLen);
    if bufPos < |prefix| {
      if !SameBytes(prefix, bufPos, pattern, comparisonLen) {
        return false;
      }
    }
    ok := true;
  }

  method PrefixGap(prefix: seq<nat>, lastUncovered: nat, bufPos: nat, data: seq<bool>, postLoopPos: nat,
                   ghost b: Books, ghost w: seq<nat>, ghost cover: seq<Piece>, ghost p: nat, ghost j: nat)
      returns (ok: bool, pos: nat)
    requires lastUncovered < |prefix| <= |w| && FilledTo(prefix, w, cover, j) && GapAt(data, b, w, cover, p, j)
    requires lastUncovered == Covered(cover, j) && bufPos == Until(w, cover, j)
    requires postLoopPos == RawStart(b, w, cover, p) + Gaps(w, cover, j)
    ensures ok ==> pos == RawStart(b, w, cover, p) + Gaps(w, cover, j + 1)
    ensures ok ==> if j < |cover| then FilledTo(prefix, w, cover, j + 1) else prefix <= w
    ensures !ok ==> !(prefix <= w)
  {
    ok, pos := true, postLoopPos;
    if bufPos > lastUncovered {
      var dif := bufPos - lastUncovered;
      var comparisonLen := if |prefix| < lastUncovered + dif then |prefix| - lastUncovered else dif;
      RawCompared(prefix, w, lastUncovered, dif, data, postLoopPos, comparisonLen);
      if !SameBytes(prefix, lastUncovered, RawBytes(data, postLoopPos, dif), comparisonLen) {
        return false, pos;
      }
      pos := postLoopPos + dif;
    }
    if j < |cover| {
      PieceReached(prefix, w, cover, j);
    }
  }

  /** A word without patterns is one gap. */
  lemma {:induction false} AllRaw(data: seq<bool>, b: Books, w: seq<nat>, p: nat)
    requires w != [] && EncodedAt(data, b, w, [], p)
    ensures RawAt(data, RawStart(b, w, [], p), w, 0, |w|) && End(b, w, [], p) == RawStart(b, w, [], p) + |w|
    ensures RawBytes(data, RawStart(b, w, [], p), |w|) == w
  {
    assert GapAt(data, b, w, [], p, 0);
    var x := RawStart(b, w, [], p);
    forall m | 0 <= m < |w| ensures ByteOf(data, x + m) == w[m] {
      assert ByteOf(data, x + (m - 0)) == w[m];
    }
  }

  class Getter {
    const data: seq<bool>
    const posDict: Table<nat>
    const patternDict: Table<seq<nat>>
    ghost const books: Books
    var dataP: nat
    var dataBit: nat

    ghost predicate Valid()
      reads this
    {
      && |data| % 8 == 0 && dataBit < 8
      && TableOk(posDict, books.posTree) && TableOk(patternDict, books.patTree)
    }

    /** MakeGetter. */
    constructor (data: seq<bool>, posDict: Table<nat>, patternDict: Table<seq<nat>>, ghost books: Books)
      requires |data| % 8 == 0 && TableOk(posDict, books.posTree) && TableOk(patternDict, books.patTree)
      ensures Valid() && this.data == data && this.books == books && dataP == 0 && dataBit == 0
    {
      this.data, this.posDict, this.patternDict, this.books := data, posDict, patternDict, books;
      dataP, dataBit := 0, 0;
    }

    predicate HasNext()
      reads this
    {
      dataP < |data| / 8
    }

    /** The position in bits. */
    ghost function At(): nat
      reads this
    {
      8 * dataP + dataBit
    }

    /** Decode the next symbol of a table. */
    method NextSym<T>(root: Table<T>, ghost t: Tree<T>, ghost k: nat) returns (sym: T)
      requires Valid() && TableOk(root, t) && k < Size(t) && Here(data, At(), Path(t, k))
      modifies this
      ensures Valid() && sym == Sym(t, k) && At() == old(At()) + |Path(t, k)|
    {
      if root.bitLen == 0 {
        assert Pow2(0) == 1 && Answers(Lookup(root, 0), t, 0, 0);
        return Lookup(root, 0).sym;
      }
      var table := root;
      ghost var t', k': nat := t, k;
      while true
        invariant Valid() && TableOk(table, t') && t'.Node? && k' < Size(t') && Sym(t', k') == Sym(t, k)
        invariant Here(data, At(), Path(t', k')) && At() + |Path(t', k')| == old(At()) + |Path(t, k)|
        decreases |Path(t', k')|
      {
        var cell; ghost var u, j;
        cell, u, j := ReadCell(data, dataP, dataBit, table, t', k');
        if cell.Hit? {
          Advance(cell.len);
          return cell.sym;
        }
        table, t', k' := cell.table, u, j;
        Advance(9);
      }
    }

    method Advance(n: nat)
      requires Valid()
      modifies this
      ensures Valid() && At() == old(At()) + n
    {
      dataBit := dataBit + n;
      dataP, dataBit := dataP + dataBit / 8, dataBit % 8;
    }

    method Clean()
      requires Valid()
      modifies this
      ensures Valid() && dataBit == 0 && dataP == NextByte(old(At())) && (old(dataBit) == 0 ==> dataP == old(dataP))
    {
      NextByteOf(dataP, dataBit);
      if dataBit > 0 {
        dataP, dataBit := dataP + 1, 0;
      }
    }

    method NextPos(clean: bool, ghost v: nat) returns (pos: nat)
      requires Valid() && In(books.posTree, v) && (clean ==> dataBit == 0) && Here(data, At(), CodeOf(books.posTree, v))
      modifies this
      ensures Valid() && pos == v && At() == old(At()) + |CodeOf(books.posTree, v)|
    {
      if clean {
        Clean();
      }
      ghost var k := CodeIsPath(books.posTree, v);
      pos := NextSym(posDict, books.posTree, k);
    }

    method NextPattern(ghost v: seq<nat>) returns (pattern: seq<nat>)
      requires Valid() && In(books.patTree, v) && Here(data, At(), CodeOf(books.patTree, v))
      modifies this
      ensures Valid() && pattern == v && At() == old(At()) + |CodeOf(books.patTree, v)|
    {
      ghost var k := CodeIsPath(books.patTree, v);
      pattern := NextSym(patternDict, books.patTree, k);
    }

    /**
     * Next appends the word to a buffer whose capacity holds the spare bytes, and moves on behind the word. With bytes
     * in the buffer both fail as soon as the word ends in uncovered characters: Lost of them are neither copied nor
     * passed. An empty buffer loses none.
     */
    method Next(buf: seq<nat>, spare: nat -> nat, ghost w: seq<nat>, ghost cover: seq<Piece>)
        returns (word: seq<nat>, pos: nat)
      requires Valid() && dataBit == 0 && EncodedAt(data, books, w, cover, dataP)
      modifies this
      ensures Valid() && dataBit == 0 && pos == dataP && pos + Lost(|buf|, w, cover) == End(books, w, cover, old(dataP))
      ensures |word| == |buf| + |w| && word[..|buf|] == buf && Agrees(word[|buf|..], w, 0, |w| - Lost(|buf|, w, cover))
      ensures Lost(|buf|, w, cover) == 0 ==> word == buf + w
    {
      var savePos := dataP;
      var wordLen := NextPos(true, |w| + 1);
      wordLen := wordLen - 1;
      if wordLen == 0 {
        Clean();
        return buf, dataP;
      }
      var appended := FillPatterns(wordLen, spare, w, cover, savePos);
      Clean();
      var postLoopPos := dataP;
      dataP, dataBit := savePos, 0;
      var again := NextPos(true, |w| + 1);
      appended, postLoopPos := FillGaps(appended, |buf|, postLoopPos, w, cover, savePos);
      dataP, dataBit := postLoopPos, 0;
      word, pos := buf + appended, postLoopPos;
      assert word[|buf|..] == appended;
    }

    /** The first pass puts the patterns in place. */
    method FillPatterns(wordLen: nat, spare: nat -> nat, ghost w: seq<nat>, ghost cover: seq<Piece>, ghost p: nat)
        returns (buf: seq<nat>)
      requires Valid() && EncodedAt(data, books, w, cover, p) && w != [] && wordLen == |w|
      requires At() == BitPos(books, w, cover, p, 0)
      modifies this
      ensures Valid() && |buf| == |w| && PiecesIn(buf, w, cover, |cover|)
      ensures At() == AfterPos(books, w, cover, p, |cover|)
    {
      buf := seq(wordLen, i requires 0 <= i => spare(i));
      var bufPos := 0;
      ghost var j := 0;
      var pos := NextPosOf(w, cover, p, j);
      while pos != 0
        invariant Valid() && j <= |cover| && |buf| == |w| && bufPos == Start(cover, j) && PiecesIn(buf, w, cover, j)
        invariant pos == PosOf(cover, j) && At() == AfterPos(books, w, cover, p, j)
        invariant (pos == 0 <==> j == |cover|) && (pos > 0 ==> Start(cover, j) + pos - 1 == Start(cover, j + 1))
        decreases |cover| - j
      {
        bufPos := bufPos + pos - 1;
        var pt := NextPatternOf(w, cover, p, j);
        PieceFilled(buf, w, cover, j);
        buf := Patched(buf, bufPos, pt);
        j := j + 1;
        pos := NextPosOf(w, cover, p, j);
      }
    }

    /** The second pass copies the characters that are not in the patterns. */
    method FillGaps(word: seq<nat>, before: nat, rawPos: nat, ghost w: seq<nat>, ghost cover: seq<Piece>, ghost p: nat)
        returns (buf: seq<nat>, postLoopPos: nat)
      requires Valid() && EncodedAt(data, books, w, cover, p) && w != [] && At() == BitPos(books, w, cover, p, 0)
      requires |word| == |w| && PiecesIn(word, w, cover, |cover|) && rawPos == RawStart(books, w, cover, p)
      modifies this
      ensures Valid() && postLoopPos + Lost(before, w, cover) == End(books, w, cover, p)
      ensures |buf| == |w| && Agrees(buf, w, 0, |w| - Lost(before, w, cover))
    {
      buf, postLoopPos := word, rawPos;
      var bufPos, lastUncovered := 0, 0;
      ghost var j := 0;
      var pos := NextPosOf(w, cover, p, j);
      while pos != 0
        invariant Valid() && j <= |cover| && bufPos == Start(cover, j) && lastUncovered == Covered(cover, j)
        invariant |buf| == |w| && FilledTo(buf, w, cover, j) && postLoopPos == rawPos + Gaps(w, cover, j)
        invariant pos == PosOf(cover, j) && At() == AfterPos(books, w, cover, p, j)
        invariant (pos == 0 <==> j == |cover|) && (pos > 0 ==> Start(cover, j) + pos - 1 == Start(cover, j + 1))
        decreases |cover| - j
      {
        bufPos := bufPos + pos - 1;
        assert GapAt(data, books, w, cover, p, j);
        buf, postLoopPos := CopyGap(buf, lastUncovered, bufPos, data, postLoopPos, books, w, cover, p, j);
        var pt := NextPatternOf(w, cover, p, j);
        lastUncovered := bufPos + |pt|;
        j := j + 1;
        pos := NextPosOf(w, cover, p, j);
      }
      assert GapAt(data, books, w, cover, p, j);
      buf, postLoopPos := CopyTail(buf, before, lastUncovered, data, postLoopPos, books, w, cover, p);
    }

    /** Skip lands where Next does. */
    method Skip(ghost w: seq<nat>, ghost cover: seq<Piece>) returns (pos: nat)
      requires Valid() && dataBit == 0 && EncodedAt(data, books, w, cover, dataP)
      modifies this
      ensures Valid() && dataBit == 0 && pos == dataP == End(books, w, cover, old(dataP))
    {
      ghost var p := dataP;
      var l := NextPos(true, |w| + 1);
      l := l - 1;
      if l == 0 {
        Clean();
        return dataP;
      }
      var add := CountGaps(l, w, cover, p);
      Clean();
      dataP := dataP + add;
      pos := dataP;
    }

    method CountGaps(wordLen: nat, ghost w: seq<nat>, ghost cover: seq<Piece>, ghost p: nat) returns (add: nat)
      requires Valid() && EncodedAt(data, books, w, cover, p) && w != [] && wordLen == |w|
      requires At() == BitPos(books, w, cover, p, 0)
      modifies this
      ensures Valid() && add == Gaps(w, cover, |cover| + 1)
      ensures At() == AfterPos(books, w, cover, p, |cover|)
    {
      add := 0;
      var bufPos, lastUncovered := 0, 0;
      ghost var j := 0;
      var pos := NextPosOf(w, cover, p, j);
      while pos != 0
        invariant Valid() && j <= |cover| && bufPos == Start(cover, j) && lastUncovered == Covered(cover, j)
        invariant add == Gaps(w, cover, j)
        invariant pos == PosOf(cover, j) && At() == AfterPos(books, w, cover, p, j)
        invariant (pos == 0 <==> j == |cover|) && (pos > 0 ==> Start(cover, j) + pos - 1 == Start(cover, j + 1))
        decreases |cover| - j
      {
        bufPos := bufPos + pos - 1;
        add := AddGap(add, lastUncovered, bufPos);
        var pt := NextPatternOf(w, cover, p, j);
        lastUncovered := bufPos + |pt|;
        j := j + 1;
        pos := NextPosOf(w, cover, p, j);
      }
      add := AddGap(add, lastUncovered, wordLen);
    }

    /** Match: whether the word is buf. On a match the cursor moves on like Next. Otherwise
        it stays where it is, except that an empty buf has moved it behind the length. */
    method Match(buf: seq<nat>, ghost w: seq<nat>, ghost cover: seq<Piece>) returns (ok: bool, pos: nat)
      requires Valid() && dataBit == 0 && EncodedAt(data, books, w, cover, dataP)
      modifies this
      ensures Valid() && dataBit == 0 && pos == dataP && (ok <==> buf == w)
      ensures ok ==> dataP == End(books, w, cover, old(dataP))
      ensures !ok ==> dataP == if buf == [] then NextByte(BitPos(books, w, cover, old(dataP), 0)) else old(dataP)
    {
      var savePos := dataP;
      var wordLen := NextPos(true, |w| + 1);
      wordLen := wordLen - 1;
      var lenBuf := |buf|;
      if wordLen == 0 || wordLen != lenBuf {
        Clean();
        if lenBuf != 0 {
          dataP, dataBit := savePos, 0;
        }
        return lenBuf == wordLen, dataP;
      }
      ok := MatchPatterns(buf, w, cover, savePos);
      if ok {
        Clean();
        var postLoopPos := dataP;
        dataP, dataBit := savePos, 0;
        var again := NextPos(true, |w| + 1);
        ok, postLoopPos := MatchGaps(buf, postLoopPos, w, cover, savePos);
        if ok {
          dataP, dataBit := postLoopPos, 0;
          return true, postLoopPos;
        }
      }
      dataP, dataBit := savePos, 0;
      pos := savePos;
    }

    /** The first pass only checks patterns. */
    method MatchPatterns(buf: seq<nat>, ghost w: seq<nat>, ghost cover: seq<Piece>, ghost p: nat) returns (ok: bool)
      requires Valid() && EncodedAt(data, books, w, cover, p) && w != [] && |buf| == |w|
      requires At() == BitPos(books, w, cover, p, 0)
      modifies this
      ensures Valid() && (ok ==> PiecesIn(buf, w, cover, |cover|) && At() == AfterPos(books, w, cover, p, |cover|))
      ensures !ok ==> buf != w
    {
      var bufPos := 0;
      ghost var j := 0;
      var pos := NextPosOf(w, cover, p, j);
      while pos != 0
        invariant Valid() && j <= |cover| && bufPos == Start(cover, j) && PiecesIn(buf, w, cover, j)
        invariant pos == PosOf(cover, j) && At() == AfterPos(books, w, cover, p, j)
        invariant (pos == 0 <==> j == |cover|) && (pos > 0 ==> Start(cover, j) + pos - 1 == Start(cover, j + 1))
        decreases |cover| - j
      {
        bufPos := bufPos + pos - 1;
        var pattern := NextPatternOf(w, cover, p, j);
        assert Fits(w, cover[j]);
        Compared(buf, w, bufPos, pattern, |pattern|);
        if |buf| < bufPos + |pattern| || !SameBytes(buf, bufPos, pattern, |pattern|) {
          return false;
        }
        j := j + 1;
        pos := NextPosOf(w, cover, p, j);
      }
      ok := true;
    }

    /** The second pass checks what the patterns do not cover. */
    method MatchGaps(buf: seq<nat>, rawPos: nat, ghost w: seq<nat>, ghost cover: seq<Piece>, ghost p: nat)
        returns (ok: bool, postLoopPos: nat)
      requires Valid() && EncodedAt(data, books, w, cover, p) && w != [] && At() == BitPos(books, w, cover, p, 0)
      requires |buf| == |w| && PiecesIn(buf, w, cover, |cover|) && rawPos == RawStart(books, w, cover, p)
      modifies this
      ensures Valid() && (ok <==> buf == w) && (ok ==> postLoopPos == End(books, w, cover, p))
    {
      postLoopPos := rawPos;
      var bufPos, lastUncovered := 0, 0;
      ghost var j := 0;
      var pos := NextPosOf(w, cover, p, j);
      while pos != 0
        invariant Valid() && j <= |cover| && bufPos == Start(cover, j) && lastUncovered == Covered(cover, j)
        invariant FilledTo(buf, w, cover, j) && postLoopPos == rawPos + Gaps(w, cover, j)
        invariant pos == PosOf(cover, j) && At() == AfterPos(books, w, cover, p, j)
        invariant (pos == 0 <==> j == |cover|) && (pos > 0 ==> Start(cover, j) + pos - 1 == Start(cover, j + 1))
        decreases |cover| - j
      {
        bufPos := bufPos + pos - 1;
        assert GapAt(data, books, w, cover, p, j);
        ok, postLoopPos := MatchGap(buf, lastUncovered, bufPos, data, postLoopPos, books, w, cover, p, j);
        if !ok {
          return;
        }
        var pt := NextPatternOf(w, cover, p, j);
        lastUncovered := bufPos + |pt|;
        j := j + 1;
        pos := NextPosOf(w, cover, p, j);
      }
      assert GapAt(data, books, w, cover, p, j);
      ok, postLoopPos := MatchGap(buf, lastUncovered, |buf|, data, postLoopPos, books, w, cover, p, j);
    }

    /** MatchPrefix: whether the word starts with prefix. The cursor does not move. */
    method MatchPrefix(prefix: seq<nat>, ghost w: seq<nat>, ghost cover: seq<Piece>) returns (ok: bool)
      requires Valid() && dataBit == 0 && EncodedAt(data, books, w, cover, dataP)
      modifies this
      ensures Valid() && dataBit == 0 && dataP == old(dataP) && (ok <==> prefix <= w)
    {
      var savePos := dataP;
      var wordLen := NextPos(true, |w| + 1);
      wordLen := wordLen - 1;
      var prefixLen := |prefix|;
      if wordLen == 0 || wordLen < prefixLen {
        ok := prefixLen == wordLen;
      } else {
        ok := PrefixPatterns(prefix, w, cover, savePos);
        if ok {
          Clean();
          var postLoopPos := dataP;
          dataP, dataBit := savePos, 0;
          var again := NextPos(true, |w| + 1);
          ok := PrefixGaps(prefix, wordLen, postLoopPos, w, cover, savePos);
        }
      }
      dataP, dataBit := savePos, 0;
    }

    method PrefixPatterns(prefix: seq<nat>, ghost w: seq<nat>, ghost cover: seq<Piece>, ghost p: nat) returns (ok: bool)
      requires Valid() && EncodedAt(data, books, w, cover, p) && w != [] && |prefix| <= |w|
      requires At() == BitPos(books, w, cover, p, 0)
      modifies this
      ensures Valid() && (ok ==> PiecesIn(prefix, w, cover, |cover|) && At() == AfterPos(books, w, cover, p, |cover|))
      ensures !ok ==> !(prefix <= w)
    {
      var bufPos := 0;
      ghost var j := 0;
      var pos := NextPosOf(w, cover, p, j);
      while pos != 0
        invariant Valid() && j <= |cover| && bufPos == Start(cover, j) && PiecesIn(prefix, w, cover, j)
        invariant pos == PosOf(cover, j) && At() == AfterPos(books, w, cover, p, j)
        invariant (pos == 0 <==> j == |cover|) && (pos > 0 ==> Start(cover, j) + pos - 1 == Start(cover, j + 1))
        decreases |cover| - j
      {
        bufPos := bufPos + pos - 1;
        var pattern := NextPatternOf(w, cover, p, j);
        ok := PrefixPiece(prefix, bufPos, pattern, w, cover, j);
        if !ok {
          return;
        }
        j := j + 1;
        pos := NextPosOf(w, cover, p, j);
      }
      ok := true;
    }

    /** The second pass goes only as far as the prefix does. */
    method PrefixGaps(prefix: seq<nat>, wordLen: nat, rawPos: nat, ghost w: seq<nat>, ghost cover: seq<Piece>,
                      ghost p: nat)
        returns (ok: bool)
      requires Valid() && EncodedAt(data, books, w, cover, p) && w != [] && wordLen == |w|
      requires At() == BitPos(books, w, cover, p, 0)
      requires |prefix| <= |w| && PiecesIn(prefix, w, cover, |cover|) && rawPos == RawStart(books, w, cover, p)
      modifies this
      ensures Valid() && (ok <==> prefix <= w)
    {
      var postLoopPos, bufPos, lastUncovered := rawPos, 0, 0;
      ghost var j := 0;
      var pos := NextPosOf(w, cover, p, j);
      while pos != 0 && lastUncovered < |prefix|
        invariant Valid() && j <= |cover| && bufPos == Start(cover, j) && lastUncovered == Covered(cover, j)
        invariant FilledTo(prefix, w, cover, j) && postLoopPos == rawPos + Gaps(w, cover, j)
        invariant pos == PosOf(cover, j) && At() == AfterPos(books, w, cover, p, j)
        invariant (pos == 0 <==> j == |cover|) && (pos > 0 ==> Start(cover, j) + pos - 1 == Start(cover, j + 1))
        decreases |cover| - j
      {
        bufPos := bufPos + pos - 1;
        assert GapAt(data, books, w, cover, p, j);
        ok, postLoopPos := PrefixGap(prefix, lastUncovered, bufPos, data, postLoopPos, books, w, cover, p, j);
        if !ok {
          return;
        }
        var pt := NextPatternOf(w, cover, p, j);
        lastUncovered := bufPos + |pt|;
        j := j + 1;
        pos := NextPosOf(w, cover, p, j);
      }
      ok := true;
      if |prefix| > lastUncovered {
        assert GapAt(data, books, w, cover, p, j);
        ok, postLoopPos := PrefixGap(prefix, lastUncovered, wordLen, data, postLoopPos, books, w, cover, p, j);
      }
    }

    /** NextUncompressed, for a word without patterns. */
    method NextUncompressed(ghost w: seq<nat>) returns (word: seq<nat>, pos: nat)
      requires Valid() && dataBit == 0 && EncodedAt(data, books, w, [], dataP)
      modifies this
      ensures Valid() && word == w && dataBit == 0 && pos == dataP == End(books, w, [], old(dataP))
    {
      ghost var p := dataP;
      var wordLen := NextPos(true, |w| + 1);
      wordLen := wordLen - 1;
      if wordLen == 0 {
        Clean();
        return [], dataP;
      }
      var terminator := NextPosOf(w, [], p, 0);
      Clean();
      assert GapAt(data, books, w, [], p, 0);
      word := RawBytes(data, dataP, wordLen);
      AllRaw(data, books, w, p);
      dataP := dataP + wordLen;
      pos := dataP;
    }

    method SkipUncompressed(ghost w: seq<nat>) returns (pos: nat)
      requires Valid() && dataBit == 0 && EncodedAt(data, books, w, [], dataP)
      modifies this
      ensures Valid() && dataBit == 0 && pos == dataP == End(books, w, [], old(dataP))
    {
      ghost var p := dataP;
      var wordLen := NextPos(true, |w| + 1);
      wordLen := wordLen - 1;
      if wordLen == 0 {
        Clean();
        return dataP;
      }
      var terminator := NextPosOf(w, [], p, 0);
      Clean();
      AllRaw(data, books, w, p);
      dataP := dataP + wordLen;
      pos := dataP;
    }

    /** The position code before piece j, or the terminator behind the last piece. */
    method NextPosOf(ghost w: seq<nat>, ghost cover: seq<Piece>, ghost p: nat, ghost j: nat) returns (pos: nat)
      requires Valid() && EncodedAt(data, books, w, cover, p) && w != [] && j <= |cover|
      requires At() == BitPos(books, w, cover, p, j)
      modifies this
      ensures Valid() && pos == PosOf(cover, j) && At() == AfterPos(books, w, cover, p, j)
      ensures (pos == 0 <==> j == |cover|) && (pos > 0 ==> Start(cover, j) + pos - 1 == Start(cover, j + 1))
    {
      assert PosAt(data, books, w, cover, p, j);
      PosOfSpec(cover, j);
      pos := NextPos(false, PosOf(cover, j));
    }

    method NextPatternOf(ghost w: seq<nat>, ghost cover: seq<Piece>, ghost p: nat, ghost j: nat)
        returns (pattern: seq<nat>)
      requires Valid() && EncodedAt(data, books, w, cover, p) && w != [] && j < |cover|
      requires At() == AfterPos(books, w, cover, p, j)
      modifies this
      ensures Valid() && pattern == cover[j].pattern && At() == BitPos(books, w, cover, p, j + 1)
    {
      assert PatternAt(data, books, w, cover, p, j) && Fits(w, cover[j]);
      pattern := NextPattern(cover[j].pattern);
    }
  }
}
