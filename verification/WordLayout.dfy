/** How a compressed word lies in the data: its length and the relative positions of its
    patterns in the position code, the patterns in the pattern code, padding to a byte,
    then the characters that no pattern covers. A byte of data is its 8 bits, lowest
    first, and the data is the concatenation of its bytes. */
module WordLayout {
  import opened Arith
  import opened Words
  import opened HuffmanTree

  /** The code of lengths and positions, and the code of patterns. */
  datatype Books = Books(posTree: Tree<nat>, patTree: Tree<seq<nat>>)

  /** A pattern in the cover of a word. */
  datatype Piece = Piece(start: nat, pattern: seq<nat>)

  // ---- the code of a symbol

  ghost function CodeOf<T>(t: Tree<T>, v: T): seq<bool> {
    match t
    case Leaf(_) => []
    case Node(l, r) => if In(l, v) then [false] + CodeOf(l, v) else [true] + CodeOf(r, v)
  }

  lemma {:induction false} CodeIsPath<T>(t: Tree<T>, v: T) returns (k: nat)
    requires In(t, v)
    ensures k < Size(t) && Sym(t, k) == v && Path(t, k) == CodeOf(t, v)
  {
    match t
    case Leaf(_) => k := 0;
    case Node(l, r) =>
      if In(l, v) {
        k := CodeIsPath(l, v);
      } else {
        var i := CodeIsPath(r, v);
        k := Size(l) + i;
      }
  }

  // ---- the cover of a word

  ghost predicate Fits(w: seq<nat>, p: Piece) {
    p.start + |p.pattern| <= |w| && forall i :: 0 <= i < |p.pattern| ==> w[p.start + i] == p.pattern[i]
  }

  function Start(cover: seq<Piece>, j: nat): nat
    requires j <= |cover|
  {
    if j == 0 then 0 else cover[j - 1].start
  }

  ghost predicate Ordered(cover: seq<Piece>) {
    forall j :: 0 <= j < |cover| ==> InOrder(cover, j)
  }

  /** Piece j does not start before the piece before it. */
  ghost predicate InOrder(cover: seq<Piece>, j: nat)
    requires j < |cover|
  {
    Start(cover, j) <= cover[j].start
  }

  /** The position of piece j as it is coded: relative to the piece before, plus one. */
  function Rel(cover: seq<Piece>, j: nat): nat
    requires j < |cover|
  {
    if cover[j].start >= Start(cover, j) then cover[j].start - Start(cover, j) + 1 else 0
  }

  /** Every piece is in the word, and the pieces are in order. */
  ghost predicate Covers(w: seq<nat>, cover: seq<Piece>) {
    Ordered(cover) && forall j :: 0 <= j < |cover| ==> Fits(w, cover[j])
  }

  /** The end of the piece before j: from here on the word may be uncovered. */
  function Covered(cover: seq<Piece>, j: nat): nat
    requires j <= |cover|
  {
    if j == 0 then 0 else cover[j - 1].start + |cover[j - 1].pattern|
  }

  function Between(a: nat, b: nat): nat { if b > a then b - a else 0 }

  /** The start of piece j, or the end of the word behind the last piece. */
  function Until(w: seq<nat>, cover: seq<Piece>, j: nat): nat
    requires j <= |cover|
  {
    if j < |cover| then cover[j].start else |w|
  }

  /** The number of uncovered characters before piece j: a gap where the piece starts
      later than the one before it ends. */
  function Gap(w: seq<nat>, cover: seq<Piece>, j: nat): nat
    requires j <= |cover|
  {
    Between(Covered(cover, j), Until(w, cover, j))
  }

  /** The number of uncovered characters in all gaps before gap j. */
  function Gaps(w: seq<nat>, cover: seq<Piece>, j: nat): nat
    requires j <= |cover| + 1
  {
    if j == 0 then 0 else Gaps(w, cover, j - 1) + Gap(w, cover, j - 1)
  }

  // ---- the layout

  /** What the position code before piece j says; 0 behind the last piece. */
  function PosOf(cover: seq<Piece>, j: nat): nat
    requires j <= |cover|
  {
    if j < |cover| then Rel(cover, j) else 0
  }

  /** Where the position code before piece j starts, for a word that starts at byte p. */
  ghost function BitPos(b: Books, w: seq<nat>, cover: seq<Piece>, p: nat, j: nat): nat
    requires j <= |cover|
  {
    if j == 0 then 8 * p + |CodeOf(b.posTree, |w| + 1)|
    else
      BitPos(b, w, cover, p, j - 1) + |CodeOf(b.posTree, PosOf(cover, j - 1))| +
          |CodeOf(b.patTree, cover[j - 1].pattern)|
  }

  ghost function AfterPos(b: Books, w: seq<nat>, cover: seq<Piece>, p: nat, j: nat): nat
    requires j <= |cover|
  {
    BitPos(b, w, cover, p, j) + |CodeOf(b.posTree, PosOf(cover, j))|
  }

  /** The first whole byte from a bit on: the bits in units of 8. */
  function NextByte(at: nat): nat { Units(at, 8) }

  lemma {:induction false} NextByteOf(p: nat, bit: nat)
    requires bit < 8
    ensures NextByte(8 * p + bit) == if bit == 0 then p else p + 1
  {
    if p > 0 {
      NextByteOf(p - 1, bit);
    }
  }

  /** Where the uncovered characters of a nonempty word start. */
  ghost function RawStart(b: Books, w: seq<nat>, cover: seq<Piece>, p: nat): nat {
    NextByte(AfterPos(b, w, cover, p, |cover|))
  }

  ghost function End(b: Books, w: seq<nat>, cover: seq<Piece>, p: nat): nat {
    if w == [] then NextByte(8 * p + |CodeOf(b.posTree, 1)|)
    else RawStart(b, w, cover, p) + Gaps(w, cover, |cover| + 1)
  }

  /** The number in the bits from i to j. */
  function Number(data: seq<bool>, i: nat, j: nat): nat
    requires i <= j <= |data|
    decreases j - i
  {
    if i == j then 0 else (if data[i] then 1 else 0) + 2 * Number(data, i + 1, j)
  }

  /** Byte x of the data. */
  function ByteOf(data: seq<bool>, x: nat): nat
    requires 8 * x + 8 <= |data|
  {
    Number(data, 8 * x, 8 * x + 8)
  }

  /** n bytes of the data from x on are the word's characters from i on. */
  ghost predicate RawAt(data: seq<bool>, x: nat, w: seq<nat>, i: nat, n: nat) {
    i + n <= |w| && 8 * (x + n) <= |data| && forall m :: i <= m < i + n ==> ByteOf(data, x + (m - i)) == w[m]
  }

  /** The position code before piece j, or the terminator. */
  ghost predicate PosAt(data: seq<bool>, b: Books, w: seq<nat>, cover: seq<Piece>, p: nat, j: nat)
    requires j <= |cover|
  {
    In(b.posTree, PosOf(cover, j)) && Here(data, BitPos(b, w, cover, p, j), CodeOf(b.posTree, PosOf(cover, j)))
  }

  ghost predicate PatternAt(data: seq<bool>, b: Books, w: seq<nat>, cover: seq<Piece>, p: nat, j: nat)
    requires j < |cover|
  {
    In(b.patTree, cover[j].pattern) && Here(data, AfterPos(b, w, cover, p, j), CodeOf(b.patTree, cover[j].pattern))
  }

  /** The characters of gap j. */
  ghost predicate GapAt(data: seq<bool>, b: Books, w: seq<nat>, cover: seq<Piece>, p: nat, j: nat)
    requires j <= |cover|
  {
    RawAt(data, RawStart(b, w, cover, p) + Gaps(w, cover, j), w, Covered(cover, j), Gap(w, cover, j))
  }

  /** The word with this cover is encoded in the data from byte p on. */
  ghost predicate EncodedAt(data: seq<bool>, b: Books, w: seq<nat>, cover: seq<Piece>, p: nat) {
    && Covers(w, cover) && In(b.posTree, |w| + 1) && Here(data, 8 * p, CodeOf(b.posTree, |w| + 1))
    && (w != [] ==>
          && (forall j :: 0 <= j <= |cover| ==> PosAt(data, b, w, cover, p, j))
          && (forall j :: 0 <= j < |cover| ==> PatternAt(data, b, w, cover, p, j))
          && (forall j :: 0 <= j <= |cover| ==> GapAt(data, b, w, cover, p, j)))
  }

  /** A position code ends the pieces only behind the last, and leads from one start to
      the next. */
  lemma PosOfSpec(cover: seq<Piece>, j: nat)
    requires Ordered(cover) && j <= |cover|
    ensures PosOf(cover, j) == 0 <==> j == |cover|
    ensures j < |cover| ==> Start(cover, j) + PosOf(cover, j) - 1 == Start(cover, j + 1)
  {
    assert j < |cover| ==> InOrder(cover, j);
  }

  /** The bytes from one covered part up to the next are uncovered. */
  method AddGap(count: nat, lastUncovered: nat, pos: nat) returns (r: nat)
    ensures r == count + Between(lastUncovered, pos)
  {
    r := count;
    if pos > lastUncovered {
      r := count + (pos - lastUncovered);
    }
  }
}
