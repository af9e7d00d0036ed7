/** The intermediate file: the forms of all words one behind the other, and what has been counted for them. */
module Intermediate {
  import opened Sums
  import opened Tally
  import opened WordLayout
  import opened Uvarint
  import opened Reencode
  import opened OptimiseCluster
  import Ring

  /** Where a word's form starts, and the cover it holds. */
  datatype Form = Form(at: nat, c: Chosen)

  // ---- one form

  lemma {:induction false} EntryPosShift(at: nat, w: seq<nat>, cover: seq<Piece>, nums: seq<nat>, j: nat)
    requires j <= |cover| == |nums|
    ensures EntryPos(at, w, cover, nums, j) == at + EntryPos(0, w, cover, nums, j)
  {
    if j > 0 {
      EntryPosShift(at, w, cover, nums, j - 1);
    }
  }

  lemma BytesShift(s: seq<nat>, x: seq<nat>, i: nat, bytes: seq<nat>)
    requires BytesAt(x, i, bytes)
    ensures BytesAt(s + x, |s| + i, bytes)
  {
    forall k | 0 <= k < |bytes| ensures (s + x)[|s| + i + k] == bytes[k] {
      assert (s + x)[|s| + (i + k)] == x[i + k];
    }
  }

  /** A form can be appended to the file. */
  lemma {:induction false} FormAppended(s: seq<nat>, x: seq<nat>, w: seq<nat>, cover: seq<Piece>, nums: seq<nat>,
                                        raw: seq<nat>)
    requires IntermediateAt(x, 0, w, cover, nums, raw)
    ensures IntermediateAt(s + x, |s|, w, cover, nums, raw)
    ensures IntermediateEnd(|s|, w, cover, nums, raw) == |s| + IntermediateEnd(0, w, cover, nums, raw)
  {
    BytesShift(s, x, 0, PutUvarint(|w|));
    if w != [] {
      BytesShift(s, x, |PutUvarint(|w|)|, PutUvarint(|cover|));
      forall j | 0 <= j < |cover| ensures EntryAt(s + x, |s|, w, cover, nums, j) {
        assert EntryAt(x, 0, w, cover, nums, j);
        EntryPosShift(|s|, w, cover, nums, j);
        BytesShift(s, x, EntryPos(0, w, cover, nums, j), PutUvarint(cover[j].start));
        BytesShift(s, x, EntryPos(0, w, cover, nums, j) + |PutUvarint(cover[j].start)|, PutUvarint(nums[j]));
      }
      EntryPosShift(|s|, w, cover, nums, |cover|);
      BytesShift(s, x, EntryPos(0, w, cover, nums, |cover|), raw);
    }
  }

  lemma {:induction false} FormKept(s: seq<nat>, s': seq<nat>, at: nat, w: seq<nat>, cover: seq<Piece>, nums: seq<nat>,
                                    raw: seq<nat>)
    requires IntermediateAt(s, at, w, cover, nums, raw) && s <= s'
    ensures IntermediateAt(s', at, w, cover, nums, raw)
  {
    if w != [] {
      forall j | 0 <= j < |cover| ensures EntryAt(s', at, w, cover, nums, j) {
        assert EntryAt(s, at, w, cover, nums, j);
      }
    }
  }

  // ---- all forms

  /** What the match finder gives is sound for every word that it is asked about. */
  ghost predicate WordsOk(words: seq<Word>, find: Bytes -> seq<Match>, dict: seq<Scored>) {
    forall i :: 0 <= i < |words| ==> WordOk(words[i], find, dict)
  }

  ghost predicate WordOk(w: Word, find: Bytes -> seq<Match>, dict: seq<Scored>) {
    AllBytes(w.bytes) && (Bypasses(w) || Sound(w.bytes, find(w.bytes), dict))
  }

  function MatchCount(w: Word, find: Bytes -> seq<Match>): nat { if Bypasses(w) then 0 else |find(w.bytes)| }

  /** x is the form of the word, with a cover of at most k patterns. */
  ghost predicate IsForm(x: seq<nat>, w: Word, c: Chosen, dict: seq<Scored>, k: nat) {
    && Covers(w.bytes, c.cover) && FromDict(c, dict) && |c.cover| <= k
    && IntermediateAt(x, 0, w.bytes, c.cover, c.nums, c.raw)
    && |x| == IntermediateEnd(0, w.bytes, c.cover, c.nums, c.raw)
  }

  ghost predicate FormOk(s: seq<nat>, w: Word, f: Form, dict: seq<Scored>) {
    Covers(w.bytes, f.c.cover) && FromDict(f.c, dict) && IntermediateAt(s, f.at, w.bytes, f.c.cover, f.c.nums, f.c.raw)
  }

  ghost function FormEnd(w: Word, f: Form): nat
    requires |f.c.nums| == |f.c.cover|
  {
    IntermediateEnd(f.at, w.bytes, f.c.cover, f.c.nums, f.c.raw)
  }

  /** The forms of the first n words follow each other in the file. */
  ghost predicate FormsTo(s: seq<nat>, words: seq<Word>, forms: seq<Form>, n: nat, dict: seq<Scored>) {
    && n <= |words| && |forms| == n && (forall i :: 0 <= i < n ==> FormOk(s, words[i], forms[i], dict))
    && forall i :: 0 <= i <= n ==> FollowsAt(s, words, forms, n, i)
  }

  /** Form i starts where the one before it ends; the file ends with the last. */
  ghost predicate FollowsAt(s: seq<nat>, words: seq<Word>, forms: seq<Form>, n: nat, i: nat)
    requires i <= n == |forms| <= |words|
  {
    && (i > 0 ==> |forms[i - 1].c.nums| == |forms[i - 1].c.cover|)
    && (if i < n then forms[i].at else |s|) == if i == 0 then 0 else FormEnd(words[i - 1], forms[i - 1])
  }

  lemma FormsStart(words: seq<Word>, dict: seq<Scored>)
    ensures FormsTo([], words, [], 0, dict)
  {
    assert FollowsAt([], words, [], 0, 0);
  }

  lemma {:induction false} FormsNext(s: seq<nat>, x: seq<nat>, words: seq<Word>, forms: seq<Form>, n: nat, c: Chosen,
                                     dict: seq<Scored>, k: nat)
    requires n < |words| && FormsTo(s, words, forms, n, dict) && IsForm(x, words[n], c, dict, k)
    ensures FormsTo(s + x, words, forms + [Form(|s|, c)], n + 1, dict)
  {
    FormAppended(s, x, words[n].bytes, c.cover, c.nums, c.raw);
    var r := forms + [Form(|s|, c)];
    forall i | 0 <= i < n + 1 ensures FormOk(s + x, words[i], r[i], dict) {
      if i < n {
        assert FormOk(s, words[i], forms[i], dict);
        FormKept(s, s + x, forms[i].at, words[i].bytes, forms[i].c.cover, forms[i].c.nums, forms[i].c.raw);
      }
    }
    var m := n + 1;
    forall i | 0 <= i <= m ensures FollowsAt(s + x, words, r, m, i) {
      if i <= n {
        assert FollowsAt(s, words, forms, n, i);
      }
    }
  }

  // ---- what is counted

  /** What a word with this cover adds to the counts. */
  ghost function WordMarks(w: Word, c: Chosen): multiset<Mark>
    requires |c.nums| == |c.cover|
  {
    LengthMarks(|w.bytes|) + MarksOf(c)
  }

  ghost predicate Sized(forms: seq<Form>) { forall i :: 0 <= i < |forms| ==> |forms[i].c.nums| == |forms[i].c.cover| }

  /** The marks of every word. */
  ghost function Bags(words: seq<Word>, forms: seq<Form>): (r: seq<multiset<Mark>>)
    requires |forms| <= |words| && Sized(forms)
    ensures |r| == |forms| && forall i :: 0 <= i < |r| ==> r[i] == WordMarks(words[i], forms[i].c)
  {
    seq(|forms|, i requires 0 <= i < |forms| => WordMarks(words[i], forms[i].c))
  }

  /** The bag holds all that the words count, and no cover has more patterns than there are matches. */
  ghost predicate BagOk(bag: multiset<Mark>, words: seq<Word>, find: Bytes -> seq<Match>, forms: seq<Form>) {
    && |forms| <= |words| && Sized(forms) && bag == Merged(Bags(words, forms), |forms|)
    && forall i :: 0 <= i < |forms| ==> |forms[i].c.cover| <= MatchCount(words[i], find)
  }

  lemma BagsSnoc(words: seq<Word>, forms: seq<Form>, f: Form)
    requires |forms| < |words| && Sized(forms) && |f.c.nums| == |f.c.cover|
    ensures Sized(forms + [f]) && Bags(words, forms + [f]) == Bags(words, forms) + [WordMarks(words[|forms|], f.c)]
  {
    var more, r := Bags(words, forms + [f]), Bags(words, forms) + [WordMarks(words[|forms|], f.c)];
    forall i | 0 <= i < |r| ensures more[i] == r[i] {
    }
  }

  lemma BagNext(bag: multiset<Mark>, words: seq<Word>, find: Bytes -> seq<Match>, forms: seq<Form>, f: Form)
    requires BagOk(bag, words, find, forms) && |forms| < |words|
    requires |f.c.nums| == |f.c.cover| <= MatchCount(words[|forms|], find)
    ensures BagOk(bag + WordMarks(words[|forms|], f.c), words, find, forms + [f])
  {
    assert forall i :: 0 <= i < |forms + [f]| ==> |(forms + [f])[i].c.cover| <= MatchCount(words[i], find);
    BagsSnoc(words, forms, f);
    MergedSnoc(Bags(words, forms), WordMarks(words[|forms|], f.c));
  }

  /** The file holds the first n words, and the bag what they count. */
  ghost predicate Written(s: seq<nat>, bag: multiset<Mark>, words: seq<Word>, find: Bytes -> seq<Match>,
                          forms: seq<Form>, n: nat, dict: seq<Scored>) {
    FormsTo(s, words, forms, n, dict) && BagOk(bag, words, find, forms)
  }

  lemma WrittenNone(words: seq<Word>, find: Bytes -> seq<Match>, dict: seq<Scored>)
    ensures Written([], multiset{}, words, find, [], 0, dict)
  {
    FormsStart(words, dict);
  }

  lemma WrittenNext(s: seq<nat>, bag: multiset<Mark>, x: seq<nat>, words: seq<Word>, find: Bytes -> seq<Match>,
                    forms: seq<Form>, n: nat,
                    c: Chosen, dict: seq<Scored>)
    requires n < |words| && Written(s, bag, words, find, forms, n, dict)
    requires IsForm(x, words[n], c, dict, MatchCount(words[n], find))
    ensures Written(s + x, bag + WordMarks(words[n], c), words, find, forms + [Form(|s|, c)], n + 1, dict)
  {
    FormsNext(s, x, words, forms, n, c, dict, MatchCount(words[n], find));
    BagNext(bag, words, find, forms, Form(|s|, c));
  }

  lemma PlainForms(w: Word, dict: seq<Scored>)
    requires Bypasses(w) && AllBytes(w.bytes)
    ensures IsForm(Plain(w.bytes), w, Chosen([], [], w.bytes), dict, 0)
  {
    if w.bytes != [] {
      PlainIsForm(w.bytes, dict);
      assert PutUvarint(|w.bytes|) + PlainForm(w.bytes) == Plain(w.bytes);
    }
  }

  lemma LengthTallied(posMap: map<nat, nat>, uses: seq<nat>, bag: multiset<Mark>, x: multiset<Mark>, k: nat)
    requires Tallies(posMap, uses, bag + x)
    ensures Tallies(Count(Count(posMap, k + 1), 0), uses, bag + (LengthMarks(k) + x))
  {
    PositionTallied(posMap, uses, bag + x, k + 1);
    PositionTallied(Count(posMap, k + 1), uses, bag + x + multiset{Position(k + 1)}, 0);
    assert bag + x + multiset{Position(k + 1)} + multiset{Position(0)} == bag + (LengthMarks(k) + x);
  }

  function PlainOutput(v: Bytes): Bytes { if v == [] then [] else PlainForm(v) }

  lemma PlainOutputForms(w: Word, dict: seq<Scored>)
    requires Bypasses(w) && AllBytes(w.bytes)
    ensures IsForm(PutUvarint(|w.bytes|) + PlainOutput(w.bytes), w, Chosen([], [], w.bytes), dict, 0)
  {
    PlainForms(w, dict);
    assert PutUvarint(|w.bytes|) + PlainOutput(w.bytes) == Plain(w.bytes);
  }

  lemma ResultForms(w: Word, dict: seq<Scored>, output: seq<nat>, c: Chosen, k: nat)
    requires w.bytes != [] && Result(w.bytes, dict, output, c) && |c.cover| <= k
    ensures IsForm(PutUvarint(|w.bytes|) + output, w, c, dict, k)
  {
  }

  /** Unless the word is empty, its cover or the word itself. */
  method WriteOutput(w: Word, find: Bytes -> seq<Match>, dict: seq<Scored>, ring: Ring.Ring, posMap: map<nat, nat>,
                     uses: seq<nat>, ghost bag: multiset<Mark>)
      returns (output: seq<nat>, posMap': map<nat, nat>, uses': seq<nat>, ghost c: Chosen)
    requires ring.Valid() && WordOk(w, find, dict) && |uses| == |dict| && Tallies(posMap, uses, bag)
    modifies ring, ring.cells
    ensures ring.Valid() && (ring.cells == old(ring.cells) || fresh(ring.cells))
    ensures IsForm(PutUvarint(|w.bytes|) + output, w, c, dict, MatchCount(w, find))
    ensures |uses'| == |dict| && Tallies(posMap', uses', bag + MarksOf(c))
  {
    var v := w.bytes;
    if |v| > 0 && w.compress {
      output, posMap', uses', c := OptimiseCluster.OptimiseCluster(v, find(v), dict, ring, posMap, uses, bag);
      ResultForms(w, dict, output, c, |find(v)|);
    } else {
      output, posMap', uses', c := PlainOutput(v), posMap, uses, Chosen([], [], v);
      assert bag + MarksOf(c) == bag;
      PlainOutputForms(w, dict);
    }
  }

  /** One word with its length. */
  method WriteForm(w: Word, find: Bytes -> seq<Match>, dict: seq<Scored>, ring: Ring.Ring, s: seq<nat>,
                   posMap: map<nat, nat>, uses: seq<nat>, ghost bag: multiset<Mark>)
      returns (s': seq<nat>, posMap': map<nat, nat>, uses': seq<nat>, ghost x: seq<nat>, ghost c: Chosen)
    requires ring.Valid() && WordOk(w, find, dict) && |uses| == |dict| && Tallies(posMap, uses, bag)
    modifies ring, ring.cells
    ensures ring.Valid() && (ring.cells == old(ring.cells) || fresh(ring.cells))
    ensures s' == s + x && IsForm(x, w, c, dict, MatchCount(w, find))
    ensures |uses'| == |dict| && Tallies(posMap', uses', bag + WordMarks(w, c))
  {
    var n := |w.bytes|;
    var output;
    output, posMap', uses', c := WriteOutput(w, find, dict, ring, posMap, uses, bag);
    x := PutUvarint(n) + output;
    s' := s + PutUvarint(n) + output;
    LengthTallied(posMap', uses', bag, MarksOf(c), n);
    posMap' := Count(Count(posMap', n + 1), 0);
  }

  /** The first half of reducedict, with one worker. */
  method WriteIntermediate(words: seq<Word>, find: Bytes -> seq<Match>, dict: seq<Scored>)
      returns (s: seq<nat>, posMap: map<nat, nat>, uses: seq<nat>, ghost bag: multiset<Mark>, ghost forms: seq<Form>)
    requires WordsOk(words, find, dict)
    ensures Written(s, bag, words, find, forms, |words|, dict) && |uses| == |dict| && Tallies(posMap, uses, bag)
  {
    s, posMap, uses, bag, forms := [], map[], seq(|dict|, i => 0), multiset{}, [];
    var ring := new Ring.Ring();
    NoneTallied(uses);
    WrittenNone(words, find, dict);
    for n := 0 to |words|
      invariant ring.Valid() && fresh(ring) && fresh(ring.cells)
      invariant Written(s, bag, words, find, forms, n, dict) && |uses| == |dict| && Tallies(posMap, uses, bag)
    {
      assert WordOk(words[n], find, dict);
      var s', posMap', uses'; ghost var x, c;
      s', posMap', uses', x, c := WriteForm(words[n], find, dict, ring, s, posMap, uses, bag);
      WrittenNext(s, bag, x, words, find, forms, n, c, dict);
      forms, bag := forms + [Form(|s|, c)], bag + WordMarks(words[n], c);
      s, posMap, uses := s', posMap', uses';
    }
  }

  // ---- every symbol is counted, and there are not too many

  lemma {:induction false} PieceMarked(cover: seq<Piece>, nums: seq<nat>, j: nat, i: nat)
    requires i < j <= |cover| == |nums|
    ensures Position(Rel(cover, i)) in PieceMarks(multiset{}, cover, nums, j)
    ensures Use(nums[i]) in PieceMarks(multiset{}, cover, nums, j)
  {
    if i < j - 1 {
      PieceMarked(cover, nums, j - 1, i);
    }
  }

  lemma MarkHeld(bag: multiset<Mark>, words: seq<Word>, find: Bytes -> seq<Match>, forms: seq<Form>, i: nat, m: Mark)
    requires BagOk(bag, words, find, forms) && i < |forms| && m in WordMarks(words[i], forms[i].c)
    ensures m in bag
  {
    MergedHolds(Bags(words, forms), |forms|, i, m);
  }

  /** The counters know the length, the terminator, and every piece of word i. */
  lemma WordCounted(s: seq<nat>, bag: multiset<Mark>, words: seq<Word>, find: Bytes -> seq<Match>, forms: seq<Form>,
                    dict: seq<Scored>,
                    posMap: map<nat, nat>, uses: seq<nat>, i: nat)
    requires Written(s, bag, words, find, forms, |words|, dict) && Tallies(posMap, uses, bag) && i < |words|
    ensures |words[i].bytes| + 1 in posMap && 0 in posMap
    ensures forall j :: 0 <= j < |forms[i].c.cover| ==> PieceCounted(forms[i].c, j, posMap, uses)
  {
    var c := forms[i].c;
    MarkHeld(bag, words, find, forms, i, Position(|words[i].bytes| + 1));
    MarkHeld(bag, words, find, forms, i, Position(0));
    forall j | 0 <= j < |c.cover| ensures PieceCounted(c, j, posMap, uses) {
      PieceMarked(c.cover, c.nums, |c.cover|, j);
      MarkHeld(bag, words, find, forms, i, Position(Rel(c.cover, j)));
      MarkHeld(bag, words, find, forms, i, Use(c.nums[j]));
    }
  }

  ghost predicate PieceCounted(c: Chosen, j: nat, posMap: map<nat, nat>, uses: seq<nat>)
    requires j < |c.cover| && |c.nums| == |c.cover|
  {
    Rel(c.cover, j) in posMap && c.nums[j] < |uses| && uses[c.nums[j]] > 0
  }

  /** The symbols that a word can need: a length, a terminator, and its matches. */
  function SymbolCounts(words: seq<Word>, find: Bytes -> seq<Match>): (r: seq<nat>)
    ensures |r| == |words| && forall i :: 0 <= i < |r| ==> r[i] == MatchCount(words[i], find) + 2
  {
    seq(|words|, i requires 0 <= i < |words| => MatchCount(words[i], find) + 2)
  }

  function Symbols(words: seq<Word>, find: Bytes -> seq<Match>): nat { Total(SymbolCounts(words, find)) }

  ghost predicate AllPositions(ms: seq<Mark>) { forall i :: 0 <= i < |ms| ==> ms[i].Position? }

  ghost predicate AllUses(ms: seq<Mark>) { forall i :: 0 <= i < |ms| ==> ms[i].Use? }

  lemma {:induction false} PieceMarksAtMost(ms: seq<Mark>, cover: seq<Piece>, nums: seq<nat>, j: nat)
    requires AllDifferent(ms) && (AllPositions(ms) || AllUses(ms)) && j <= |cover| == |nums|
    ensures AtMost(ms, PieceMarks(multiset{}, cover, nums, j), j)
  {
    if j == 0 {
      AtMostNone(ms, |ms|);
    } else {
      PieceMarksAtMost(ms, cover, nums, j - 1);
      var before, m, u := PieceMarks(multiset{}, cover, nums, j - 1), Position(Rel(cover, j - 1)), Use(nums[j - 1]);
      AtMostOne(ms, m);
      AtMostOne(ms, u);
      var i, k := if AllPositions(ms) then 1 else 0, if AllPositions(ms) then 0 else 1;
      AtMostBoth(ms, before, j - 1, multiset{m}, i);
      AtMostBoth(ms, before + multiset{m}, j - 1 + i, multiset{u}, k);
    }
  }

  lemma WordAtMost(ms: seq<Mark>, w: Word, c: Chosen, k: nat)
    requires AllDifferent(ms) && (AllPositions(ms) || AllUses(ms)) && |c.nums| == |c.cover| <= k
    ensures AtMost(ms, WordMarks(w, c), k + 2)
  {
    PieceMarksAtMost(ms, c.cover, c.nums, |c.cover|);
    AtMostOne(ms, Position(|w.bytes| + 1));
    AtMostOne(ms, Position(0));
    AtMostBoth(ms, multiset{Position(|w.bytes| + 1)}, 1, multiset{Position(0)}, 1);
    assert multiset{Position(|w.bytes| + 1)} + multiset{Position(0)} == LengthMarks(|w.bytes|);
    AtMostBoth(ms, LengthMarks(|w.bytes|), 2, MarksOf(c), |c.cover|);
  }

  lemma MarksAtMost(ms: seq<Mark>, bag: multiset<Mark>, words: seq<Word>, find: Bytes -> seq<Match>, forms: seq<Form>)
    requires AllDifferent(ms) && (AllPositions(ms) || AllUses(ms)) && BagOk(bag, words, find, forms)
    requires |forms| == |words|
    ensures AtMost(ms, bag, Symbols(words, find))
  {
    var bags := Bags(words, forms);
    forall i | 0 <= i < |bags| ensures AtMost(ms, bags[i], SymbolCounts(words, find)[i]) {
      WordAtMost(ms, words[i], forms[i].c, MatchCount(words[i], find));
    }
    MergedAtMost(ms, bags, SymbolCounts(words, find), |words|);
  }
}
