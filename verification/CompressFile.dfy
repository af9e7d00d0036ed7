/** From the intermediate file to the compressed one, and from there back to words. */
module CompressFile {
  import opened Words
  import opened Sums
  import opened Tally
  import opened HuffmanTree
  import opened DecodeTables
  import opened WordLayout
  import opened Reencode
  import opened OptimiseCluster
  import opened Intermediate
  import opened HuffmanBook
  import G = Getter
  import HuffmanCoder

  // ---- the compressed file

  lemma {:induction false} EncodedKept(s: seq<bool>, s': seq<bool>, b: Books, w: seq<nat>, cover: seq<Piece>, p: nat)
    requires EncodedAt(s, b, w, cover, p) && s <= s'
    ensures EncodedAt(s', b, w, cover, p)
  {
    HereGrows(s, s', 8 * p, CodeOf(b.posTree, |w| + 1));
    if w != [] {
      forall j | 0 <= j <= |cover| ensures PosAt(s', b, w, cover, p, j) {
        assert PosAt(s, b, w, cover, p, j);
        HereGrows(s, s', BitPos(b, w, cover, p, j), CodeOf(b.posTree, PosOf(cover, j)));
      }
      forall j | 0 <= j < |cover| ensures PatternAt(s', b, w, cover, p, j) {
        assert PatternAt(s, b, w, cover, p, j);
        HereGrows(s, s', AfterPos(b, w, cover, p, j), CodeOf(b.patTree, cover[j].pattern));
      }
      forall j | 0 <= j <= |cover| ensures GapAt(s', b, w, cover, p, j) {
        assert GapAt(s, b, w, cover, p, j);
        RawKept(s, s', RawStart(b, w, cover, p) + Gaps(w, cover, j), w, Covered(cover, j), Gap(w, cover, j));
      }
    }
  }

  lemma {:induction false} RawKept(s: seq<bool>, s': seq<bool>, x: nat, w: seq<nat>, i: nat, n: nat)
    requires RawAt(s, x, w, i, n) && s <= s'
    ensures RawAt(s', x, w, i, n)
  {
    forall m | i <= m < i + n ensures ByteOf(s', x + (m - i)) == w[m] {
      assert ByteOf(s, x + (m - i)) == w[m];
      NumberKept(s, s', 8 * (x + (m - i)), 8 * (x + (m - i)) + 8);
    }
  }

  lemma {:induction false} NumberKept(s: seq<bool>, s': seq<bool>, i: nat, j: nat)
    requires i <= j <= |s| && s <= s'
    ensures Number(s', i, j) == Number(s, i, j)
    decreases j - i
  {
    if i < j {
      NumberKept(s, s', i + 1, j);
    }
  }

  /** The first n words are encoded one behind the other from byte 0 to the end. */
  ghost predicate EncodedTo(data: seq<bool>, b: Books, words: seq<Word>, forms: seq<Form>, ps: seq<nat>, n: nat) {
    && n <= |words| && n <= |forms| && |ps| == n + 1 && ps[0] == 0 && |data| == 8 * ps[n]
    && (forall i :: 0 <= i < n ==> EncodedAt(data, b, words[i].bytes, forms[i].c.cover, ps[i]))
    && forall i :: 0 <= i < n ==> ps[i + 1] == End(b, words[i].bytes, forms[i].c.cover, ps[i])
  }

  lemma {:induction false} EncodedNext(data: seq<bool>, data': seq<bool>, b: Books, words: seq<Word>, forms: seq<Form>,
                                       ps: seq<nat>, n: nat)
    requires EncodedTo(data, b, words, forms, ps, n) && n < |words| && n < |forms| && data <= data'
    requires EncodedAt(data', b, words[n].bytes, forms[n].c.cover, ps[n])
    requires |data'| == 8 * End(b, words[n].bytes, forms[n].c.cover, ps[n])
    ensures EncodedTo(data', b, words, forms, ps + [End(b, words[n].bytes, forms[n].c.cover, ps[n])], n + 1)
  {
    forall i | 0 <= i < n ensures EncodedAt(data', b, words[i].bytes, forms[i].c.cover, ps[i]) {
      EncodedKept(data, data', b, words[i].bytes, forms[i].c.cover, ps[i]);
    }
  }

  /** All that the words need has a code. */
  ghost predicate AllCodable(b: Books, words: seq<Word>, forms: seq<Form>, code2pattern: seq<Entry>) {
    |forms| == |words| && forall i :: 0 <= i < |words| ==>
        Codable(b, words[i].bytes, forms[i].c.cover, forms[i].c.nums, code2pattern)
  }

  /** The second half of reducedict. */
  method ReencodeAll(s: seq<nat>, pos2code: map<nat, Code>, code2pattern: seq<Entry>, ghost b: Books,
                     ghost words: seq<Word>, ghost forms: seq<Form>,
                     ghost dict: seq<Scored>) returns (data: seq<bool>, ghost ps: seq<nat>)
    requires FormsTo(s, words, forms, |words|, dict) && (words != [] ==> HasCodes(pos2code, b.posTree))
    requires AllCodable(b, words, forms, code2pattern)
    ensures EncodedTo(data, b, words, forms, ps, |words|) && |data| % 8 == 0
  {
    var coder := new HuffmanCoder.Coder();
    var at := 0;
    ghost var n := 0;
    ps := [0];
    NextForm(s, words, forms, dict, 0);
    while at < |s|
      invariant n <= |words| && coder.Valid() && fresh(coder) && coder.outputBits == 0
      invariant EncodedTo(coder.w, b, words, forms, ps, n) && at == FormStart(s, forms, n)
      decreases |words| - n
    {
      NextForm(s, words, forms, dict, n);
      ghost var f, before := forms[n], coder.w;
      at := ReencodeWord(coder, s, at, pos2code, code2pattern, b, words[n].bytes, f.c.cover, f.c.nums, f.c.raw, ps[n]);
      EncodedNext(before, coder.w, b, words, forms, ps, n);
      ps := ps + [End(b, words[n].bytes, f.c.cover, ps[n])];
      n := n + 1;
    }
    data := coder.w;
    NextForm(s, words, forms, dict, n);
  }

  ghost function FormStart(s: seq<nat>, forms: seq<Form>, n: nat): nat { if n < |forms| then forms[n].at else |s| }

  lemma {:induction false} NextForm(s: seq<nat>, words: seq<Word>, forms: seq<Form>, dict: seq<Scored>, n: nat)
    requires FormsTo(s, words, forms, |words|, dict) && n <= |words|
    ensures FormStart(s, forms, 0) == 0 && (FormStart(s, forms, n) < |s| <==> n < |words|)
    ensures n < |words| ==> FormOk(s, words[n], forms[n], dict)
    ensures n < |words| ==> FormStart(s, forms, n + 1) == FormEnd(words[n], forms[n])
  {
    assert FollowsAt(s, words, forms, |words|, 0);
    if n < |words| {
      assert FormOk(s, words[n], forms[n], dict) && FollowsAt(s, words, forms, |words|, n + 1);
    }
  }

  // ---- the dictionaries

  /** The positions that occur, with their counts. */
  method ListPositions(posMap: map<nat, nat>) returns (values: seq<nat>, counts: seq<nat>)
    requires forall k :: k in posMap ==> posMap[k] > 0
    ensures |values| == |counts| && AllDifferent(values) && (forall v :: v in posMap ==> v in values)
    ensures forall i :: 0 <= i < |values| ==> values[i] in posMap && counts[i] == posMap[values[i]] > 0
  {
    values, counts := [], [];
    var rest := posMap.Keys;
    while rest != {}
      invariant |values| == |counts| && AllDifferent(values) && rest <= posMap.Keys
      invariant forall v :: v in posMap ==> v in values || v in rest
      invariant forall i :: 0 <= i < |values| ==>
          values[i] in posMap && values[i] !in rest && counts[i] == posMap[values[i]] > 0
      decreases rest
    {
      var v :| v in rest;
      values, counts, rest := values + [v], counts + [posMap[v]], rest - {v};
    }
  }

  method MapCodes(values: seq<nat>, codes: seq<Code>, ghost t: Tree<nat>) returns (pos2code: map<nat, Code>)
    requires CodesOf(codes, values, t) && AllDifferent(values)
    ensures HasCodes(pos2code, t)
  {
    pos2code := map[];
    for i := 0 to |values|
      invariant forall v :: v in pos2code <==> v in values[..i]
      invariant forall j :: 0 <= j < i ==> pos2code[values[j]] == codes[j]
    {
      pos2code := pos2code[values[i] := codes[i]];
      assert values[..i + 1] == values[..i] + [values[i]];
    }
    assert values[..|values|] == values;
    forall v | v in pos2code ensures In(t, v) && ToBits(pos2code[v].code, pos2code[v].codeBits) == CodeOf(t, v) {
      var j :| 0 <= j < |values| && values[j] == v;
      assert CodeIs(codes[j], values[j], t);
    }
  }

  ghost predicate DifferentWords(dict: seq<Scored>) {
    forall i, j :: 0 <= i < j < |dict| ==> dict[i].word != dict[j].word
  }

  /** The patterns that are used: their numbers, words and uses. */
  method ListPatterns(dict: seq<Scored>, uses: seq<nat>)
      returns (nums: seq<nat>, values: seq<seq<nat>>, counts: seq<nat>)
    requires |uses| == |dict| && DifferentWords(dict)
    ensures |nums| == |values| == |counts| && AllDifferent(values)
    ensures forall i :: 0 <= i < |nums| ==>
        nums[i] < |dict| && values[i] == dict[nums[i]].word && counts[i] == uses[nums[i]] > 0
    ensures forall i, j :: 0 <= i < j < |nums| ==> nums[i] < nums[j]
    ensures forall c :: 0 <= c < |dict| && uses[c] > 0 ==> c in nums
  {
    nums, values, counts := [], [], [];
    for c := 0 to |dict|
      invariant |nums| == |values| == |counts|
      invariant forall i :: 0 <= i < |nums| ==>
          nums[i] < c && values[i] == dict[nums[i]].word && counts[i] == uses[nums[i]] > 0
      invariant forall i, j :: 0 <= i < j < |nums| ==> nums[i] < nums[j]
      invariant forall d :: 0 <= d < c && uses[d] > 0 ==> d in nums
    {
      if uses[c] > 0 {
        nums, values, counts := nums + [c], values + [dict[c].word], counts + [uses[c]];
      }
    }
  }

  /** code2pattern with the codes of the used patterns. */
  method PatternCodes(dict: seq<Scored>, nums: seq<nat>, codes: seq<Code>) returns (code2pattern: seq<Entry>)
    requires |codes| == |nums| && forall i :: 0 <= i < |nums| ==> nums[i] < |dict|
    requires forall i, j :: 0 <= i < j < |nums| ==> nums[i] < nums[j]
    ensures |code2pattern| == |dict| && forall c :: 0 <= c < |dict| ==> code2pattern[c].word == dict[c].word
    ensures forall i :: 0 <= i < |nums| ==> code2pattern[nums[i]].code == codes[i]
  {
    code2pattern := seq(|dict|, c requires 0 <= c < |dict| => Entry(dict[c].word, Code(c, 0)));
    for i := 0 to |nums|
      invariant |code2pattern| == |dict| && forall c :: 0 <= c < |dict| ==> code2pattern[c].word == dict[c].word
      invariant forall j :: 0 <= j < i ==> code2pattern[nums[j]].code == codes[j]
    {
      code2pattern := code2pattern[nums[i] := Entry(dict[nums[i]].word, codes[i])];
    }
  }

  /** The number of every used pattern leads to its code. */
  ghost predicate UsedCoded(dict: seq<Scored>, uses: seq<nat>, code2pattern: seq<Entry>, t: Tree<seq<nat>>) {
    && |uses| == |dict| == |code2pattern|
    && forall c :: 0 <= c < |dict| && uses[c] > 0 ==>
        CodedPattern(code2pattern, c, t) && code2pattern[c].word == dict[c].word
  }

  lemma PatternsCoded(dict: seq<Scored>, uses: seq<nat>, nums: seq<nat>, values: seq<seq<nat>>, codes: seq<Code>,
                      code2pattern: seq<Entry>, t: Tree<seq<nat>>)
    requires |uses| == |dict| == |code2pattern| && |nums| == |values| && CodesOf(codes, values, t)
    requires forall i :: 0 <= i < |nums| ==>
        nums[i] < |dict| && values[i] == dict[nums[i]].word && code2pattern[nums[i]].code == codes[i]
    requires (forall c :: 0 <= c < |dict| ==> code2pattern[c].word == dict[c].word)
    requires forall c :: 0 <= c < |dict| && uses[c] > 0 ==> c in nums
    ensures UsedCoded(dict, uses, code2pattern, t)
  {
    forall c | 0 <= c < |dict| && uses[c] > 0 ensures CodedPattern(code2pattern, c, t) {
      assert c in nums;
      var i :| 0 <= i < |nums| && nums[i] == c;
      assert CodeIs(codes[i], values[i], t);
    }
  }

  lemma FormsCodable(b: Books, s: seq<nat>, bag: multiset<Mark>, words: seq<Word>, find: Bytes -> seq<Match>,
                     forms: seq<Form>, dict: seq<Scored>,
                     posMap: map<nat, nat>, uses: seq<nat>, code2pattern: seq<Entry>)
    requires Written(s, bag, words, find, forms, |words|, dict) && Tallies(posMap, uses, bag)
    requires (forall v :: v in posMap ==> In(b.posTree, v)) && UsedCoded(dict, uses, code2pattern, b.patTree)
    ensures AllCodable(b, words, forms, code2pattern)
  {
    forall i | 0 <= i < |words| ensures Codable(b, words[i].bytes, forms[i].c.cover, forms[i].c.nums, code2pattern) {
      var f := forms[i];
      assert FormOk(s, words[i], f, dict);
      WordCounted(s, bag, words, find, forms, dict, posMap, uses, i);
      forall j | 0 <= j < |f.c.cover| ensures PieceCodable(b, f.c.cover, f.c.nums, code2pattern, j) {
        assert PieceCounted(f.c, j, posMap, uses);
      }
    }
  }

  // ---- reading it all back

  /** Two symbols: no code is empty, so that every word takes at least a byte. */
  lemma {:induction false} WordTakesSpace(b: Books, w: seq<nat>, cover: seq<Piece>, p: nat)
    requires In(b.posTree, 0) && In(b.posTree, |w| + 1)
    ensures End(b, w, cover, p) > p
  {
    var n := |CodeOf(b.posTree, |w| + 1)|;
    assert b.posTree.Node? && n > 0;
    LaterByte(p, n);
    if w != [] {
      LaterBit(b, w, cover, p, |cover|);
      LaterByte(p, AfterPos(b, w, cover, p, |cover|) - 8 * p);
    }
  }

  lemma {:induction false} LaterBit(b: Books, w: seq<nat>, cover: seq<Piece>, p: nat, j: nat)
    requires j <= |cover|
    ensures BitPos(b, w, cover, p, j) >= 8 * p + |CodeOf(b.posTree, |w| + 1)|
  {
    if j > 0 {
      LaterBit(b, w, cover, p, j - 1);
    }
  }

  lemma {:induction false} LaterByte(p: nat, n: nat)
    requires n > 0
    ensures NextByte(8 * p + n) > p
  {
    if p > 0 {
      LaterByte(p - 1, n);
    }
  }

  /** The first n words, in order. */
  ghost predicate Same(out: seq<seq<nat>>, words: seq<Word>, n: nat) {
    |out| == n <= |words| && forall i :: 0 <= i < n ==> out[i] == words[i].bytes
  }

  /** Next until nothing is left. */
  method DecodeAll(data: seq<bool>, posDict: Table<nat>, patternDict: Table<seq<nat>>, ghost b: Books,
                   ghost words: seq<Word>, ghost forms: seq<Form>, ghost ps: seq<nat>)
      returns (out: seq<seq<nat>>)
    requires |data| % 8 == 0 && TableOk(posDict, b.posTree) && TableOk(patternDict, b.patTree)
    requires EncodedTo(data, b, words, forms, ps, |words|)
    requires In(b.posTree, 0)
    ensures Same(out, words, |words|)
  {
    var g := new G.Getter(data, posDict, patternDict, b);
    out := [];
    ghost var n := 0;
    Ascends(data, b, words, forms, ps, 0);
    while g.HasNext()
      invariant n <= |words| && g.Valid() && fresh(g) && g.data == data && g.books == b && g.dataBit == 0
      invariant g.dataP == ps[n]
      invariant n < |words| <==> ps[n] < ps[|words|]
      invariant Same(out, words, n)
      decreases |words| - n
    {
      assert EncodedAt(data, b, words[n].bytes, forms[n].c.cover, ps[n]);
      var word, pos := g.Next([], _ => 0, words[n].bytes, forms[n].c.cover);
      out := out + [word];
      n := n + 1;
      Ascends(data, b, words, forms, ps, n);
    }
  }

  lemma {:induction false} Ascends(data: seq<bool>, b: Books, words: seq<Word>, forms: seq<Form>, ps: seq<nat>, i: nat)
    requires EncodedTo(data, b, words, forms, ps, |words|) && i <= |words| && In(b.posTree, 0)
    ensures ps[i] <= ps[|words|] && (i < |words| ==> ps[i] < ps[|words|])
    decreases |words| - i
  {
    if i < |words| {
      assert EncodedAt(data, b, words[i].bytes, forms[i].c.cover, ps[i]);
      WordTakesSpace(b, words[i].bytes, forms[i].c.cover, ps[i]);
      Ascends(data, b, words, forms, ps, i + 1);
    }
  }
}
