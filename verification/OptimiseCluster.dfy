/** optimiseCluster: a cover of a word by some of the patterns that match in it, chosen by
    dynamic programming from the last match to the first, and its intermediate form. */
module OptimiseCluster {
  import opened WordLayout
  import opened Uvarint
  import opened Reencode
  import opened Tally
  import Ring

  /** Where pattern number `pattern` occurs in the word. */
  datatype Match = Match(start: nat, end: nat, pattern: nat)

  /** A dictionary pattern with its score. */
  datatype Scored = Scored(word: seq<nat>, score: nat)

  /** The matches are occurrences of patterns, and start and end strictly later one after
      the other. */
  ghost predicate Sound(input: seq<nat>, matches: seq<Match>, dict: seq<Scored>) {
    && (forall i :: 0 <= i < |matches| ==> Occurs(input, matches[i], dict))
    && forall i, j :: 0 <= i < j < |matches| ==> matches[i].start < matches[j].start && matches[i].end < matches[j].end
  }

  ghost predicate Occurs(input: seq<nat>, m: Match, dict: seq<Scored>) {
    && m.pattern < |dict| && m.start < m.end == m.start + |dict[m.pattern].word| <= |input|
    && forall k :: 0 <= k < |dict[m.pattern].word| ==> input[m.start + k] == dict[m.pattern].word[k]
  }

  // ---- chains of patterns

  /** From idx on, the slice of (match, next) pairs leads through later and later matches,
      none before match lo; 0 ends a chain. */
  ghost predicate ChainOk(patterns: seq<nat>, idx: nat, lo: nat, n: nat)
    decreases idx
  {
    idx == 0 ||
    (idx + 1 < |patterns| && lo <= patterns[idx] < n && patterns[idx + 1] < idx &&
        ChainOk(patterns, patterns[idx + 1], patterns[idx] + 1, n))
  }

  /** The matches of a chain. */
  function Chain(patterns: seq<nat>, idx: nat): seq<nat>
    decreases idx
  {
    if idx == 0 || idx + 1 >= |patterns| || patterns[idx + 1] >= idx then []
    else [patterns[idx]] + Chain(patterns, patterns[idx + 1])
  }

  lemma {:induction false} ChainGrows(patterns: seq<nat>, more: seq<nat>, idx: nat, lo: nat, lo': nat, n: nat)
    requires ChainOk(patterns, idx, lo, n) && lo' <= lo && patterns <= more
    ensures ChainOk(more, idx, lo', n)
    decreases idx
  {
    if idx != 0 {
      ChainGrows(patterns, more, patterns[idx + 1], patterns[idx] + 1, patterns[idx] + 1, n);
    }
  }

  /** The matches of a chain ascend. */
  lemma {:induction false} ChainAscends(patterns: seq<nat>, idx: nat, lo: nat, n: nat, j: nat)
    requires ChainOk(patterns, idx, lo, n) && j < |Chain(patterns, idx)|
    ensures lo <= Chain(patterns, idx)[j] < n
    ensures j > 0 ==> Chain(patterns, idx)[j - 1] < Chain(patterns, idx)[j]
    decreases idx
  {
    if j > 0 {
      ChainAscends(patterns, patterns[idx + 1], patterns[idx] + 1, n, j - 1);
    }
  }

  // ---- the dynamic programming

  ghost predicate CellsOk(cells: seq<Ring.Cell>, patterns: seq<nat>, lo: nat, n: nat) {
    forall e :: 0 <= e < |cells| ==> ChainOk(patterns, cells[e].patternIdx, lo, n)
  }

  /** What a chain saves in a word of the given length, where 4 is paid for every pattern: the first pattern of the
      chain covers its characters up to the next one. */
  function Saving(patterns: seq<nat>, idx: nat, matches: seq<Match>, len: nat): int
    decreases idx
  {
    if idx == 0 || idx + 1 >= |patterns| || patterns[idx + 1] >= idx || patterns[idx] >= |matches| then 0
    else
      var rest := patterns[idx + 1];
      Saving(patterns, rest, matches, len) + Gain(CoverStart(patterns, rest, matches, len), matches[patterns[idx]])
  }

  /** What match f adds to a cover that starts at a place. */
  function Gain(coverStart: int, f: Match): int {
    (if coverStart >= f.end then f.end - f.start else coverStart - f.start) - 4
  }

  function CoverStart(patterns: seq<nat>, idx: nat, matches: seq<Match>, len: nat): int {
    if idx == 0 || idx >= |patterns| || patterns[idx] >= |matches| then len else matches[patterns[idx]].start
  }

  function ScoreOf(patterns: seq<nat>, idx: nat, matches: seq<Match>, dict: seq<Scored>): nat
    decreases idx
  {
    if idx == 0 || idx + 1 >= |patterns| || patterns[idx + 1] >= idx || patterns[idx] >= |matches| then 0
    else
      var f := matches[patterns[idx]];
      ScoreOf(patterns, patterns[idx + 1], matches, dict) + if f.pattern < |dict| then dict[f.pattern].score else 0
  }

  /** A cell knows what its chain is worth. */
  predicate Valued(cell: Ring.Cell, patterns: seq<nat>, matches: seq<Match>, dict: seq<Scored>, len: nat) {
    && cell.compression == Saving(patterns, cell.patternIdx, matches, len) >= 0
    && cell.coverStart == CoverStart(patterns, cell.patternIdx, matches, len)
    && cell.score == ScoreOf(patterns, cell.patternIdx, matches, dict)
  }

  ghost predicate AllValued(cells: seq<Ring.Cell>, patterns: seq<nat>, matches: seq<Match>, dict: seq<Scored>,
      len: nat) {
    forall e {:trigger cells[e]} :: 0 <= e < |cells| ==> Valued(cells[e], patterns, matches, dict, len)
  }

  lemma {:induction false} ValueGrows(patterns: seq<nat>, more: seq<nat>, idx: nat, lo: nat, matches: seq<Match>,
                                      dict: seq<Scored>, len: nat)
    requires ChainOk(patterns, idx, lo, |matches|) && patterns <= more
    ensures Saving(more, idx, matches, len) == Saving(patterns, idx, matches, len)
    ensures CoverStart(more, idx, matches, len) == CoverStart(patterns, idx, matches, len)
    ensures ScoreOf(more, idx, matches, dict) == ScoreOf(patterns, idx, matches, dict)
    decreases idx
  {
    if idx != 0 {
      ValueGrows(patterns, more, patterns[idx + 1], patterns[idx] + 1, matches, dict, len);
    }
  }

  /** One choice is not better than another: it saves less, or the same with no higher score. */
  predicate NotBetter(comp: int, score: int, maxCompression: int, maxScore: int) {
    comp < maxCompression || (comp == maxCompression && score <= maxScore)
  }

  /** The best of leaving match f out, with the first cell, and of taking it before one of the first n cells. */
  ghost predicate IsBest(cells: seq<Ring.Cell>, f: Match, score: nat, n: nat, maxCell: Ring.Cell, maxInclude: bool,
                         maxCompression: int, maxScore: int) {
    && 0 < |cells| && n <= |cells| && maxCell in cells
    && (if maxInclude then
          maxCompression == maxCell.compression + Gain(maxCell.coverStart, f) && maxScore == maxCell.score + score
        else maxCell == cells[0] && maxCompression == maxCell.compression && maxScore == maxCell.score)
    && NotBetter(cells[0].compression, cells[0].score, maxCompression, maxScore)
    && forall e {:trigger cells[e]} :: 0 <= e < n ==>
      NotBetter(cells[e].compression + Gain(cells[e].coverStart, f), cells[e].score + score, maxCompression, maxScore)
  }

  /** The cell from which covering match f is best continued, and whether f is part of the
      best cover; cells that start behind f's end are dropped once they cannot improve. */
  method Best(ring: Ring.Ring, f: Match, score: nat)
      returns (maxCell: Ring.Cell, maxInclude: bool, maxCompression: int, maxScore: nat)
    requires ring.Valid() && ring.count > 0
    modifies ring
    ensures ring.Valid() && ring.cells == old(ring.cells) && ring.Contents() <= old(ring.Contents())
    ensures var cells, kept := old(ring.Contents()), ring.count;
      && IsBest(cells, f, score, if kept < |cells| then kept + 1 else kept,
                maxCell, maxInclude, maxCompression, maxScore)
      && (kept < |cells| ==> cells[kept].optimStart > f.end)
  {
    ghost var cells := ring.Contents();
    var firstCell := ring.Get(0);
    maxCompression, maxScore, maxCell, maxInclude := firstCell.compression, firstCell.score, firstCell, false;
    var e := 0;
    while e < ring.count
      invariant ring.Valid() && ring.cells == old(ring.cells) && ring.Contents() == cells
      invariant e <= ring.count && IsBest(cells, f, score, e, maxCell, maxInclude, maxCompression, maxScore)
    {
      var cell := ring.Get(e);
      var better;
      maxCell, maxInclude, maxCompression, maxScore, better :=
        Weigh(cell, f, score, maxCell, maxInclude, maxCompression, maxScore, cells, e);
      if !better && cell.optimStart > f.end {
        ring.Truncate(e);
        return;
      }
      e := e + 1;
    }
  }

  /** Taking the match before cell e, if that is better. */
  method Weigh(cell: Ring.Cell, f: Match, score: nat, maxCell: Ring.Cell, maxInclude: bool, maxCompression: int,
               maxScore: nat, ghost cells: seq<Ring.Cell>, ghost e: nat)
      returns (maxCell': Ring.Cell, maxInclude': bool, maxCompression': int, maxScore': nat, better: bool)
    requires IsBest(cells, f, score, e, maxCell, maxInclude, maxCompression, maxScore) && e < |cells|
    requires cells[e] == cell
    ensures IsBest(cells, f, score, e + 1, maxCell', maxInclude', maxCompression', maxScore')
    ensures better <==>
      !NotBetter(cell.compression + Gain(cell.coverStart, f), cell.score + score, maxCompression, maxScore)
  {
    maxCell', maxInclude', maxCompression', maxScore' := maxCell, maxInclude, maxCompression, maxScore;
    var comp := cell.compression - 4;
    if cell.coverStart >= f.end {
      comp := comp + (f.end - f.start);
    } else {
      comp := comp + (cell.coverStart - f.start);
    }
    var sum := cell.score + score;
    better := comp > maxCompression || (comp == maxCompression && sum > maxScore);
    if better {
      maxCompression', maxScore', maxInclude', maxCell' := comp, sum, true, cell;
    }
  }

  /** All matches from the last to the first: the chain of the best cover. */
  method BestChain(input: seq<nat>, matches: seq<Match>, dict: seq<Scored>, ring: Ring.Ring)
      returns (patterns: seq<nat>, idx: nat)
    requires ring.Valid() && matches != [] && Sound(input, matches, dict)
    modifies ring, ring.cells
    ensures ring.Valid() && (ring.cells == old(ring.cells) || fresh(ring.cells)) && ChainOk(patterns, idx, 0, |matches|)
    ensures Saving(patterns, idx, matches, |input|) >= 0
  {
    ring.Reset();
    patterns := [0, 0];
    var lastF := matches[|matches| - 1];
    assert Occurs(input, lastF, dict);
    FirstCells(ring, lastF, |input|, patterns, matches, dict);
    var i: nat := |matches|;
    while i > 0
      invariant i <= |matches| && ring.Valid() && ring.count > 0 && (ring.cells == old(ring.cells) || fresh(ring.cells))
      invariant |patterns| >= 2 && CellsOk(ring.Contents(), patterns, i, |matches|)
      invariant AllValued(ring.Contents(), patterns, matches, dict, |input|)
    {
      assert Occurs(input, matches[i - 1], dict);
      patterns := Consider(ring, matches, dict, i, patterns, |input|);
      i := i - 1;
    }
    var optimCell := ring.Get(0);
    idx := optimCell.patternIdx;
  }

  method FirstCells(ring: Ring.Ring, lastF: Match, inputLen: nat, ghost patterns: seq<nat>, ghost matches: seq<Match>,
                    ghost dict: seq<Scored>)
    requires ring.Valid() && ring.Contents() == [] && lastF.start < lastF.end
    modifies ring, ring.cells
    ensures ring.Valid() && ring.count > 0 && (ring.cells == old(ring.cells) || fresh(ring.cells))
    ensures CellsOk(ring.Contents(), patterns, |matches|, |matches|)
    ensures AllValued(ring.Contents(), patterns, matches, dict, inputLen)
  {
    var j := lastF.start;
    while j < lastF.end
      invariant lastF.start <= j <= lastF.end && ring.Valid() && ring.count == j - lastF.start
      invariant ring.cells == old(ring.cells) || fresh(ring.cells)
      invariant CellsOk(ring.Contents(), patterns, |matches|, |matches|)
      invariant AllValued(ring.Contents(), patterns, matches, dict, inputLen)
    {
      ring.PushBack(Ring.Cell(j + 1, inputLen, 0, 0, 0));
      j := j + 1;
    }
  }

  /** Match i - 1: a new cell in front, whose cover includes the match or not. */
  method Consider(ring: Ring.Ring, matches: seq<Match>, dict: seq<Scored>, i: nat, patterns: seq<nat>, ghost len: nat)
      returns (r: seq<nat>)
    requires ring.Valid() && ring.count > 0 && 0 < i <= |matches| && matches[i - 1].pattern < |dict|
    requires |patterns| >= 2 && CellsOk(ring.Contents(), patterns, i, |matches|)
    requires AllValued(ring.Contents(), patterns, matches, dict, len)
    modifies ring, ring.cells
    ensures ring.Valid() && ring.count > 0 && (ring.cells == old(ring.cells) || fresh(ring.cells))
    ensures |r| >= 2 && CellsOk(ring.Contents(), r, i - 1, |matches|)
    ensures AllValued(ring.Contents(), r, matches, dict, len)
  {
    var f := matches[i - 1];
    ghost var before := ring.Contents();
    var maxCell, maxInclude, maxCompression, maxScore := Best(ring, f, dict[f.pattern].score);
    ghost var kept := ring.Contents();
    if maxInclude {
      r := patterns + [i - 1, maxCell.patternIdx];
      ring.PushFront(Ring.Cell(f.start, f.start, maxCompression, maxScore, |patterns|));
    } else {
      r := patterns;
      ring.PushFront(Ring.Cell(f.start, maxCell.coverStart, maxCompression, maxScore, maxCell.patternIdx));
    }
    CellAdded(before, kept, ring.Contents(), maxCell, patterns, r, i, |matches|);
    ValueAdded(before, kept, ring.Contents(), maxCell, patterns, r, i, matches, dict, len);
  }

  lemma {:induction false} ValueAdded(before: seq<Ring.Cell>, kept: seq<Ring.Cell>, after: seq<Ring.Cell>,
                                      maxCell: Ring.Cell, patterns: seq<nat>, r: seq<nat>, i: nat, matches: seq<Match>,
                                      dict: seq<Scored>, len: nat)
    requires CellsOk(before, patterns, i, |matches|) && AllValued(before, patterns, matches, dict, len)
    requires kept <= before && maxCell in before && 0 < i <= |matches| && |patterns| >= 2
    requires matches[i - 1].pattern < |dict| && before != []
    requires |after| == |kept| + 1 && after[1..] == kept
    requires before[0].compression <= after[0].compression
    requires
      || (r == patterns && after[0] == maxCell.(optimStart := after[0].optimStart))
      || (r == patterns + [i - 1, maxCell.patternIdx] && after[0].patternIdx == |patterns|
          && after[0].coverStart == matches[i - 1].start
          && after[0].compression == maxCell.compression + Gain(maxCell.coverStart, matches[i - 1])
          && after[0].score == maxCell.score + dict[matches[i - 1].pattern].score)
    ensures AllValued(after, r, matches, dict, len)
  {
    var m :| 0 <= m < |before| && before[m] == maxCell;
    assert ChainOk(patterns, before[m].patternIdx, i, |matches|);
    ChainBelow(patterns, maxCell.patternIdx, i, |matches|);
    ValueGrows(patterns, r, maxCell.patternIdx, i, matches, dict, len);
    assert before[0].compression >= 0;
    forall e | 0 <= e < |after| ensures Valued(after[e], r, matches, dict, len) {
      if e > 0 {
        assert after[e] == after[1..][e - 1] == before[e - 1];
        ValueGrows(patterns, r, after[e].patternIdx, i, matches, dict, len);
      }
    }
  }

  lemma ChainBelow(patterns: seq<nat>, idx: nat, lo: nat, n: nat)
    requires ChainOk(patterns, idx, lo, n) && |patterns| >= 2
    ensures idx < |patterns|
  {
  }

  lemma CellAdded(before: seq<Ring.Cell>, kept: seq<Ring.Cell>, after: seq<Ring.Cell>, maxCell: Ring.Cell,
                  patterns: seq<nat>, r: seq<nat>, i: nat, n: nat)
    requires CellsOk(before, patterns, i, n) && kept <= before && maxCell in before && 0 < i <= n && |patterns| >= 2
    requires |after| == |kept| + 1 && after[1..] == kept
    requires || (r == patterns && after[0].patternIdx == maxCell.patternIdx)
             || (r == patterns + [i - 1, maxCell.patternIdx] && after[0].patternIdx == |patterns|)
    ensures CellsOk(after, r, i - 1, n)
  {
    ChainGrows(patterns, r, maxCell.patternIdx, i, i, n);
    ChainGrows(r, r, maxCell.patternIdx, i, i - 1, n);
    forall e | 0 <= e < |after| ensures ChainOk(r, after[e].patternIdx, i - 1, n) {
      if e > 0 {
        assert after[e] == kept[e - 1] == before[e - 1];
        ChainGrows(patterns, r, after[e].patternIdx, i, i - 1, n);
      }
    }
  }

  // ---- the intermediate form of the cover

  ghost function CoverOf(chain: seq<nat>, matches: seq<Match>, dict: seq<Scored>): (r: seq<Piece>)
    requires forall j :: 0 <= j < |chain| ==> chain[j] < |matches| && matches[chain[j]].pattern < |dict|
    ensures |r| == |chain|
    ensures forall j :: 0 <= j < |r| ==> r[j] == Piece(matches[chain[j]].start, dict[matches[chain[j]].pattern].word)
  {
    seq(|chain|, j requires 0 <= j < |chain| => Piece(matches[chain[j]].start, dict[matches[chain[j]].pattern].word))
  }

  ghost function NumsOf(chain: seq<nat>, matches: seq<Match>): (r: seq<nat>)
    requires forall j :: 0 <= j < |chain| ==> chain[j] < |matches|
    ensures |r| == |chain| && forall j :: 0 <= j < |r| ==> r[j] == matches[chain[j]].pattern
  {
    seq(|chain|, j requires 0 <= j < |chain| => matches[chain[j]].pattern)
  }

  /** The chain's matches cover the word in order. */
  lemma ChainCovers(input: seq<nat>, matches: seq<Match>, dict: seq<Scored>, patterns: seq<nat>, idx: nat)
    requires Sound(input, matches, dict) && ChainOk(patterns, idx, 0, |matches|)
    ensures forall j :: 0 <= j < |Chain(patterns, idx)| ==>
        Chain(patterns, idx)[j] < |matches| && matches[Chain(patterns, idx)[j]].pattern < |dict|
    ensures Covers(input, CoverOf(Chain(patterns, idx), matches, dict))
  {
    var chain := Chain(patterns, idx);
    forall j | 0 <= j < |chain| ensures chain[j] < |matches| && matches[chain[j]].pattern < |dict| {
      ChainAscends(patterns, idx, 0, |matches|, j);
      assert Occurs(input, matches[chain[j]], dict);
    }
    var cover := CoverOf(chain, matches, dict);
    forall j | 0 <= j < |cover| ensures InOrder(cover, j) && Fits(input, cover[j]) {
      ChainAscends(patterns, idx, 0, |matches|, j);
      assert Occurs(input, matches[chain[j]], dict);
    }
  }

  /** The gaps of a cover, from those of the cover without its first piece. */
  lemma {:induction false} GapsWithout(w: seq<nat>, cover: seq<Piece>, j: nat)
    requires 0 < j <= |cover|
    ensures Gaps(w, cover, j + 1) ==
      Gaps(w, cover[1..], j) + cover[0].start + Between(Covered(cover, 1), Until(w, cover, 1))
      - Until(w, cover, 1)
  {
    if j > 1 {
      GapsWithout(w, cover, j - 1);
      assert Gap(w, cover, j) == Gap(w, cover[1..], j - 1);
    } else {
      assert Gaps(w, cover, 1) == Gap(w, cover, 0) && Gaps(w, cover[1..], 1) == Gap(w, cover[1..], 0);
    }
  }

  lemma {:induction false} OnePieceMore(w: seq<nat>, cover: seq<Piece>, f: Match)
    requires cover != [] && cover[0].start == f.start && Covered(cover, 1) == f.end
    ensures |w| - Gaps(w, cover, |cover| + 1) - 4 * |cover| ==
        |w| - Gaps(w, cover[1..], |cover|) - 4 * (|cover| - 1) + Gain(Until(w, cover, 1), f)
  {
    GapsWithout(w, cover, |cover|);
  }

  /** What a chain saves: the covered characters, less 4 for every pattern. */
  lemma {:induction false} SavingIsCovered(input: seq<nat>, matches: seq<Match>, dict: seq<Scored>, patterns: seq<nat>,
                                           idx: nat, lo: nat)
    requires Sound(input, matches, dict) && ChainOk(patterns, idx, lo, |matches|)
    requires ChainWithin(Chain(patterns, idx), matches, dict)
    ensures var cover := CoverOf(Chain(patterns, idx), matches, dict);
      && Saving(patterns, idx, matches, |input|) == |input| - Gaps(input, cover, |cover| + 1) - 4 * |cover|
      && CoverStart(patterns, idx, matches, |input|) == Until(input, cover, 0)
    decreases idx
  {
    var chain := Chain(patterns, idx);
    var cover := CoverOf(chain, matches, dict);
    if idx == 0 {
      assert Gaps(input, cover, 1) == Gap(input, cover, 0);
    } else {
      var rest, f := Chain(patterns, patterns[idx + 1]), matches[patterns[idx]];
      assert chain == [patterns[idx]] + rest;
      assert ChainWithin(rest, matches, dict) by {
        assert forall j :: 0 <= j < |rest| ==> rest[j] == chain[j + 1];
      }
      assert CoverOf(rest, matches, dict) == cover[1..];
      SavingIsCovered(input, matches, dict, patterns, patterns[idx + 1], patterns[idx] + 1);
      assert Occurs(input, f, dict);
      OnePieceMore(input, cover, f);
    }
  }

  ghost predicate ChainWithin(chain: seq<nat>, matches: seq<Match>, dict: seq<Scored>) {
    forall j :: 0 <= j < |chain| ==> chain[j] < |matches| && matches[chain[j]].pattern < |dict|
  }

  lemma BytesGrow(s: seq<nat>, s': seq<nat>, i: nat, bytes: seq<nat>)
    requires BytesAt(s, i, bytes) && s <= s'
    ensures BytesAt(s', i, bytes)
  {
  }

  lemma BytesAppended(s: seq<nat>, bytes: seq<nat>)
    ensures BytesAt(s + bytes, |s|, bytes)
  {
  }

  /** The form holds the header and the first j entries. */
  ghost predicate EntriesTo(s: seq<nat>, w: seq<nat>, cover: seq<Piece>, nums: seq<nat>, j: nat)
    requires j <= |cover| == |nums|
  {
    && |s| == EntryPos(0, w, cover, nums, j)
    && BytesAt(s, 0, PutUvarint(|w|)) && BytesAt(s, 0 + |PutUvarint(|w|)|, PutUvarint(|cover|))
    && forall i :: 0 <= i < j ==> EntryAt(s, 0, w, cover, nums, i)
  }

  lemma EntriesGrow(s: seq<nat>, s': seq<nat>, w: seq<nat>, cover: seq<Piece>, nums: seq<nat>, j: nat)
    requires j <= |cover| == |nums| && EntriesTo(s, w, cover, nums, j) && s <= s'
    ensures BytesAt(s', 0, PutUvarint(|w|)) && BytesAt(s', 0 + |PutUvarint(|w|)|, PutUvarint(|cover|))
    ensures forall i :: 0 <= i < j ==> EntryAt(s', 0, w, cover, nums, i)
  {
    forall i | 0 <= i < j ensures EntryAt(s', 0, w, cover, nums, i) {
      assert EntryAt(s, 0, w, cover, nums, i);
    }
  }

  lemma EntriesStart(w: seq<nat>, cover: seq<Piece>, nums: seq<nat>)
    requires |cover| == |nums|
    ensures EntriesTo(PutUvarint(|w|) + PutUvarint(|cover|), w, cover, nums, 0)
  {
  }

  lemma EntriesNext(s: seq<nat>, w: seq<nat>, cover: seq<Piece>, nums: seq<nat>, j: nat)
    requires j < |cover| == |nums| && EntriesTo(s, w, cover, nums, j)
    ensures EntriesTo(s + PutUvarint(cover[j].start) + PutUvarint(nums[j]), w, cover, nums, j + 1)
  {
    var s1 := s + PutUvarint(cover[j].start);
    var s2 := s1 + PutUvarint(nums[j]);
    EntriesGrow(s, s2, w, cover, nums, j);
    BytesAppended(s, PutUvarint(cover[j].start));
    BytesGrow(s1, s2, |s|, PutUvarint(cover[j].start));
    BytesAppended(s1, PutUvarint(nums[j]));
    assert EntryAt(s2, 0, w, cover, nums, j);
  }

  /** raw holds the gaps before gap j. */
  ghost predicate RawTo(raw: seq<nat>, w: seq<nat>, cover: seq<Piece>, j: nat)
    requires j <= |cover| + 1
  {
    |raw| == Gaps(w, cover, j) && forall i :: 0 <= i < j ==> GapIn(raw, w, cover, i)
  }

  lemma {:induction false} GapsGrow(w: seq<nat>, cover: seq<Piece>, i: nat, j: nat)
    requires i <= j <= |cover| + 1
    ensures Gaps(w, cover, i) <= Gaps(w, cover, j)
  {
    if i < j {
      GapsGrow(w, cover, i, j - 1);
    }
  }

  /** The next gap, which may be empty, follows. */
  lemma {:induction false} RawNext(raw: seq<nat>, w: seq<nat>, cover: seq<Piece>, j: nat, more: seq<nat>)
    requires j <= |cover| && Covers(w, cover) && RawTo(raw, w, cover, j)
    requires var lo, hi := Covered(cover, j), Until(w, cover, j); more == if hi > lo then w[lo..hi] else []
    ensures RawTo(raw + more, w, cover, j + 1)
  {
    var s := raw + more;
    forall i | 0 <= i < j + 1 ensures GapIn(s, w, cover, i) {
      if i < j {
        assert GapIn(raw, w, cover, i);
        GapsGrow(w, cover, i + 1, j);
      } else {
        CoveredWithin(w, cover, j);
      }
    }
  }

  lemma CoveredWithin(w: seq<nat>, cover: seq<Piece>, j: nat)
    requires j <= |cover| && Covers(w, cover)
    ensures Covered(cover, j) <= |w| && Until(w, cover, j) <= |w|
  {
    assert j > 0 ==> Fits(w, cover[j - 1]);
    assert j < |cover| ==> Fits(w, cover[j]);
  }

  /** The characters of the uncovered intervals, in order. */
  function Intervals(input: seq<nat>, uncovered: seq<(nat, nat)>): seq<nat>
    requires forall i :: 0 <= i < |uncovered| ==> uncovered[i].0 <= uncovered[i].1 <= |input|
  {
    if uncovered == [] then []
    else var n := |uncovered| - 1; Intervals(input, uncovered[..n]) + input[uncovered[n].0..uncovered[n].1]
  }

  /** cur is where the walk through the chain stands before its element j. */
  ghost predicate AtElement(patterns: seq<nat>, cur: nat, chain: seq<nat>, j: nat, lo: nat, n: nat) {
    j <= |chain| && ChainOk(patterns, cur, lo, n) && Chain(patterns, cur) == chain[j..]
  }

  lemma NextElement(patterns: seq<nat>, cur: nat, chain: seq<nat>, j: nat, lo: nat, n: nat)
    requires AtElement(patterns, cur, chain, j, lo, n)
    ensures cur == 0 <==> j == |chain|
    ensures cur != 0 ==> cur + 1 < |patterns| && patterns[cur + 1] < cur && chain[j] == patterns[cur]
    ensures cur != 0 ==> AtElement(patterns, patterns[cur + 1], chain, j + 1, patterns[cur] + 1, n)
  {
    if cur != 0 {
      assert chain[j..] == [patterns[cur]] + Chain(patterns, patterns[cur + 1]);
      assert chain[j + 1..] == chain[j..][1..];
    }
  }

  method CountChain(patterns: seq<nat>, idx: nat, ghost n: nat) returns (count: nat)
    requires ChainOk(patterns, idx, 0, n)
    ensures count == |Chain(patterns, idx)|
  {
    count := 0;
    var cur := idx;
    ghost var lo := 0;
    while cur != 0
      invariant AtElement(patterns, cur, Chain(patterns, idx), count, lo, n)
      decreases cur
    {
      NextElement(patterns, cur, Chain(patterns, idx), count, lo, n);
      lo := patterns[cur] + 1;
      cur, count := patterns[cur + 1], count + 1;
    }
    NextElement(patterns, cur, Chain(patterns, idx), count, lo, n);
  }

  /** The bag with what the first j pieces count: a relative position and a use of a pattern each. */
  ghost function PieceMarks(bag: multiset<Mark>, cover: seq<Piece>, nums: seq<nat>, j: nat): multiset<Mark>
    requires j <= |cover| == |nums|
  {
    if j == 0 then bag
    else
      PieceMarks(bag, cover, nums, j - 1) + multiset{Position(Rel(cover, j - 1))} + multiset{Use(nums[j - 1])}
  }

  lemma {:induction false} PieceMarksAdded(bag: multiset<Mark>, cover: seq<Piece>, nums: seq<nat>, j: nat)
    requires j <= |cover| == |nums|
    ensures PieceMarks(bag, cover, nums, j) == bag + PieceMarks(multiset{}, cover, nums, j)
  {
    if j > 0 {
      PieceMarksAdded(bag, cover, nums, j - 1);
    }
  }

  lemma {:induction false} ChainLength(patterns: seq<nat>, idx: nat, lo: nat, n: nat)
    requires ChainOk(patterns, idx, lo, n) && lo <= n
    ensures |Chain(patterns, idx)| <= n - lo
    decreases idx
  {
    if idx != 0 {
      ChainLength(patterns, patterns[idx + 1], patterns[idx] + 1, n);
    }
  }

  /** The start and the number of one piece. */
  method EmitPiece(m: Match, output: seq<nat>, ghost w: seq<nat>, ghost cover: seq<Piece>, ghost nums: seq<nat>,
                   ghost j: nat)
      returns (output': seq<nat>)
    requires j < |cover| == |nums| && m.start == cover[j].start && m.pattern == nums[j]
    requires EntriesTo(PutUvarint(|w|) + output, w, cover, nums, j)
    ensures EntriesTo(PutUvarint(|w|) + output', w, cover, nums, j + 1)
  {
    EntriesNext(PutUvarint(|w|) + output, w, cover, nums, j);
    output' := output + PutUvarint(m.start) + PutUvarint(m.pattern);
    assert PutUvarint(|w|) + output' == PutUvarint(|w|) + output + PutUvarint(m.start) + PutUvarint(m.pattern);
  }

  /** The counters after the first j pieces. */
  ghost predicate PiecesTallied(posMap: map<nat, nat>, uses: seq<nat>, bag: multiset<Mark>, cover: seq<Piece>,
                                nums: seq<nat>, j: nat, n: nat) {
    |uses| == n && j <= |cover| == |nums| && Tallies(posMap, uses, PieceMarks(bag, cover, nums, j))
  }

  method CountPiece(m: Match, lastStart: nat, posMap: map<nat, nat>, uses: seq<nat>, ghost bag: multiset<Mark>,
                    ghost w: seq<nat>, ghost cover: seq<Piece>, ghost nums: seq<nat>, ghost j: nat, ghost n: nat)
      returns (posMap': map<nat, nat>, uses': seq<nat>)
    requires Covers(w, cover) && j < |cover| == |nums| && m.start == cover[j].start && m.pattern == nums[j] < n
    requires lastStart == Start(cover, j) && PiecesTallied(posMap, uses, bag, cover, nums, j, n)
    ensures PiecesTallied(posMap', uses', bag, cover, nums, j + 1, n)
  {
    assert InOrder(cover, j);
    ghost var before := PieceMarks(bag, cover, nums, j);
    posMap' := Count(posMap, m.start - lastStart + 1);
    PositionTallied(posMap, uses, before, m.start - lastStart + 1);
    uses' := uses[m.pattern := uses[m.pattern] + 1];
    UseTallied(posMap', uses, before + multiset{Position(Rel(cover, j))}, m.pattern);
  }

  ghost predicate Within(input: seq<nat>, uncovered: seq<(nat, nat)>) {
    forall i :: 0 <= i < |uncovered| ==> uncovered[i].0 <= uncovered[i].1 <= |input|
  }

  method NextGap(input: seq<nat>, lastUncovered: nat, start: nat, uncovered: seq<(nat, nat)>, ghost cover: seq<Piece>,
                 ghost j: nat, ghost raw: seq<nat>)
      returns (r: seq<(nat, nat)>, ghost raw': seq<nat>)
    requires Covers(input, cover) && j <= |cover| && lastUncovered == Covered(cover, j)
    requires start == Until(input, cover, j)
    requires Within(input, uncovered) && Intervals(input, uncovered) == raw && RawTo(raw, input, cover, j)
    requires AllBytes(input) && AllBytes(raw)
    ensures Within(input, r) && Intervals(input, r) == raw' && RawTo(raw', input, cover, j + 1) && AllBytes(raw')
  {
    CoveredWithin(input, cover, j);
    r, raw' := uncovered, raw;
    if start > lastUncovered {
      IntervalsSnoc(input, uncovered, lastUncovered, start);
      RawNext(raw, input, cover, j, input[lastUncovered..start]);
      r, raw' := uncovered + [(lastUncovered, start)], raw + input[lastUncovered..start];
    } else {
      RawNext(raw, input, cover, j, []);
      assert raw + [] == raw;
    }
  }

  lemma {:induction false} IntervalsSnoc(input: seq<nat>, uncovered: seq<(nat, nat)>, lo: nat, hi: nat)
    requires Within(input, uncovered) && lo <= hi <= |input| && AllBytes(input) && AllBytes(Intervals(input, uncovered))
    ensures Within(input, uncovered + [(lo, hi)])
    ensures Intervals(input, uncovered + [(lo, hi)]) == Intervals(input, uncovered) + input[lo..hi]
    ensures AllBytes(Intervals(input, uncovered) + input[lo..hi])
  {
    var r := uncovered + [(lo, hi)];
    assert r[..|r| - 1] == uncovered;
  }

  /** The intermediate form of the chain's cover. */
  method Emit(input: seq<nat>, matches: seq<Match>, dict: seq<Scored>, patterns: seq<nat>, idx: nat,
              posMap: map<nat, nat>, uses: seq<nat>,
              ghost bag: multiset<Mark>)
      returns (output: seq<nat>, posMap': map<nat, nat>, uses': seq<nat>, ghost c: Chosen)
    requires Sound(input, matches, dict) && ChainOk(patterns, idx, 0, |matches|) && input != [] && AllBytes(input)
    requires |uses| == |dict| && Tallies(posMap, uses, bag)
    ensures Result(input, dict, output, c) && |c.cover| <= |matches|
    ensures Saving(patterns, idx, matches, |input|) == |input| - |c.raw| - 4 * |c.cover|
    ensures |uses'| == |dict| && Tallies(posMap', uses', bag + MarksOf(c))
  {
    ghost var chain := Chain(patterns, idx);
    ChainCovers(input, matches, dict, patterns, idx);
    SavingIsCovered(input, matches, dict, patterns, idx, 0);
    ChainLength(patterns, idx, 0, |matches|);
    ghost var cover, nums := CoverOf(chain, matches, dict), NumsOf(chain, matches);
    var patternCount := CountChain(patterns, idx, |matches|);
    EntriesStart(input, cover, nums);
    var uncovered: seq<(nat, nat)>; ghost var raw;
    output, posMap', uses', uncovered, raw :=
      EmitChain(input, matches, dict, patterns, idx, PutUvarint(patternCount), posMap, uses, bag, chain, cover, nums);
    var uncoded := Collect(input, uncovered);
    c := Chosen(cover, nums, raw);
    assert Result(input, dict, output + uncoded, c) by {
      FormComplete(input, dict, output, cover, nums, raw);
    }
    assert |uses'| == |dict| && Tallies(posMap', uses', bag + MarksOf(c)) by {
      PieceMarksAdded(bag, cover, nums, |cover|);
    }
    output := output + uncoded;
  }

  /** What is emitted before piece j: the entries so far and the uncovered intervals. */
  ghost predicate EmittedTo(input: seq<nat>, output: seq<nat>, uncovered: seq<(nat, nat)>, raw: seq<nat>,
                            cover: seq<Piece>, nums: seq<nat>, j: nat, gaps: nat) {
    && j <= |cover| == |nums| && gaps <= |cover| + 1
    && EntriesTo(PutUvarint(|input|) + output, input, cover, nums, j) && RawTo(raw, input, cover, gaps)
    && Within(input, uncovered) && Intervals(input, uncovered) == raw && AllBytes(raw)
  }

  /** The gap before a piece, and the piece. */
  method EmitNext(m: Match, input: seq<nat>, output: seq<nat>, uncovered: seq<(nat, nat)>, lastUncovered: nat,
                  ghost raw: seq<nat>, ghost cover: seq<Piece>, ghost nums: seq<nat>, ghost j: nat)
      returns (output': seq<nat>, uncovered': seq<(nat, nat)>, ghost raw': seq<nat>)
    requires Covers(input, cover) && AllBytes(input) && EmittedTo(input, output, uncovered, raw, cover, nums, j, j)
    requires j < |cover|
    requires m.start == cover[j].start && m.pattern == nums[j] && lastUncovered == Covered(cover, j)
    ensures EmittedTo(input, output', uncovered', raw', cover, nums, j + 1, j + 1)
  {
    uncovered', raw' := NextGap(input, lastUncovered, m.start, uncovered, cover, j, raw);
    output' := EmitPiece(m, output, input, cover, nums, j);
  }

  /** Piece j is the match of the chain's element j. */
  lemma PieceOf(input: seq<nat>, matches: seq<Match>, dict: seq<Scored>, chain: seq<nat>, cover: seq<Piece>,
                nums: seq<nat>, j: nat)
    requires Sound(input, matches, dict) && j < |chain|
    requires forall i :: 0 <= i < |chain| ==> chain[i] < |matches| && matches[chain[i]].pattern < |dict|
    requires cover == CoverOf(chain, matches, dict) && nums == NumsOf(chain, matches)
    ensures var m := matches[chain[j]];
            m.start == cover[j].start && m.pattern == nums[j] < |dict| && m.end == Covered(cover, j + 1)
  {
    assert Occurs(input, matches[chain[j]], dict);
  }

  /** Along the chain: the entries, the counts, and the uncovered intervals. */
  method EmitChain(input: seq<nat>, matches: seq<Match>, dict: seq<Scored>, patterns: seq<nat>, idx: nat,
                   header: seq<nat>,
                   posMap: map<nat, nat>, uses: seq<nat>, ghost bag: multiset<Mark>,
                   ghost chain: seq<nat>, ghost cover: seq<Piece>, ghost nums: seq<nat>)
      returns (output: seq<nat>, posMap': map<nat, nat>, uses': seq<nat>, uncovered: seq<(nat, nat)>,
               ghost raw: seq<nat>)
    requires Sound(input, matches, dict) && ChainOk(patterns, idx, 0, |matches|) && AllBytes(input)
    requires |uses| == |dict| && Tallies(posMap, uses, bag)
    requires chain == Chain(patterns, idx)
    requires forall j :: 0 <= j < |chain| ==> chain[j] < |matches| && matches[chain[j]].pattern < |dict|
    requires cover == CoverOf(chain, matches, dict) && nums == NumsOf(chain, matches) && Covers(input, cover)
    requires EntriesTo(PutUvarint(|input|) + header, input, cover, nums, 0)
    ensures EmittedTo(input, output, uncovered, raw, cover, nums, |cover|, |cover| + 1)
    ensures PiecesTallied(posMap', uses', bag, cover, nums, |cover|, |dict|)
  {
    output, posMap', uses', uncovered, raw := header, posMap, uses, [], [];
    var cur, lastStart, lastUncovered := idx, 0, 0;
    ghost var j, lo := 0, 0;
    while cur != 0
      invariant AtElement(patterns, cur, chain, j, lo, |matches|) && lastStart == Start(cover, j)
      invariant lastUncovered == Covered(cover, j)
      invariant EmittedTo(input, output, uncovered, raw, cover, nums, j, j)
      invariant PiecesTallied(posMap', uses', bag, cover, nums, j, |dict|)
      decreases cur
    {
      NextElement(patterns, cur, chain, j, lo, |matches|);
      var m := matches[patterns[cur]];
      PieceOf(input, matches, dict, chain, cover, nums, j);
      output, uncovered, raw := EmitNext(m, input, output, uncovered, lastUncovered, raw, cover, nums, j);
      posMap', uses' := CountPiece(m, lastStart, posMap', uses', bag, input, cover, nums, j, |dict|);
      lastUncovered, lastStart := m.end, m.start;
      lo := patterns[cur] + 1;
      cur, j := patterns[cur + 1], j + 1;
    }
    NextElement(patterns, cur, chain, j, lo, |matches|);
    uncovered, raw := NextGap(input, lastUncovered, |input|, uncovered, cover, j, raw);
  }

  /** Add uncoded input. */
  method Collect(input: seq<nat>, uncovered: seq<(nat, nat)>) returns (r: seq<nat>)
    requires Within(input, uncovered)
    ensures r == Intervals(input, uncovered)
  {
    r := [];
    for i := 0 to |uncovered|
      invariant r == Intervals(input, uncovered[..i])
    {
      assert uncovered[..i + 1][..i] == uncovered[..i];
      r := r + input[uncovered[i].0..uncovered[i].1];
    }
    assert uncovered[..|uncovered|] == uncovered;
  }

  /** A cover of a word: its pieces, their numbers in the dictionary, and the uncovered characters. */
  datatype Chosen = Chosen(cover: seq<Piece>, nums: seq<nat>, raw: seq<nat>)

  ghost predicate FromDict(c: Chosen, dict: seq<Scored>) {
    && |c.nums| == |c.cover| && AllBytes(c.raw)
    && forall j :: 0 <= j < |c.cover| ==> c.nums[j] < |dict| && dict[c.nums[j]].word == c.cover[j].pattern
  }

  ghost function MarksOf(c: Chosen): multiset<Mark>
    requires |c.nums| == |c.cover|
  {
    PieceMarks(multiset{}, c.cover, c.nums, |c.cover|)
  }

  /** The output, behind the length, is the intermediate form of the word with a cover by
      patterns of the dictionary. */
  ghost predicate Result(w: seq<nat>, dict: seq<Scored>, output: seq<nat>, c: Chosen) {
    && Covers(w, c.cover) && IntermediateAt(PutUvarint(|w|) + output, 0, w, c.cover, c.nums, c.raw)
    && |PutUvarint(|w|) + output| == IntermediateEnd(0, w, c.cover, c.nums, c.raw) && FromDict(c, dict)
  }

  lemma {:induction false} FormComplete(w: seq<nat>, dict: seq<Scored>, output: seq<nat>, cover: seq<Piece>,
                                        nums: seq<nat>, raw: seq<nat>)
    requires w != [] && Covers(w, cover) && |nums| == |cover|
    requires EntriesTo(PutUvarint(|w|) + output, w, cover, nums, |cover|)
    requires RawTo(raw, w, cover, |cover| + 1) && AllBytes(raw)
    requires forall j :: 0 <= j < |cover| ==> nums[j] < |dict| && dict[nums[j]].word == cover[j].pattern
    ensures Result(w, dict, output + raw, Chosen(cover, nums, raw))
  {
    var s := PutUvarint(|w|) + output;
    assert PutUvarint(|w|) + (output + raw) == s + raw;
    FormAt(s, w, cover, nums, raw);
  }

  lemma {:induction false} FormAt(s: seq<nat>, w: seq<nat>, cover: seq<Piece>, nums: seq<nat>, raw: seq<nat>)
    requires w != [] && |nums| == |cover| && EntriesTo(s, w, cover, nums, |cover|) && RawTo(raw, w, cover, |cover| + 1)
    ensures IntermediateAt(s + raw, 0, w, cover, nums, raw) && |s + raw| == IntermediateEnd(0, w, cover, nums, raw)
  {
    EntriesGrow(s, s + raw, w, cover, nums, |cover|);
    BytesAppended(s, raw);
    assert Uncovered(raw, w, cover);
  }

  /** optimiseCluster, for a word that is not empty. */
  method OptimiseCluster(input: seq<nat>, matches: seq<Match>, dict: seq<Scored>, ring: Ring.Ring,
                         posMap: map<nat, nat>, uses: seq<nat>,
                         ghost bag: multiset<Mark>)
      returns (output: seq<nat>, posMap': map<nat, nat>, uses': seq<nat>, ghost c: Chosen)
    requires ring.Valid() && Sound(input, matches, dict) && input != [] && AllBytes(input)
    requires |uses| == |dict| && Tallies(posMap, uses, bag)
    modifies ring, ring.cells
    ensures ring.Valid() && (ring.cells == old(ring.cells) || fresh(ring.cells))
    ensures Result(input, dict, output, c) && |c.cover| <= |matches| && |c.raw| + 4 * |c.cover| <= |input|
    ensures |uses'| == |dict| && Tallies(posMap', uses', bag + MarksOf(c))
  {
    if |matches| == 0 {
      output, posMap', uses', c := PlainForm(input), posMap, uses, Chosen([], [], input);
      PlainIsForm(input, dict);
      assert bag + MarksOf(c) == bag;
      return;
    }
    var patterns, idx := BestChain(input, matches, dict, ring);
    output, posMap', uses', c := Emit(input, matches, dict, patterns, idx, posMap, uses, bag);
  }

  /** No patterns: a zero and all the characters. */
  function PlainForm(w: seq<nat>): seq<nat> { [0] + w }

  lemma PlainIsForm(w: seq<nat>, dict: seq<Scored>)
    requires w != [] && AllBytes(w)
    ensures Result(w, dict, PlainForm(w), Chosen([], [], w))
  {
    EntriesStart(w, [], []);
    assert PutUvarint(0) == [0];
    RawNext([], w, [], 0, w);
    assert [] + w == w && w[0..|w|] == w;
    FormComplete(w, dict, [0], [], [], w);
  }
}
