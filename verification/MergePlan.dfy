/** findLargestMerge: which state files are merged next. */
module MergePlan {
  import opened Arith
  import opened StateFiles

  ghost predicate Dyadic(len: int, step: nat) { exists n: nat :: len == Shift(step, n) }

  function Span(f: File): int { f.endBlock - f.startBlock + 1 }

  /** The first block after the first n files. */
  function NextBlock(files: seq<File>, n: nat): nat
    requires n <= |files|
  {
    if n == 0 then 0 else files[n - 1].endBlock + 1
  }

  ghost predicate Adjacent(files: seq<File>, i: nat)
    requires i < |files|
  {
    files[i].startBlock == NextBlock(files, i) <= files[i].endBlock
  }

  /** The files lie side by side from block 0 on; their spans are doublings of the step and
      never grow. */
  ghost predicate Partition(files: seq<File>, step: nat) {
    && (forall i {:trigger Adjacent(files, i)} :: 0 <= i < |files| ==> Adjacent(files, i))
    && (forall i {:trigger Span(files[i])} :: 0 <= i < |files| ==> Dyadic(Span(files[i]), step))
    && forall i, j {:trigger NotLonger(files, i, j)} :: 0 <= i < j < |files| ==> NotLonger(files, i, j)
  }

  ghost predicate NotLonger(files: seq<File>, i: nat, j: nat)
    requires i < |files| && j < |files|
  {
    Span(files[j]) <= Span(files[i])
  }

  /** The last block of the largest doubling of start..next within the bounds; 0 if there is none. */
  function Doubled(start: nat, next: nat, maxEnd: nat, maxSpan: nat): (r: nat)
    requires start <= next
    ensures r == 0 || (next <= r <= maxEnd && r - start < maxSpan)
    ensures next <= maxEnd && next - start < maxSpan ==> r >= next
    decreases maxEnd - next
  {
    if next <= maxEnd && next - start < maxSpan then
      var r := Doubled(start, next + (next - start) + 1, maxEnd, maxSpan);
      if r == 0 then next else r
    else 0
  }

  /** The same by the inner loop of findLargestMerge. */
  method DoubleEnd(start: nat, end: nat, maxEnd: nat, maxSpan: nat) returns (doubleEnd: nat)
    requires start <= end
    ensures doubleEnd == Doubled(start, end, maxEnd, maxSpan)
  {
    doubleEnd := 0;
    var nextDouble := end;
    while nextDouble <= maxEnd && nextDouble - start < maxSpan
      invariant start <= nextDouble
      invariant Doubled(start, end, maxEnd, maxSpan) ==
        (var r := Doubled(start, nextDouble, maxEnd, maxSpan); if r == 0 then doubleEnd else r)
      decreases maxEnd - nextDouble
    {
      doubleEnd := nextDouble;
      nextDouble := doubleEnd + (doubleEnd - start) + 1;
    }
  }

  /** Whether a file can be doubled. */
  predicate Grows(f: File, maxEnd: nat, maxSpan: nat)
    requires f.startBlock <= f.endBlock
  {
    Doubled(f.startBlock, f.endBlock, maxEnd, maxSpan) != f.endBlock
  }

  datatype Plan = NoMerge | Merge(lo: nat, hi: nat, aggFrom: nat, aggTo: nat)

  /** The first of the files lo to frozen that does not end before a block. */
  function Reach(files: seq<File>, i: nat, frozen: nat, aggTo: nat): (hi: nat)
    requires i < frozen <= |files|
    ensures i < hi <= frozen && (forall j :: i <= j < hi - 1 ==> files[j].endBlock < aggTo)
    ensures (hi < frozen ==> files[hi - 1].endBlock >= aggTo)
    decreases frozen - i
  {
    if files[i].endBlock >= aggTo || i + 1 == frozen then i + 1 else Reach(files, i + 1, frozen, aggTo)
  }

  /** The plan from file i on. */
  function PlanFrom(files: seq<File>, i: nat, frozen: nat, maxEnd: nat, maxSpan: nat): (p: Plan)
    requires i <= frozen <= |files| && Spans(files)
    decreases frozen - i
  {
    if i == frozen then NoMerge
    else if Grows(files[i], maxEnd, maxSpan) then
      var aggTo := Doubled(files[i].startBlock, files[i].endBlock, maxEnd, maxSpan);
      Merge(i, Reach(files, i, frozen, aggTo), files[i].startBlock, aggTo)
    else PlanFrom(files, i + 1, frozen, maxEnd, maxSpan)
  }

  function PlanOf(files: seq<File>, frozen: nat, maxTo: nat, maxSpan: nat): (p: Plan)
    requires frozen <= |files| && Spans(files)
  {
    var m := UpTo(files, frozen, maxTo);
    if m == 0 || files[m - 1].endBlock == 0 then NoMerge else PlanFrom(files, 0, frozen, files[m - 1].endBlock, maxSpan)
  }

  /** The files to merge, from file i on. */
  method Gather(files: seq<File>, i: nat, frozen: nat, aggTo: nat) returns (hi: nat)
    requires i < frozen <= |files|
    ensures hi == Reach(files, i, frozen, aggTo)
  {
    hi := i + 1;
    while files[hi - 1].endBlock < aggTo && hi < frozen
      invariant i < hi <= frozen && Reach(files, i, frozen, aggTo) == Reach(files, hi - 1, frozen, aggTo)
      decreases frozen - hi
    {
      hi := hi + 1;
    }
  }

  /** The newest of the first files that ends by maxTo. */
  method LastBy(files: seq<File>, frozen: nat, maxTo: nat) returns (m: nat)
    requires frozen <= |files|
    ensures m == UpTo(files, frozen, maxTo)
  {
    m := frozen;
    while m > 0 && files[m - 1].endBlock > maxTo
      invariant m <= frozen && UpTo(files, frozen, maxTo) == UpTo(files, m, maxTo)
    {
      m := m - 1;
    }
  }

  ghost predicate Spans(files: seq<File>) { forall j :: 0 <= j < |files| ==> files[j].startBlock <= files[j].endBlock }

  /** The n-th doubling of a file, as its last block. */
  function DoubleOf(f: File, n: nat): int
    requires f.startBlock <= f.endBlock
  {
    f.startBlock + Shift(Span(f), n) - 1
  }

  predicate Fits(f: File, n: nat, maxEnd: nat, maxSpan: nat)
    requires f.startBlock <= f.endBlock
  {
    DoubleOf(f, n) <= maxEnd && DoubleOf(f, n) - f.startBlock < maxSpan
  }

  /** The block ends the largest doubling of the file within the bounds. */
  ghost predicate Largest(f: File, end: nat, maxEnd: nat, maxSpan: nat)
    requires f.startBlock <= f.endBlock
  {
    exists n: nat {:trigger DoubleOf(f, n)} ::
      end == DoubleOf(f, n) && Fits(f, n, maxEnd, maxSpan) && forall m: nat :: Fits(f, m, maxEnd, maxSpan) ==> m <= n
  }

  /** The file is within the bounds, and no doubling of it is. */
  ghost predicate Stays(f: File, maxEnd: nat, maxSpan: nat)
    requires f.startBlock <= f.endBlock
  {
    (Fits(f, 0, maxEnd, maxSpan) || f.endBlock == 0) && forall n: nat :: n > 0 ==> !Fits(f, n, maxEnd, maxSpan)
  }

  /** The plan is for the first file that does not stay, up to the end of its largest doubling. */
  ghost predicate PlansLargest(files: seq<File>, i: nat, frozen: nat, maxEnd: nat, maxSpan: nat, p: Plan)
    requires frozen <= |files| && Spans(files)
  {
    match p
    case NoMerge => forall j :: i <= j < frozen ==> Stays(files[j], maxEnd, maxSpan)
    case Merge(lo, hi, aggFrom, aggTo) =>
      && i <= lo < hi <= frozen && aggFrom == files[lo].startBlock
      && (forall j :: i <= j < lo ==> Stays(files[j], maxEnd, maxSpan)) && !Stays(files[lo], maxEnd, maxSpan)
      && if Fits(files[lo], 0, maxEnd, maxSpan) then Largest(files[lo], aggTo, maxEnd, maxSpan) else aggTo == 0
  }

  /** findLargestMerge over the first files, those that are on disk: the files to merge are
      lo to hi. */
  method FindLargestMerge(files: seq<File>, frozen: nat, maxTo: nat, maxSpan: nat) returns (p: Plan)
    requires frozen <= |files| && Spans(files)
    ensures p == PlanOf(files, frozen, maxTo, maxSpan)
    ensures var m := UpTo(files, frozen, maxTo);
      if m == 0 || files[m - 1].endBlock == 0 then p.NoMerge?
      else PlansLargest(files, 0, frozen, files[m - 1].endBlock, maxSpan, p)
  {
    PlanIsLargest(files, frozen, maxTo, maxSpan);
    var m := LastBy(files, frozen, maxTo);
    if m == 0 || files[m - 1].endBlock == 0 {
      return NoMerge;
    }
    var maxEndBlock := files[m - 1].endBlock;
    var i: nat := 0;
    while i < frozen
      invariant i <= frozen
      invariant PlanFrom(files, 0, frozen, maxEndBlock, maxSpan) == PlanFrom(files, i, frozen, maxEndBlock, maxSpan)
    {
      var doubleEnd := DoubleEnd(files[i].startBlock, files[i].endBlock, maxEndBlock, maxSpan);
      if doubleEnd != files[i].endBlock {
        var hi := Gather(files, i, frozen, doubleEnd);
        return Merge(i, hi, files[i].startBlock, doubleEnd);
      }
      i := i + 1;
    }
    p := NoMerge;
  }

  // ---- doublings

  lemma {:induction false} ShiftShift(step: nat, a: nat, b: nat)
    ensures Shift(Shift(step, a), b) == Shift(step, a + b)
  {
    if b > 0 {
      ShiftShift(step, a, b - 1);
    }
  }

  lemma {:induction false} ShiftGrows(step: nat, a: nat, b: nat)
    requires step > 0 && a <= b
    ensures 0 < Shift(step, a) <= Shift(step, b) && (a < b ==> 2 * Shift(step, a) <= Shift(step, b))
  {
    if a < b {
      ShiftGrows(step, a, b - 1);
    } else if a > 0 {
      ShiftGrows(step, a - 1, a - 1);
    }
  }

  /** Of two doublings of the step the smaller divides the larger, by doubling. */
  lemma {:induction false} SmallerDivides(x: nat, y: nat, step: nat) returns (n: nat)
    requires step > 0 && Dyadic(x, step) && Dyadic(y, step) && x <= y
    ensures y == Shift(x, n)
  {
    var a: nat :| x == Shift(step, a);
    var b: nat :| y == Shift(step, b);
    if b < a {
      ShiftGrows(step, b, a);
      ShiftGrows(step, b, b);
      assert false;
    }
    ShiftShift(step, a, b - a);
    n := b - a;
  }

  lemma {:induction false} NotTwice(x: nat, y: nat, step: nat)
    requires step > 0 && Dyadic(x, step) && Dyadic(y, step) && x < 2 * y
    ensures x <= y
  {
    if y < x {
      var n := SmallerDivides(y, x, step);
      if n > 0 {
        ShiftGrows(y, 0, n);
      }
    }
  }

  lemma {:induction false} DoubledShift(start: nat, next: nat, maxEnd: nat, maxSpan: nat) returns (n: nat)
    requires start <= next && Doubled(start, next, maxEnd, maxSpan) > 0
    ensures Doubled(start, next, maxEnd, maxSpan) - start + 1 == Shift(next - start + 1, n)
    ensures Doubled(start, next, maxEnd, maxSpan) > next ==> n > 0
    decreases maxEnd - next
  {
    var len := next - start + 1;
    n := 0;
    if Doubled(start, next + len, maxEnd, maxSpan) != 0 {
      var a := DoubledShift(start, next + len, maxEnd, maxSpan);
      assert Shift(len, 1) == 2 * len;
      ShiftShift(len, 1, a);
      n := a + 1;
    }
  }

  /** The doubling after the largest one is out of bounds. */
  lemma {:induction false} DoubledStops(start: nat, next: nat, maxEnd: nat, maxSpan: nat) returns (n: nat)
    requires start <= next <= maxEnd && next - start < maxSpan
    ensures var len := next - start + 1;
      && Doubled(start, next, maxEnd, maxSpan) == start + Shift(len, n) - 1
      && (start + Shift(len, n + 1) - 1 > maxEnd || Shift(len, n + 1) > maxSpan)
    decreases maxEnd - next
  {
    var len := next - start + 1;
    assert Shift(len, 1) == 2 * len;
    n := 0;
    if next + len <= maxEnd && next + len - start < maxSpan {
      var a := DoubledStops(start, next + len, maxEnd, maxSpan);
      ShiftShift(len, 1, a);
      ShiftShift(len, 1, a + 1);
      n := a + 1;
    }
  }

  lemma {:induction false} DoubledIsLargest(f: File, maxEnd: nat, maxSpan: nat)
    requires f.startBlock <= f.endBlock && Fits(f, 0, maxEnd, maxSpan)
    ensures Largest(f, Doubled(f.startBlock, f.endBlock, maxEnd, maxSpan), maxEnd, maxSpan)
  {
    var n := DoubledStops(f.startBlock, f.endBlock, maxEnd, maxSpan);
    forall m: nat | Fits(f, m, maxEnd, maxSpan) ensures m <= n {
      if m > n {
        ShiftGrows(Span(f), n + 1, m);
      }
    }
    assert DoubleOf(f, n) == Doubled(f.startBlock, f.endBlock, maxEnd, maxSpan);
  }

  /** A file is left out exactly if it stays. */
  lemma {:induction false} GrowsExactly(f: File, maxEnd: nat, maxSpan: nat)
    requires f.startBlock <= f.endBlock
    ensures Grows(f, maxEnd, maxSpan) <==> !Stays(f, maxEnd, maxSpan)
  {
    if Fits(f, 0, maxEnd, maxSpan) {
      DoubledIsLargest(f, maxEnd, maxSpan);
      var n: nat :| Doubled(f.startBlock, f.endBlock, maxEnd, maxSpan) == DoubleOf(f, n) && Fits(f, n, maxEnd, maxSpan)
        && forall m: nat :: Fits(f, m, maxEnd, maxSpan) ==> m <= n;
      if n > 0 {
        ShiftGrows(Span(f), 0, n);
      }
    } else {
      forall n: nat | n > 0 ensures !Fits(f, n, maxEnd, maxSpan) {
        ShiftGrows(Span(f), 0, n);
      }
    }
  }

  lemma {:induction false} PlanFromLargest(files: seq<File>, i: nat, frozen: nat, maxEnd: nat, maxSpan: nat)
    requires i <= frozen <= |files| && Spans(files)
    ensures PlansLargest(files, i, frozen, maxEnd, maxSpan, PlanFrom(files, i, frozen, maxEnd, maxSpan))
    decreases frozen - i
  {
    if i < frozen {
      GrowsExactly(files[i], maxEnd, maxSpan);
      if Grows(files[i], maxEnd, maxSpan) {
        if Fits(files[i], 0, maxEnd, maxSpan) {
          DoubledIsLargest(files[i], maxEnd, maxSpan);
        }
      } else {
        PlanFromLargest(files, i + 1, frozen, maxEnd, maxSpan);
      }
    }
  }

  /** No longer doubling of the planned file is within the bounds, and no earlier file can be doubled. */
  lemma PlanIsLargest(files: seq<File>, frozen: nat, maxTo: nat, maxSpan: nat)
    requires frozen <= |files| && Spans(files)
    ensures var m, p := UpTo(files, frozen, maxTo), PlanOf(files, frozen, maxTo, maxSpan);
      if m == 0 || files[m - 1].endBlock == 0 then p.NoMerge?
      else PlansLargest(files, 0, frozen, files[m - 1].endBlock, maxSpan, p)
  {
    var m := UpTo(files, frozen, maxTo);
    if m > 0 && files[m - 1].endBlock > 0 {
      PlanFromLargest(files, 0, frozen, files[m - 1].endBlock, maxSpan);
    }
  }

  // ---- the files of a plan cover it exactly

  ghost predicate Multiple(x: nat, s: nat) { exists q: nat :: x == q * s }

  lemma {:induction false} MultipleOfShift(x: nat, s: nat, n: nat)
    requires Multiple(x, Shift(s, n))
    ensures Multiple(x, s)
  {
    if n > 0 {
      var q: nat :| x == q * Shift(s, n);
      Twice(q, Shift(s, n - 1));
      assert x == (2 * q) * Shift(s, n - 1);
      MultipleOfShift(x, s, n - 1);
    }
  }

  lemma Twice(q: nat, s: nat)
    ensures q * (2 * s) == (2 * q) * s
  {}

  lemma {:induction false} ShiftMultiple(s: nat, n: nat)
    ensures Multiple(Shift(s, n), s)
  {
    assert Shift(s, n) == 1 * Shift(s, n);
    MultipleOfShift(Shift(s, n), s, n);
  }

  /** One part less of a multiple. */
  lemma LessPart(x: nat, s: nat)
    requires Multiple(x, s) && x > 0 && s > 0
    ensures x >= s && Multiple(x - s, s)
  {
    var q: nat :| x == q * s;
    assert q >= 1;
    assert x - s == (q - 1) * s >= 0;
  }

  /** The boundary after file j is a whole number of its spans before the end of the plan. */
  ghost predicate Boundary(files: seq<File>, j: nat, end: nat)
    requires j < |files|
  {
    Span(files[j]) > 0 && NextBlock(files, j + 1) <= end + 1 &&
        Multiple(end + 1 - NextBlock(files, j + 1), Span(files[j]))
  }

  lemma {:induction false} BoundaryFirst(files: seq<File>, lo: nat, end: nat, n: nat)
    requires lo < |files| && Span(files[lo]) > 0 && files[lo].startBlock + Shift(Span(files[lo]), n) == end + 1
    ensures Boundary(files, lo, end)
  {
    var s := Span(files[lo]);
    ShiftMultiple(s, n);
    ShiftPositive(s, n);
    LessPart(Shift(s, n), s);
  }

  lemma {:induction false} BoundaryNext(files: seq<File>, j: nat, end: nat, step: nat)
    requires step > 0 && 0 < j < |files| && Boundary(files, j - 1, end) && Adjacent(files, j)
    requires files[j - 1].endBlock < end
    requires Dyadic(Span(files[j]), step) && Dyadic(Span(files[j - 1]), step) && Span(files[j]) <= Span(files[j - 1])
    ensures Boundary(files, j, end)
  {
    var s := Span(files[j]);
    var a := SmallerDivides(s, Span(files[j - 1]), step);
    MultipleOfShift(end + 1 - NextBlock(files, j), s, a);
    LessPart(end + 1 - NextBlock(files, j), s);
  }

  lemma {:induction false} Boundaries(files: seq<File>, lo: nat, j: nat, end: nat, n: nat, step: nat)
    requires step > 0 && Partition(files, step) && lo <= j < |files|
    requires files[lo].startBlock + Shift(Span(files[lo]), n) == end + 1
    requires forall i :: lo <= i < j ==> files[i].endBlock < end
    ensures Boundary(files, j, end)
    decreases j
  {
    assert Adjacent(files, j);
    if j == lo {
      BoundaryFirst(files, lo, end, n);
    } else {
      Boundaries(files, lo, j - 1, end, n, step);
      assert Adjacent(files, j - 1) && NotLonger(files, j - 1, j);
      BoundaryNext(files, j, end, step);
    }
  }

  lemma {:induction false} ShiftPositive(s: nat, n: nat)
    requires s > 0
    ensures Shift(s, n) > 0
  {
    if n > 0 {
      ShiftPositive(s, n - 1);
    }
  }

  // ---- what a plan promises

  /** The plan takes files lo to hi, at least two; they are exactly the blocks aggFrom to
      aggTo, a doubling of the step that is no longer than any earlier file. */
  ghost predicate PlanOk(files: seq<File>, p: Plan, step: nat) {
    && p.Merge? && p.lo + 1 < p.hi <= |files| && p.aggFrom == files[p.lo].startBlock
    && p.aggTo == files[p.hi - 1].endBlock
    && Dyadic(p.aggTo - p.aggFrom + 1, step) && Span(files[p.lo]) <= p.aggTo - p.aggFrom + 1
    && forall i :: 0 <= i < p.lo ==> p.aggTo - p.aggFrom + 1 <= Span(files[i])
  }

  /** The first file that can grow. */
  lemma {:induction false} FirstGrows(files: seq<File>, i: nat, frozen: nat, maxEnd: nat, maxSpan: nat)
    requires i <= frozen <= |files| && Spans(files)
    ensures var p := PlanFrom(files, i, frozen, maxEnd, maxSpan);
      if p.NoMerge? then forall j :: i <= j < frozen ==> !Grows(files[j], maxEnd, maxSpan)
      else
        && i <= p.lo < p.hi <= frozen && Grows(files[p.lo], maxEnd, maxSpan) && p.aggFrom == files[p.lo].startBlock
        && p.aggTo == Doubled(files[p.lo].startBlock, files[p.lo].endBlock, maxEnd, maxSpan)
        && p.hi == Reach(files, p.lo, frozen, p.aggTo)
        && forall j :: i <= j < p.lo ==> !Grows(files[j], maxEnd, maxSpan)
    decreases frozen - i
  {
    if i < frozen && !Grows(files[i], maxEnd, maxSpan) {
      FirstGrows(files, i + 1, frozen, maxEnd, maxSpan);
    }
  }

  /** A file that cannot grow is longer than what is left after it, or than half the largest span. */
  lemma Stuck(f: File, maxEnd: nat, maxSpan: nat)
    requires f.startBlock <= f.endBlock && 0 < f.endBlock && !Grows(f, maxEnd, maxSpan)
    ensures f.endBlock <= maxEnd && (f.endBlock + Span(f) > maxEnd || 2 * Span(f) > maxSpan)
  {
    var next: nat := f.endBlock + (f.endBlock - f.startBlock) + 1;
    var r := Doubled(f.startBlock, next, maxEnd, maxSpan);
    assert r == 0 || r >= next;
  }

  lemma {:induction false} EndsAscend(files: seq<File>, i: nat, j: nat, step: nat)
    requires Partition(files, step) && i < j < |files|
    ensures files[i].endBlock < files[j].startBlock <= files[j].endBlock
    decreases j
  {
    assert Adjacent(files, j) && Adjacent(files, j - 1);
    if i < j - 1 {
      EndsAscend(files, i, j - 1, step);
    }
  }

  /** The files that are gathered end exactly where the plan ends. */
  lemma {:induction false} Aligned(files: seq<File>, lo: nat, frozen: nat, m: nat, end: nat, n: nat, step: nat)
    requires step > 0 && Partition(files, step) && lo < m <= frozen <= |files| && n > 0
    requires files[lo].startBlock + Shift(Span(files[lo]), n) == end + 1 && end <= files[m - 1].endBlock
    ensures var hi := Reach(files, lo, frozen, end); lo + 1 < hi <= m && files[hi - 1].endBlock == end
  {
    var hi := Reach(files, lo, frozen, end);
    assert hi <= m;
    Boundaries(files, lo, hi - 1, end, n, step);
    assert hi == m || files[hi - 1].endBlock >= end;
    assert Adjacent(files, lo);
    ShiftGrows(Span(files[lo]), 0, n);
  }

  /** Doubling the first file that can grow is a good plan. */
  lemma {:induction false} GrowthGood(files: seq<File>, lo: nat, frozen: nat, m: nat, maxSpan: nat, aggTo: nat,
                                      step: nat)
    requires step > 1 && Spans(files) && Partition(files, step) && lo < frozen && 0 < m <= frozen <= |files|
    requires forall i :: 0 <= i < lo ==> !Grows(files[i], files[m - 1].endBlock, maxSpan)
    requires aggTo == Doubled(files[lo].startBlock, files[lo].endBlock, files[m - 1].endBlock, maxSpan) > 0
    requires aggTo != files[lo].endBlock
    ensures PlanOk(files, Merge(lo, Reach(files, lo, frozen, aggTo), files[lo].startBlock, aggTo), step)
    ensures Reach(files, lo, frozen, aggTo) <= m
  {
    var f, maxEnd := files[lo], files[m - 1].endBlock;
    var n := DoubledShift(f.startBlock, f.endBlock, maxEnd, maxSpan);
    if m - 1 < lo {
      EndsAscend(files, m - 1, lo, step);
    }
    Aligned(files, lo, frozen, m, aggTo, n, step);
    assert Dyadic(Span(f), step);
    DyadicShift(Span(f), n, step);
    forall i | 0 <= i < lo ensures aggTo - f.startBlock + 1 <= Span(files[i]) {
      EarlierLonger(files, i, lo, maxEnd, maxSpan, aggTo, step);
    }
  }

  /** Every plan that has an end is good. */
  lemma {:induction false} PlanGood(files: seq<File>, frozen: nat, maxTo: nat, maxSpan: nat, step: nat)
    requires step > 1 && frozen <= |files| && Spans(files) && Partition(files, step)
    ensures var p := PlanOf(files, frozen, maxTo, maxSpan); p.Merge? && p.aggTo > 0 ==>
        PlanOk(files, p, step) && p.hi <= UpTo(files, frozen, maxTo)
  {
    var m := UpTo(files, frozen, maxTo);
    var p := PlanOf(files, frozen, maxTo, maxSpan);
    if p.Merge? && p.aggTo > 0 {
      FirstGrows(files, 0, frozen, files[m - 1].endBlock, maxSpan);
      GrowthGood(files, p.lo, frozen, m, maxSpan, p.aggTo, step);
    }
  }

  /** With the bounds that backgroundMerge gives for the first type, every plan has an end. */
  lemma {:induction false} PlanEnds(files: seq<File>, frozen: nat, maxTo: nat, maxSpan: nat, step: nat)
    requires step > 1 && frozen <= |files| && Spans(files) && Partition(files, step)
    requires NextBlock(files, frozen) <= maxTo && NextBlock(files, frozen) <= maxSpan
    ensures var p := PlanOf(files, frozen, maxTo, maxSpan); p.Merge? ==> p.aggTo > 0
  {
    var p := PlanOf(files, frozen, maxTo, maxSpan);
    if p.Merge? {
      assert UpTo(files, frozen, maxTo) == frozen;
      FirstGrows(files, 0, frozen, files[frozen - 1].endBlock, maxSpan);
      EndPositive(files, p.lo, step);
      if p.lo < frozen - 1 {
        EndsAscend(files, p.lo, frozen - 1, step);
      }
    }
  }

  lemma {:induction false} DyadicShift(len: nat, n: nat, step: nat)
    requires Dyadic(len, step) && step > 0
    ensures Dyadic(Shift(len, n), step) && len <= Shift(len, n)
  {
    var a: nat :| len == Shift(step, a);
    ShiftShift(step, a, n);
    ShiftGrows(step, a, a + n);
  }

  lemma {:induction false} EarlierLonger(files: seq<File>, i: nat, lo: nat, maxEnd: nat, maxSpan: nat, aggTo: nat,
                                         step: nat)
    requires step > 1 && Spans(files) && Partition(files, step) && i < lo < |files| && !Grows(files[i], maxEnd, maxSpan)
    requires files[lo].startBlock <= aggTo <= maxEnd && aggTo - files[lo].startBlock < maxSpan
    requires Dyadic(aggTo - files[lo].startBlock + 1, step)
    ensures aggTo - files[lo].startBlock + 1 <= Span(files[i])
  {
    EndsAscend(files, i, lo, step);
    EndPositive(files, i, step);
    Stuck(files[i], maxEnd, maxSpan);
    if files[i].endBlock + Span(files[i]) <= maxEnd {
      assert Dyadic(Span(files[i]), step);
      NotTwice(aggTo - files[lo].startBlock + 1, Span(files[i]), step);
    }
  }

  lemma {:induction false} EndPositive(files: seq<File>, i: nat, step: nat)
    requires step > 1 && Partition(files, step) && i < |files|
    ensures files[i].endBlock > 0
  {
    assert Dyadic(Span(files[i]), step) && Adjacent(files, i);
    var n: nat :| Span(files[i]) == Shift(step, n);
    ShiftGrows(step, 0, n);
  }

  lemma {:induction false} SwitchedAdjacent(files: seq<File>, file: File, lo: nat, hi: nat, i: nat, step: nat)
    requires Partition(files, step) && lo < hi <= |files| && i < |files| - (hi - lo) + 1
    requires file.startBlock == files[lo].startBlock <= file.endBlock == files[hi - 1].endBlock
    ensures Adjacent(Switched(files, lo, hi, file), i)
  {
    var r, d := Switched(files, lo, hi, file), hi - lo - 1;
    assert Adjacent(files, if i <= lo then i else i + d);
    if i > 0 {
      assert r[i - 1] == if i - 1 < lo then files[i - 1] else if i - 1 == lo then file else files[i - 1 + d];
    }
  }

  lemma {:induction false} SwitchedShrinks(files: seq<File>, file: File, lo: nat, hi: nat, i: nat, j: nat, step: nat)
    requires Partition(files, step) && lo < hi <= |files| && i < j < |files| - (hi - lo) + 1
    requires Span(files[lo]) <= Span(file) && (i < lo ==> Span(file) <= Span(files[i]))
    ensures var r := Switched(files, lo, hi, file); Span(r[j]) <= Span(r[i])
  {
    var d := hi - lo - 1;
    var a, b := if i <= lo then i else i + d, if j <= lo then j else j + d;
    assert NotLonger(files, a, b);
  }

  /** After the switch the files are a partition again. */
  lemma {:induction false} SwitchedPartition(files: seq<File>, file: File, p: Plan, step: nat)
    requires step > 0 && Partition(files, step) && PlanOk(files, p, step) && file.startBlock == p.aggFrom
    requires file.endBlock == p.aggTo
    ensures Partition(Switched(files, p.lo, p.hi, file), step)
  {
    var r := Switched(files, p.lo, p.hi, file);
    EndsAscend(files, p.lo, p.hi - 1, step);
    assert Adjacent(files, p.lo);
    forall i | 0 <= i < |r| ensures Adjacent(r, i) {
      SwitchedAdjacent(files, file, p.lo, p.hi, i, step);
    }
    forall i | 0 <= i < |r| ensures Dyadic(Span(r[i]), step) {
      assert i != p.lo ==> Dyadic(Span(files[if i < p.lo then i else i + (p.hi - p.lo - 1)]), step);
    }
    forall i, j | 0 <= i < j < |r| ensures NotLonger(r, i, j) {
      SwitchedShrinks(files, file, p.lo, p.hi, i, j, step);
    }
  }

  lemma {:induction false} SwitchedNext(files: seq<File>, file: File, lo: nat, hi: nat)
    requires lo < hi <= |files| && file.endBlock == files[hi - 1].endBlock
    ensures var r := Switched(files, lo, hi, file); NextBlock(r, |r|) == NextBlock(files, |files|)
  {}

  /** A new file of one step. */
  lemma {:induction false} AppendedPartition(files: seq<File>, file: File, step: nat)
    requires step > 0 && Partition(files, step) && file.startBlock == NextBlock(files, |files|) && Span(file) == step
    ensures Partition(files + [file], step)
  {
    var r := files + [file];
    assert Shift(step, 0) == step;
    forall i | 0 <= i < |r| ensures Adjacent(r, i) && Dyadic(Span(r[i]), step) && step <= Span(r[i]) {
      if i < |files| {
        assert Adjacent(files, i) && Dyadic(Span(files[i]), step);
        var n: nat :| Span(files[i]) == Shift(step, n);
        ShiftGrows(step, 0, n);
      }
    }
    forall i, j | 0 <= i < j < |r| ensures NotLonger(r, i, j) {
      if j < |files| {
        assert NotLonger(files, i, j);
      }
    }
  }

  // ---- all types plan the same

  lemma {:induction false} DoubledAgain(start: nat, next: nat, maxEnd: nat, maxSpan: nat)
    requires start <= next && Doubled(start, next, maxEnd, maxSpan) > 0
    ensures var r := Doubled(start, next, maxEnd, maxSpan); Doubled(start, next, r, maxSpan) == r
    decreases maxEnd - next
  {
    var next' := next + (next - start) + 1;
    if Doubled(start, next', maxEnd, maxSpan) > 0 {
      DoubledAgain(start, next', maxEnd, maxSpan);
    }
  }

  /** The two lists have the same first files, as far as their blocks go. */
  ghost predicate SameBlocks(files: seq<File>, other: seq<File>, n: nat) {
    && n <= |files| && n <= |other|
    && forall i {:trigger files[i]} {:trigger other[i]} :: 0 <= i < n ==>
        files[i].startBlock == other[i].startBlock && files[i].endBlock == other[i].endBlock
  }

  lemma {:induction false} ReachSame(files: seq<File>, i: nat, frozen: nat, aggTo: nat, hi: nat)
    requires i < hi <= frozen <= |files| && files[hi - 1].endBlock >= aggTo
    requires forall j :: i <= j < hi - 1 ==> files[j].endBlock < aggTo
    ensures Reach(files, i, frozen, aggTo) == hi
    decreases hi - i
  {
    if i < hi - 1 {
      ReachSame(files, i + 1, frozen, aggTo, hi);
    }
  }

  lemma {:induction false} PlanAt(files: seq<File>, i: nat, lo: nat, frozen: nat, maxEnd: nat, maxSpan: nat)
    requires i <= lo < frozen <= |files| && Spans(files) && Grows(files[lo], maxEnd, maxSpan)
    requires forall j :: i <= j < lo ==> !Grows(files[j], maxEnd, maxSpan)
    ensures PlanFrom(files, i, frozen, maxEnd, maxSpan) == PlanFrom(files, lo, frozen, maxEnd, maxSpan)
    decreases lo - i
  {
    if i < lo {
      PlanAt(files, i + 1, lo, frozen, maxEnd, maxSpan);
    }
  }

  lemma {:induction false} StuckToo(files: seq<File>, other: seq<File>, i: nat, p: Plan, maxEnd: nat, maxSpan: nat,
                                    step: nat)
    requires step > 1 && Spans(files) && Partition(files, step) && p.Merge? && i < p.lo < p.hi <= |files|
    requires p.aggTo == files[p.hi - 1].endBlock <= maxEnd
    requires SameBlocks(files, other, p.hi) && !Grows(files[i], maxEnd, maxSpan)
    ensures other[i].startBlock <= other[i].endBlock && !Grows(other[i], p.aggTo, maxSpan)
  {
    EndsAscend(files, i, p.hi - 1, step);
    EndPositive(files, i, step);
    StillStuck(files[i], maxEnd, p.aggTo, maxSpan);
    assert files[i].startBlock == other[i].startBlock && files[i].endBlock == other[i].endBlock;
  }

  lemma {:induction false} ReachToo(files: seq<File>, other: seq<File>, frozen': nat, p: Plan, step: nat)
    requires Partition(files, step) && p.Merge? && p.lo < p.hi <= |files| && p.aggTo == files[p.hi - 1].endBlock
    requires SameBlocks(files, other, p.hi) && p.hi <= frozen' <= |other|
    ensures Reach(other, p.lo, frozen', p.aggTo) == p.hi
  {
    forall j | p.lo <= j < p.hi - 1 ensures other[j].endBlock < p.aggTo {
      EndsAscend(files, j, p.hi - 1, step);
      assert files[j].endBlock == other[j].endBlock;
    }
    assert files[p.hi - 1].endBlock == other[p.hi - 1].endBlock;
    ReachSame(other, p.lo, frozen', p.aggTo, p.hi);
  }

  lemma {:induction false} SamePlanAt(files: seq<File>, other: seq<File>, frozen': nat, p: Plan, maxEnd: nat,
                                      maxSpan: nat, step: nat)
    requires step > 1 && Spans(files) && Partition(files, step) && PlanOk(files, p, step) && p.aggTo <= maxEnd
    requires p.hi <= frozen' <= |other| && Spans(other) && Partition(other, step) && SameBlocks(files, other, p.hi)
    requires forall i :: 0 <= i < p.lo ==> !Grows(files[i], maxEnd, maxSpan)
    requires p.aggTo == Doubled(files[p.lo].startBlock, files[p.lo].endBlock, maxEnd, maxSpan) > 0
    ensures PlanOf(other, frozen', p.aggTo, maxSpan) == p
  {
    forall i | 0 <= i < p.lo ensures !Grows(other[i], p.aggTo, maxSpan) {
      StuckToo(files, other, i, p, maxEnd, maxSpan, step);
    }
    var f, g := files[p.lo], other[p.lo];
    assert f.startBlock == g.startBlock && f.endBlock == g.endBlock;
    DoubledAgain(f.startBlock, f.endBlock, maxEnd, maxSpan);
    EndsAscend(files, p.lo, p.hi - 1, step);
    ReachToo(files, other, frozen', p, step);
    PlanAt(other, 0, p.lo, frozen', p.aggTo, maxSpan);
    assert files[p.hi - 1].endBlock == other[p.hi - 1].endBlock;
    EndsHere(other, frozen', p.hi, step);
  }

  lemma StillStuck(f: File, maxEnd: nat, bound: nat, maxSpan: nat)
    requires f.startBlock <= f.endBlock && 0 < f.endBlock <= bound <= maxEnd && !Grows(f, maxEnd, maxSpan)
    ensures !Grows(f, bound, maxSpan)
  {
    var next: nat := f.endBlock + (f.endBlock - f.startBlock) + 1;
    var r := Doubled(f.startBlock, next, maxEnd, maxSpan);
    assert r == 0 || r >= next;
    var r' := Doubled(f.startBlock, next, bound, maxSpan);
    assert r' == 0 || r' >= next;
  }

  lemma {:induction false} EndsHere(files: seq<File>, frozen: nat, hi: nat, step: nat)
    requires Partition(files, step) && 0 < hi <= frozen <= |files|
    ensures UpTo(files, frozen, files[hi - 1].endBlock) == hi
    decreases frozen
  {
    if hi < frozen {
      EndsAscend(files, hi - 1, frozen - 1, step);
      EndsHere(files, frozen - 1, hi, step);
    }
  }

  /** The range that one type plans is planned for every other type, told where to end: the
      mismatch errors of backgroundMerge cannot occur. */
  lemma {:induction false} SamePlan(files: seq<File>, frozen: nat, maxTo: nat, other: seq<File>, frozen': nat,
                                    maxSpan: nat, step: nat)
    requires step > 1 && frozen <= |files| && Spans(files) && Partition(files, step)
    requires frozen <= frozen' <= |other| && Spans(other) && Partition(other, step) && SameBlocks(files, other, frozen)
    ensures var p := PlanOf(files, frozen, maxTo, maxSpan); p.Merge? && p.aggTo > 0 ==>
        PlanOf(other, frozen', p.aggTo, maxSpan) == p
  {
    var p, m := PlanOf(files, frozen, maxTo, maxSpan), UpTo(files, frozen, maxTo);
    if p.Merge? && p.aggTo > 0 {
      assert PlanOk(files, p, step) && p.hi <= m by {
        PlanGood(files, frozen, maxTo, maxSpan, step);
      }
      var maxEnd := files[m - 1].endBlock;
      assert p.aggTo == Doubled(files[p.lo].startBlock, files[p.lo].endBlock, maxEnd, maxSpan) &&
        forall i :: 0 <= i < p.lo ==> !Grows(files[i], maxEnd, maxSpan) by {
        FirstGrows(files, 0, frozen, maxEnd, maxSpan);
      }
      SamePlanAt(files, other, frozen', p, maxEnd, maxSpan, step);
    }
  }

  /** Where nothing is planned the bound for the others is block 0, and they plan nothing. */
  lemma {:induction false} NoPlan(other: seq<File>, frozen: nat, maxSpan: nat)
    requires frozen <= |other| && Spans(other)
    ensures PlanOf(other, frozen, 0, maxSpan) == NoMerge
  {
    var m := UpTo(other, frozen, 0);
    assert m == 0 || other[m - 1].endBlock <= 0;
  }

  // ---- how many files are left

  function Popcount(n: nat): nat { if n == 0 then 0 else n % 2 + Popcount(n / 2) }

  lemma {:induction false} PopcountTop(a: nat, r: nat)
    requires r < Shift(1, a)
    ensures Popcount(Shift(1, a) + r) == 1 + Popcount(r)
  {
    if a == 0 {
      assert Popcount(1) == 1 + Popcount(0);
    } else {
      var p := Shift(1, a - 1);
      PopcountTop(a - 1, r / 2);
      assert (2 * p + r) % 2 == r % 2 && (2 * p + r) / 2 == p + r / 2;
    }
  }

  lemma {:induction false} MulPlus(a: nat, b: nat, u: nat)
    ensures Mul(a + b, u) == Mul(a, u) + Mul(b, u)
  {
    if b > 0 {
      MulPlus(a, b - 1, u);
    }
  }

  lemma {:induction false} ShiftUnits(step: nat, a: nat)
    ensures Shift(step, a) == Mul(Shift(1, a), step)
  {
    if a > 0 {
      ShiftUnits(step, a - 1);
      MulPlus(Shift(1, a - 1), Shift(1, a - 1), step);
    } else {
      assert Mul(1, step) == Mul(0, step) + step;
    }
  }

  /** Where no file can be doubled, the blocks from file i on, counted in steps, have one
      binary digit for each file. */
  lemma {:induction false} RestCounts(files: seq<File>, i: nat, step: nat) returns (n: nat)
    requires step > 1 && Partition(files, step) && i <= |files|
    requires forall j {:trigger Span(files[j])} :: i <= j < |files| ==>
        files[j].endBlock + Span(files[j]) >= NextBlock(files, |files|)
    ensures NextBlock(files, |files|) == NextBlock(files, i) + Mul(n, step) && |files| - i == Popcount(n)
    decreases |files| - i
  {
    n := 0;
    if i < |files| {
      var rest := RestCounts(files, i + 1, step);
      assert Adjacent(files, i) && Dyadic(Span(files[i]), step);
      n := TopDigit(Span(files[i]), rest, step);
    }
  }

  lemma {:induction false} TopDigit(span: nat, rest: nat, step: nat) returns (n: nat)
    requires step > 0 && Dyadic(span, step) && Mul(rest, step) < span
    ensures Mul(n, step) == span + Mul(rest, step) && Popcount(n) == 1 + Popcount(rest)
  {
    var a: nat :| span == Shift(step, a);
    var top := Shift(1, a);
    ShiftUnits(step, a);
    if top <= rest {
      MulMonotonic(top, rest, step);
    }
    PopcountTop(a, rest);
    MulPlus(top, rest, step);
    n := top + rest;
  }

  /** When no merge is possible any more, the number of files is the number of binary digits
      1 in the number of steps. */
  lemma {:induction false} FilesLeft(files: seq<File>, steps: nat, maxTo: nat, maxSpan: nat, step: nat)
    requires step > 1 && Spans(files) && Partition(files, step) && NextBlock(files, |files|) == steps * step
    requires PlanOf(files, |files|, maxTo, maxSpan) == NoMerge && NextBlock(files, |files|) <= maxTo
    requires 2 * NextBlock(files, |files|) <= maxSpan
    ensures |files| == Popcount(steps)
  {
    assert forall j {:trigger Span(files[j])} :: 0 <= j < |files| ==>
        files[j].endBlock + Span(files[j]) >= NextBlock(files, |files|) by {
      AllStuck(files, maxTo, maxSpan, step);
    }
    var n := RestCounts(files, 0, step);
    MulIsProduct(steps, step);
    MulMonotonic(if n < steps then n else steps, if n < steps then steps else n, step);
  }

  lemma {:induction false} AllStuck(files: seq<File>, maxTo: nat, maxSpan: nat, step: nat)
    requires step > 1 && Spans(files) && Partition(files, step)
    requires PlanOf(files, |files|, maxTo, maxSpan) == NoMerge && NextBlock(files, |files|) <= maxTo
    requires 2 * NextBlock(files, |files|) <= maxSpan
    ensures forall j {:trigger Span(files[j])} :: 0 <= j < |files| ==>
        files[j].endBlock + Span(files[j]) >= NextBlock(files, |files|)
  {
    if |files| > 0 {
      var maxEnd := files[|files| - 1].endBlock;
      assert UpTo(files, |files|, maxTo) == |files|;
      EndPositive(files, |files| - 1, step);
      FirstGrows(files, 0, |files|, maxEnd, maxSpan);
      forall j {:trigger Span(files[j])} | 0 <= j < |files|
        ensures files[j].endBlock + Span(files[j]) >= NextBlock(files, |files|) {
        EndPositive(files, j, step);
        Stuck(files[j], maxEnd, maxSpan);
      }
    }
  }
}
