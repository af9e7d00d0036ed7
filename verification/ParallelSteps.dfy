/** Every step of the workers keeps the invariant. */
module ParallelSteps {
  import opened Tally
  import opened ParallelQueue
  import opened ParallelOrder
  import opened Sums

  lemma HoldingSet(ws: seq<Worker>, i: nat, w: Worker, r: nat)
    requires i < |ws|
    ensures Total(Holding(ws[i := w], r)) + Holding(ws, r)[i] == Total(Holding(ws, r)) + Holding(ws[i := w], r)[i]
  {
    TotalSet(Holding(ws, r), Holding(ws[i := w], r), i);
  }

  lemma BusySet(ws: seq<Worker>, i: nat, w: Worker)
    requires i < |ws|
    ensures Total(Busy(ws[i := w])) + Busy(ws)[i] == Total(Busy(ws)) + Busy(ws[i := w])[i]
  {
    TotalSet(Busy(ws), Busy(ws[i := w]), i);
  }

  lemma OwingSet(p: Setup, cells: seq<CompressionWord>, ws: seq<Worker>, i: nat, w: Worker, m: Mark)
    requires i < |ws|
    ensures Total(Owing(p, cells, ws[i := w], m)) + Owed(p, cells, ws[i], m) == Total(Owing(p, cells, ws, m)) +
        Owed(p, cells, w, m)
  {
    TotalSet(Owing(p, cells, ws, m), Owing(p, cells, ws[i := w], m), i);
  }

  lemma CountedMore(bags: seq<multiset<Mark>>, i: nat, more: multiset<Mark>, m: Mark)
    requires i < |bags|
    ensures Total(Counted(bags[i := bags[i] + more], m)) == Total(Counted(bags, m)) + more[m]
  {
    TotalSet(Counted(bags, m), Counted(bags[i := bags[i] + more], m), i);
  }

  lemma InLineFirst(p: Setup, cells: seq<CompressionWord>, ch: seq<nat>, m: Mark)
    requires ch != []
    ensures Total(InLine(p, cells, ch, m)) == MarkAt(p, cells, ch[0], m) + Total(InLine(p, cells, ch[1..], m))
  {
    TotalFirst(InLine(p, cells, ch, m));
    assert InLine(p, cells, ch, m)[1..] == InLine(p, cells, ch[1..], m);
  }

  ghost predicate SameOrder(cells: seq<CompressionWord>, cells': seq<CompressionWord>, r: nat) {
    r < |cells| && r < |cells'| && cells[r].order == cells'[r].order
  }

  /** The counts depend on the orders of the words only. */
  lemma CountsSame(p: Setup, cells: seq<CompressionWord>, cells': seq<CompressionWord>, ch: seq<nat>, ws: seq<Worker>,
                   m: Mark)
    requires forall i: nat {:trigger ch[i]} :: i < |ch| ==> SameOrder(cells, cells', ch[i])
    requires forall i: nat {:trigger ws[i]} :: i < |ws| && ws[i].Took? ==> SameOrder(cells, cells', ws[i].ref)
    ensures InLine(p, cells, ch, m) == InLine(p, cells', ch, m) && Owing(p, cells, ws, m) == Owing(p, cells', ws, m)
  {
    forall i: nat | i < |ch| ensures MarkAt(p, cells, ch[i], m) == MarkAt(p, cells', ch[i], m) {
      assert SameOrder(cells, cells', ch[i]);
    }
    forall i: nat | i < |ws| ensures Owed(p, cells, ws[i], m) == Owed(p, cells', ws[i], m) {
      assert ws[i].Took? ==> SameOrder(cells, cells', ws[i].ref);
    }
  }

  lemma Starts(p: Setup)
    requires p.workers > 1
    ensures Inv(p, Start(p))
  {
    var s := Start(p);
    forall r: nat ensures InUse(s, r) == 0 {
      TotalZero(Holding(s.workers, r));
    }
    forall m: Mark ensures Conserved(p, s, m) {
      TotalZero(Counted(s.bags, m));
      TotalZero(InLine(p, s.cells, s.ch, m));
      TotalZero(Owing(p, s.cells, s.workers, m));
    }
  }

  /** What worker i holds, nobody else does. */
  lemma Alone(s: State, i: nat)
    requires i < |s.workers| && Holds(s.workers[i]) && Orders(s)
    ensures var r := s.workers[i].ref;
            OrderOk(s, r) && multiset(s.ch)[r] == 0 && multiset(s.out)[r] == 0 && s.queue[r] == 0 &&
                s.reader != Sending(r)
    ensures forall j: nat {:trigger s.workers[j]} :: j < |s.workers| && j != i && Holds(s.workers[j]) ==>
        s.workers[j].ref != s.workers[i].ref
  {
    var r := s.workers[i].ref;
    var held := Holding(s.workers, r);
    PartOfTotal(held, i);
    assert OrderOk(s, r);
    forall j: nat | j < |s.workers| && j != i && Holds(s.workers[j]) ensures s.workers[j].ref != r {
      TotalSet(held, held[i := 0], i);
      PartOfTotal(held[i := 0], j);
    }
  }

  lemma NotIn(s: seq<nat>, r: nat)
    requires multiset(s)[r] == 0
    ensures forall k: nat {:trigger s[k]} :: k < |s| ==> s[k] != r
  {
    forall k: nat | k < |s| ensures s[k] != r {
      assert s[k] in multiset(s);
    }
  }

  // Take.

  lemma TakenUses(s: State, i: nat, r: nat)
    requires i < |s.workers| && s.workers[i].Idle? && s.ch != []
    ensures InUse(Taken(s, i), r) == InUse(s, r)
  {
    HoldingSet(s.workers, i, Took(s.ch[0]), r);
    assert multiset(s.ch)[r] == multiset([s.ch[0]] + s.ch[1..])[r] by { assert s.ch == [s.ch[0]] + s.ch[1..]; }
  }

  lemma TakenConserved(p: Setup, s: State, i: nat, m: Mark)
    requires i < |s.workers| && s.workers[i].Idle? && s.ch != [] && Conserved(p, s, m)
    ensures Conserved(p, Taken(s, i), m)
  {
    InLineFirst(p, s.cells, s.ch, m);
    OwingSet(p, s.cells, s.workers, i, Took(s.ch[0]), m);
  }

  lemma TakenContents(p: Setup, s: State, i: nat)
    requires i < |s.workers| && s.workers[i].Idle? && s.ch != [] && Contents(p, s)
    ensures Contents(p, Taken(s, i))
  {
    var s' := Taken(s, i);
    assert Raw(p, s.cells, s.ch[0]);
    forall k: nat | k < |s'.workers| ensures WorkerOk(p, s'.cells, s'.workers[k]) {
      assert k != i ==> WorkerOk(p, s.cells, s.workers[k]);
    }
    forall k: nat | k < |s'.ch| ensures Raw(p, s'.cells, s'.ch[k]) {
      assert Raw(p, s.cells, s.ch[k + 1]);
    }
  }

  lemma TakeKeeps(p: Setup, s: State, i: nat)
    requires Inv(p, s) && Enabled(p, s, Take(i))
    ensures Inv(p, Taken(s, i))
  {
    var s' := Taken(s, i);
    forall r: nat ensures InUse(s', r) == InUse(s, r) {
      TakenUses(s, i, r);
    }
    OrdersKept(s, s');
    forall m: Mark ensures Conserved(p, s', m) {
      assert Conserved(p, s, m);
      TakenConserved(p, s, i, m);
    }
    TakenContents(p, s, i);
    BusySet(s.workers, i, Took(s.ch[0]));
    assert forall r: nat :: NextOnTop(s', r) == NextOnTop(s, r);
  }

  // Compress.

  lemma CompressedUses(p: Setup, s: State, i: nat, r: nat)
    requires i < |s.workers| && s.workers[i].Took? && s.workers[i].ref < |s.cells| && |s.bags| == |s.workers| + 1
    ensures InUse(Compressed(p, s, i), r) == InUse(s, r)
  {
    HoldingSet(s.workers, i, Compressed(p, s, i).workers[i], r);
  }

  lemma CompressedOwing(p: Setup, cells: seq<CompressionWord>, ws: seq<Worker>, i: nat, m: Mark)
    requires i < |ws| && ws[i].Took? && Raw(p, cells, ws[i].ref)
    ensures var w := cells[ws[i].ref].word;
            Total(Owing(p, cells, ws[i := Ready(ws[i].ref, |w|)], m)) + p.marks(w)[m] == Total(Owing(p, cells, ws, m))
  {
    var w := cells[ws[i].ref].word;
    OwingSet(p, cells, ws, i, Ready(ws[i].ref, |w|), m);
  }

  lemma CompressedConserved(p: Setup, s: State, i: nat, m: Mark)
    requires i < |s.workers| && s.workers[i].Took? && s.workers[i].ref < |s.cells| && |s.bags| == |s.workers| + 1
    requires Conserved(p, s, m) && Raw(p, s.cells, s.workers[i].ref)
    requires forall k: nat {:trigger s.ch[k]} :: k < |s.ch| ==> s.ch[k] < |s.cells|
    requires forall k: nat {:trigger s.workers[k]} :: k < |s.workers| && s.workers[k].Took? ==>
        s.workers[k].ref < |s.cells|
    ensures Conserved(p, Compressed(p, s, i), m)
  {
    var s', r := Compressed(p, s, i), s.workers[i].ref;
    CountedMore(s.bags, i + 1, p.marks(s.cells[r].word), m);
    CompressedOwing(p, s.cells, s.workers, i, m);
    CountsSame(p, s.cells, s'.cells, s.ch, s'.workers, m);
  }

  lemma CompressedContents(p: Setup, s: State, i: nat)
    requires i < |s.workers| && s.workers[i].Took? && s.workers[i].ref < |s.cells| && |s.bags| == |s.workers| + 1
    requires Contents(p, s) && Orders(s)
    ensures Contents(p, Compressed(p, s, i))
  {
    var s', r := Compressed(p, s, i), s.workers[i].ref;
    Alone(s, i);
    NotIn(s.ch, r);
    NotIn(s.out, r);
    assert WorkerOk(p, s.cells, s.workers[i]);
    forall k: nat | k < |s'.workers| ensures WorkerOk(p, s'.cells, s'.workers[k]) {
      assert k != i ==> WorkerOk(p, s.cells, s.workers[k]);
    }
    forall k: nat | k < |s'.ch| ensures Raw(p, s'.cells, s'.ch[k]) {
      assert Raw(p, s.cells, s.ch[k]);
    }
    forall k: nat | k < |s'.out| ensures Formed(p, s'.cells, s'.out[k]) {
      assert Formed(p, s.cells, s.out[k]);
    }
    forall q: nat | s'.queue[q] > 0 ensures Formed(p, s'.cells, q) {
      assert Formed(p, s.cells, q);
    }
  }

  lemma CompressKeeps(p: Setup, s: State, i: nat)
    requires Inv(p, s) && Enabled(p, s, Compress(i))
    ensures Inv(p, Compressed(p, s, i))
  {
    var s', r := Compressed(p, s, i), s.workers[i].ref;
    forall q: nat ensures InUse(s', q) == InUse(s, q) {
      CompressedUses(p, s, i, q);
    }
    OrdersKept(s, s');
    CompressedContents(p, s, i);
    assert forall k: nat :: k < |s.ch| ==> Raw(p, s.cells, s.ch[k]);
    assert forall k: nat :: k < |s.workers| ==> WorkerOk(p, s.cells, s.workers[k]);
    forall m: Mark ensures Conserved(p, s', m) {
      assert Conserved(p, s, m);
      CompressedConserved(p, s, i, m);
    }
    BusySet(s.workers, i, s'.workers[i]);
    assert forall q: nat :: NextOnTop(s', q) == NextOnTop(s, q);
  }

  // Send.

  lemma SentUses(s: State, i: nat, r: nat)
    requires i < |s.workers| && s.workers[i].Ready?
    ensures InUse(Handed(s, i), r) == InUse(s, r)
  {
    HoldingSet(s.workers, i, Handed(s, i).workers[i], r);
  }

  lemma SentContents(p: Setup, s: State, i: nat)
    requires i < |s.workers| && s.workers[i].Ready? && Contents(p, s)
    ensures Contents(p, Handed(s, i))
  {
    var s' := Handed(s, i);
    assert WorkerOk(p, s.cells, s.workers[i]);
    forall k: nat | k < |s'.workers| ensures WorkerOk(p, s'.cells, s'.workers[k]) {
      assert k != i ==> WorkerOk(p, s.cells, s.workers[k]);
    }
    forall k: nat | k < |s'.out| ensures Formed(p, s'.cells, s'.out[k]) {
      assert k < |s.out| ==> Formed(p, s.cells, s.out[k]);
    }
  }

  lemma SentConserved(p: Setup, s: State, i: nat, m: Mark)
    requires i < |s.workers| && s.workers[i].Ready? && Conserved(p, s, m)
    ensures Conserved(p, Handed(s, i), m)
  {
    OwingSet(p, s.cells, s.workers, i, Handed(s, i).workers[i], m);
  }

  lemma SendKeeps(p: Setup, s: State, i: nat)
    requires Inv(p, s) && Enabled(p, s, Send(i))
    ensures Inv(p, Handed(s, i))
  {
    var s' := Handed(s, i);
    Alone(s, i);
    assert !s.outClosed;
    forall r: nat ensures InUse(s', r) == InUse(s, r) {
      SentUses(s, i, r);
    }
    OrdersKept(s, s');
    SentContents(p, s, i);
    forall m: Mark ensures Conserved(p, s', m) {
      assert Conserved(p, s, m);
      SentConserved(p, s, i, m);
    }
    BusySet(s.workers, i, s'.workers[i]);
    assert forall q: nat :: NextOnTop(s', q) == NextOnTop(s, q);
  }

  // Tally and Exit: a worker that holds nothing.

  lemma FreeUses(s: State, i: nat, w: Worker, s': State, r: nat)
    requires i < |s.workers| && !Holds(s.workers[i]) && !Holds(w) && s'.workers == s.workers[i := w]
    requires s'.ch == s.ch && s'.out == s.out && s'.queue == s.queue && s'.reader == s.reader
    ensures InUse(s', r) == InUse(s, r)
  {
    HoldingSet(s.workers, i, w, r);
  }

  lemma FreeContents(p: Setup, s: State, i: nat, w: Worker, s': State)
    requires i < |s.workers| && !Holds(s.workers[i]) && !Holds(w) && s'.workers == s.workers[i := w]
    requires s'.ch == s.ch && s'.out == s.out && s'.queue == s.queue && s'.reader == s.reader && s'.cells == s.cells
    requires s'.inCount == s.inCount
    requires Contents(p, s)
    ensures Contents(p, s')
  {
    forall k: nat | k < |s'.workers| ensures WorkerOk(p, s'.cells, s'.workers[k]) {
      assert k != i ==> WorkerOk(p, s.cells, s.workers[k]);
    }
  }

  lemma TalliedCount(s: State, i: nat, m: Mark)
    requires i < |s.workers| && s.workers[i].Sent? && |s.bags| == |s.workers| + 1
    ensures Total(Counted(Tallied(s, i).bags, m)) == Total(Counted(s.bags, m)) + LengthMark(s.workers[i].wordLen, m)
  {
    CountedMore(s.bags, i + 1, LengthMarks(s.workers[i].wordLen), m);
    LengthMarksAre(s.workers[i].wordLen, m);
  }

  lemma TalliedConserved(p: Setup, s: State, i: nat, m: Mark)
    requires i < |s.workers| && s.workers[i].Sent? && |s.bags| == |s.workers| + 1 && Conserved(p, s, m)
    ensures Conserved(p, Tallied(s, i), m)
  {
    TalliedCount(s, i, m);
    OwingSet(p, s.cells, s.workers, i, Idle, m);
  }

  lemma TallyKeeps(p: Setup, s: State, i: nat)
    requires Inv(p, s) && Enabled(p, s, Tally(i))
    ensures Inv(p, Tallied(s, i))
  {
    var s' := Tallied(s, i);
    forall r: nat ensures InUse(s', r) == InUse(s, r) {
      FreeUses(s, i, Idle, s', r);
    }
    OrdersKept(s, s');
    FreeContents(p, s, i, Idle, s');
    forall m: Mark ensures Conserved(p, s', m) {
      assert Conserved(p, s, m);
      TalliedConserved(p, s, i, m);
    }
    BusySet(s.workers, i, Idle);
    assert forall q: nat :: NextOnTop(s', q) == NextOnTop(s, q);
  }

  lemma ExitKeeps(p: Setup, s: State, i: nat)
    requires Inv(p, s) && Enabled(p, s, Exit(i))
    ensures Inv(p, Apply(p, s, Exit(i)))
  {
    var s' := Apply(p, s, Exit(i));
    forall r: nat ensures InUse(s', r) == InUse(s, r) {
      FreeUses(s, i, Exited, s', r);
    }
    OrdersKept(s, s');
    FreeContents(p, s, i, Exited, s');
    forall m: Mark ensures Conserved(p, s', m) {
      assert Conserved(p, s, m);
      OwingSet(p, s.cells, s.workers, i, Exited, m);
    }
    BusySet(s.workers, i, Exited);
    assert forall q: nat :: NextOnTop(s', q) == NextOnTop(s, q);
  }
}
