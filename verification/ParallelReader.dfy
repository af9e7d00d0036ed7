/** Every step of the reader keeps the invariant. */
module ParallelReader {
  import opened Tally
  import opened ParallelQueue
  import opened ParallelOrder
  import opened ParallelSteps
  import opened Sums

  // A word goes from out to the queue.

  lemma QueuedUses(s: State, reader: Reader, r: nat)
    requires s.out != [] && !s.reader.Sending? && !reader.Sending?
    ensures InUse(Queued(s, reader), r) == InUse(s, r)
  {
    assert multiset(s.out)[r] == multiset([s.out[0]] + s.out[1..])[r] by { assert s.out == [s.out[0]] + s.out[1..]; }
  }

  lemma QueuedContents(p: Setup, s: State, reader: Reader)
    requires s.out != [] && !reader.Sending? && Contents(p, s)
    ensures Contents(p, Queued(s, reader))
  {
    var s' := Queued(s, reader);
    assert Formed(p, s.cells, s.out[0]);
    forall k: nat | k < |s'.out| ensures Formed(p, s'.cells, s'.out[k]) {
      assert Formed(p, s.cells, s.out[k + 1]);
    }
    forall q: nat | s'.queue[q] > 0 ensures Formed(p, s'.cells, q) {
      assert q != s.out[0] ==> Formed(p, s.cells, q);
    }
  }

  lemma QueuedKeeps(p: Setup, s: State, reader: Reader)
    requires Inv(p, s) && s.out != []
    requires
      || (s.reader.Draining? && reader.Draining?)
      || (s.reader.Waiting? && reader.Waiting?)
      || (s.reader.Ranging? && reader.Flushing?)
    ensures Inv(p, Queued(s, reader))
  {
    var s' := Queued(s, reader);
    forall r: nat ensures InUse(s', r) == InUse(s, r) {
      QueuedUses(s, reader, r);
    }
    OrdersKept(s, s');
    QueuedContents(p, s, reader);
    forall m: Mark ensures Conserved(p, s', m) {
      assert Conserved(p, s, m);
    }
  }

  // A step that only moves the reader.

  lemma MovedKeeps(p: Setup, s: State, s': State)
    requires Inv(p, s) && s' == s.(reader := s'.reader, chClosed := s'.chClosed) && !s.reader.Sending?
    requires !s'.reader.Sending?
    requires Control(p, s') && Waits(s') && Flow(s')
    ensures Inv(p, s')
  {
    forall r: nat ensures InUse(s', r) == InUse(s, r) {
    }
    OrdersKept(s, s');
    forall m: Mark ensures Conserved(p, s', m) {
      assert Conserved(p, s, m);
    }
  }

  lemma FetchKeeps(p: Setup, s: State)
    requires Inv(p, s) && Enabled(p, s, Fetch)
    ensures Inv(p, Fetched(p, s))
  {
    MovedKeeps(p, s, Fetched(p, s));
  }

  lemma StopDrainingKeeps(p: Setup, s: State)
    requires Inv(p, s) && Enabled(p, s, StopDraining)
    ensures Inv(p, s.(reader := Waiting))
  {
    TotalOnes(Busy(s.workers));
    MovedKeeps(p, s, s.(reader := Waiting));
  }

  lemma MoveKeeps(p: Setup, s: State, step: Step)
    requires Inv(p, s) && Enabled(p, s, step) && (step.StopWaiting? || step.StopFlushing? || step.RangeEnd?)
    ensures Inv(p, Apply(p, s, step))
  {
    var s' := Apply(p, s, step);
    assert step.StopFlushing? ==> forall r: nat :: NextOnTop(s', r) == NextOnTop(s, r);
    MovedKeeps(p, s, s');
  }

  lemma DeliveredUses(s: State, r: nat)
    requires s.reader.Sending?
    ensures InUse(Delivered(s), r) == InUse(s, r)
  {
  }

  lemma InLineMore(p: Setup, cells: seq<CompressionWord>, ch: seq<nat>, r: nat, m: Mark)
    ensures Total(InLine(p, cells, ch + [r], m)) == Total(InLine(p, cells, ch, m)) + MarkAt(p, cells, r, m)
  {
    assert InLine(p, cells, ch + [r], m) == InLine(p, cells, ch, m) + [MarkAt(p, cells, r, m)];
    TotalSnoc(InLine(p, cells, ch, m), MarkAt(p, cells, r, m));
  }

  lemma DeliveredContents(p: Setup, s: State)
    requires s.reader.Sending? && Contents(p, s)
    ensures Contents(p, Delivered(s))
  {
    forall k: nat | k < |s.ch| + 1 ensures Raw(p, s.cells, (s.ch + [s.reader.ref])[k]) {
      assert k < |s.ch| ==> Raw(p, s.cells, s.ch[k]);
    }
  }

  lemma DeliveredConserved(p: Setup, s: State, m: Mark)
    requires s.reader.Sending? && Raw(p, s.cells, s.reader.ref) && s.cells[s.reader.ref].order == s.inCount
    requires Conserved(p, s, m)
    ensures Conserved(p, Delivered(s), m)
  {
    InLineMore(p, s.cells, s.ch, s.reader.ref, m);
  }

  lemma DeliverKeeps(p: Setup, s: State)
    requires Inv(p, s) && Enabled(p, s, Deliver)
    ensures Inv(p, Apply(p, s, Deliver))
  {
    var s', r := Apply(p, s, Deliver), s.reader.ref;
    assert InUse(s, r) > 0 && OrderOk(s, r);
    forall q: nat ensures InUse(s', q) == InUse(s, q) {
      DeliveredUses(s, q);
    }
    OrdersKept(s, s');
    DeliveredContents(p, s);
    forall m: Mark ensures Conserved(p, s', m) {
      assert Conserved(p, s, m);
      DeliveredConserved(p, s, m);
    }
  }

  // A word is popped from the queue, or filled with the next input word.

  lemma PoppedUses(s: State, r: nat, q: nat)
    requires r < |s.cells| && s.queue[r] > 0
    ensures InUse(Popped(s, r), q) == if q == r then InUse(s, q) - 1 else InUse(s, q)
  {
  }

  /** Everything but the control part: the reader may be anywhere that does not hold a word. */
  ghost predicate Sound(p: Setup, s: State) { Contents(p, s) && AllConserved(p, s) && Orders(s) }

  lemma PoppedSound(p: Setup, s: State, r: nat)
    requires Sound(p, s) && NextOnTop(s, r) && s.outCount < |p.words|
    ensures Sound(p, Popped(s, r)) && s.outCount < Next(s) && InUse(Popped(s, r), r) == 0
    ensures s.file == Forms(p, s.outCount) ==> Popped(s, r).file == Forms(p, s.outCount + 1)
  {
    var s' := Popped(s, r);
    forall q: nat ensures InUse(s', q) == if q == r then InUse(s, q) - 1 else InUse(s, q) {
      PoppedUses(s, r, q);
    }
    assert HasOrder(s, s.outCount, r);
    OrdersPopped(s, s', r);
    assert Formed(p, s.cells, r);
    forall q: nat | s'.queue[q] > 0 ensures Formed(p, s'.cells, q) {
      assert Formed(p, s.cells, q);
    }
    forall k: nat | k < |s'.workers| ensures WorkerOk(p, s'.cells, s'.workers[k]) {
      assert WorkerOk(p, s.cells, s.workers[k]);
    }
    forall m: Mark ensures Conserved(p, s', m) {
      assert Conserved(p, s, m);
    }
  }

  /** A reference that is in use nowhere. */
  lemma Free(s: State, r: nat)
    requires InUse(s, r) == 0
    ensures multiset(s.ch)[r] == 0 && multiset(s.out)[r] == 0 && s.queue[r] == 0
    ensures forall j: nat {:trigger s.workers[j]} :: j < |s.workers| && Holds(s.workers[j]) ==> s.workers[j].ref != r
  {
    forall j: nat | j < |s.workers| && Holds(s.workers[j]) ensures s.workers[j].ref != r {
      PartOfTotal(Holding(s.workers, r), j);
    }
  }

  lemma FilledUses(p: Setup, s: State, r: nat, q: nat)
    requires s.inCount < |p.words| && r < |s.cells| && |s.bags| > 0 && !s.reader.Sending? && InUse(s, r) == 0
    ensures InUse(Filled(p, s, r), q) == if q == r then 1 else InUse(s, q)
  {
  }

  /** Filling a free word leaves the others as they are. */
  lemma OthersSame(p: Setup, s: State, r: nat, c: CompressionWord)
    requires r < |s.cells| && InUse(s, r) == 0 && Contents(p, s) && !s.reader.Sending?
    ensures Contents(p, s.(cells := s.cells[r := c]))
  {
    var cells' := s.cells[r := c];
    Free(s, r);
    NotIn(s.ch, r);
    NotIn(s.out, r);
    forall k: nat | k < |s.workers| ensures WorkerOk(p, cells', s.workers[k]) {
      assert WorkerOk(p, s.cells, s.workers[k]);
    }
    forall k: nat | k < |s.ch| ensures Raw(p, cells', s.ch[k]) {
      assert Raw(p, s.cells, s.ch[k]);
    }
    forall k: nat | k < |s.out| ensures Formed(p, cells', s.out[k]) {
      assert Formed(p, s.cells, s.out[k]);
    }
    forall q: nat | s.queue[q] > 0 ensures Formed(p, cells', q) {
      assert Formed(p, s.cells, q);
    }
  }

  lemma FilledContents(p: Setup, s: State, r: nat)
    requires s.inCount < |p.words| && r < |s.cells| && |s.bags| > 0 && !s.reader.Sending? && InUse(s, r) == 0
    requires Contents(p, s)
    ensures Contents(p, Filled(p, s, r))
  {
    var s' := Filled(p, s, r);
    OthersSame(p, s, r, s'.cells[r]);
    forall q: nat | s'.queue[q] > 0 ensures Formed(p, s'.cells, q) {
      assert q != r ==> s.queue[q] > 0;
    }
  }

  lemma FilledCounts(p: Setup, s: State, r: nat, m: Mark)
    requires s.inCount < |p.words| && r < |s.cells| && |s.bags| > 0 && InUse(s, r) == 0 && Contents(p, s)
    ensures var cells' := Filled(p, s, r).cells;
            InLine(p, s.cells, s.ch, m) == InLine(p, cells', s.ch, m) &&
                Owing(p, s.cells, s.workers, m) == Owing(p, cells', s.workers, m)
  {
    var cells' := Filled(p, s, r).cells;
    Free(s, r);
    NotIn(s.ch, r);
    forall k: nat | k < |s.ch| ensures SameOrder(s.cells, cells', s.ch[k]) {
      assert Raw(p, s.cells, s.ch[k]);
    }
    forall k: nat | k < |s.workers| && s.workers[k].Took? ensures SameOrder(s.cells, cells', s.workers[k].ref) {
      assert WorkerOk(p, s.cells, s.workers[k]);
    }
    CountsSame(p, s.cells, cells', s.ch, s.workers, m);
  }

  lemma BypassCount(s: State, w: Word, m: Mark)
    requires |s.bags| > 0
    ensures Total(Counted(s.bags[0 := s.bags[0] + LengthMarks(|w.bytes|)], m)) == Total(Counted(s.bags, m)) +
        LengthMark(|w.bytes|, m)
  {
    CountedMore(s.bags, 0, LengthMarks(|w.bytes|), m);
    LengthMarksAre(|w.bytes|, m);
  }

  lemma FilledConserved(p: Setup, s: State, r: nat, m: Mark)
    requires s.inCount < |p.words| && r < |s.cells| && |s.bags| > 0 && InUse(s, r) == 0 && Contents(p, s)
    requires Conserved(p, s, m)
    ensures Conserved(p, Filled(p, s, r), m)
  {
    var w, s' := p.words[s.inCount], Filled(p, s, r);
    FilledCounts(p, s, r, m);
    if Bypasses(w) {
      BypassCount(s, w, m);
      assert MarksTo(p, s.inCount + 1, m) == MarksTo(p, s.inCount, m) + MarkOf(p, w, m);
    } else {
      assert s'.bags == s.bags && s'.inCount == s.inCount;
    }
    assert s'.ch == s.ch && s'.workers == s.workers;
  }

  lemma FilledSound(p: Setup, s: State, r: nat)
    requires Sound(p, s) && s.outCount <= s.inCount < |p.words| && |s.bags| > 0 && !s.reader.Sending?
    requires r < |s.cells| && InUse(s, r) == 0
    ensures Sound(p, Filled(p, s, r))
  {
    var s' := Filled(p, s, r);
    forall q: nat ensures InUse(s', q) == if q == r then 1 else InUse(s, q) {
      FilledUses(p, s, r, q);
    }
    OrdersFilled(s, s', r);
    FilledContents(p, s, r);
    forall m: Mark ensures Conserved(p, s', m) {
      assert Conserved(p, s, m);
      FilledConserved(p, s, r, m);
    }
  }

  lemma AllocatedContents(p: Setup, s: State)
    requires Contents(p, s)
    ensures Contents(p, Allocated(s))
  {
    var cells' := Allocated(s).cells;
    forall k: nat | k < |s.workers| ensures WorkerOk(p, cells', s.workers[k]) {
      assert WorkerOk(p, s.cells, s.workers[k]);
    }
    forall k: nat | k < |s.ch| ensures Raw(p, cells', s.ch[k]) {
      assert Raw(p, s.cells, s.ch[k]);
    }
    forall k: nat | k < |s.out| ensures Formed(p, cells', s.out[k]) {
      assert Formed(p, s.cells, s.out[k]);
    }
    forall q: nat | s.queue[q] > 0 ensures Formed(p, cells', q) {
      assert Formed(p, s.cells, q);
    }
  }

  lemma AllocatedConserved(p: Setup, s: State, m: Mark)
    requires Contents(p, s) && Conserved(p, s, m)
    ensures Conserved(p, Allocated(s), m)
  {
    var cells' := Allocated(s).cells;
    forall k: nat | k < |s.ch| ensures SameOrder(s.cells, cells', s.ch[k]) {
      assert Raw(p, s.cells, s.ch[k]);
    }
    forall k: nat | k < |s.workers| && s.workers[k].Took? ensures SameOrder(s.cells, cells', s.workers[k].ref) {
      assert WorkerOk(p, s.cells, s.workers[k]);
    }
    CountsSame(p, s.cells, cells', s.ch, s.workers, m);
  }

  lemma AllocatedSound(p: Setup, s: State)
    requires Sound(p, s)
    ensures Sound(p, Allocated(s)) && InUse(Allocated(s), |s.cells|) == 0
  {
    var s' := Allocated(s);
    forall q: nat ensures InUse(s', q) == InUse(s, q) {
    }
    assert InUse(s, |s.cells|) > 0 ==> OrderOk(s, |s.cells|);
    OrdersKept(s, s');
    AllocatedContents(p, s);
    forall m: Mark ensures Conserved(p, s', m) {
      assert Conserved(p, s, m);
      AllocatedConserved(p, s, m);
    }
  }

  // Reuse, Allocate and Flush.

  lemma FilledControl(p: Setup, s: State, r: nat)
    requires Control(p, s) && Flow(s) && s.reader.Placing? && r < |s.cells|
    ensures var s' := Filled(p, s, r); Control(p, s') && Waits(s') && Flow(s')
  {
  }

  lemma PlacedKeeps(p: Setup, s: State, r: nat)
    requires Control(p, s) && Flow(s) && Sound(p, s) && s.reader.Placing? && r < |s.cells| && InUse(s, r) == 0
    ensures Inv(p, Filled(p, s, r))
  {
    FilledControl(p, s, r);
    FilledSound(p, s, r);
  }

  lemma PoppedControl(p: Setup, s: State, file: Bytes, queue: multiset<nat>)
    requires Control(p, s) && Flow(s) && s.reader.Placing? && s.outCount < s.inCount && file == Forms(p, s.outCount + 1)
    ensures var s' := s.(queue := queue, outCount := s.outCount + 1, file := file); Control(p, s') && Flow(s')
  {
  }

  lemma PoppedIs(s: State, r: nat)
    requires r < |s.cells|
    ensures Popped(s, r) == s.(queue := s.queue - multiset{r}, outCount := s.outCount + 1, file := Popped(s, r).file)
  {
  }

  lemma ReuseReady(p: Setup, s: State, r: nat)
    requires Inv(p, s) && s.reader.Placing? && NextOnTop(s, r)
    ensures Control(p, Popped(s, r)) && Flow(Popped(s, r)) && Sound(p, Popped(s, r)) && InUse(Popped(s, r), r) == 0
  {
    PoppedSound(p, s, r);
    PoppedIs(s, r);
    PoppedControl(p, s, Popped(s, r).file, s.queue - multiset{r});
  }

  lemma ReuseKeeps(p: Setup, s: State, r: nat)
    requires Inv(p, s) && s.reader.Placing? && NextOnTop(s, r)
    ensures Inv(p, Filled(p, Popped(s, r), r))
  {
    ReuseReady(p, s, r);
    PlacedKeeps(p, Popped(s, r), r);
  }

  lemma AllocateKeeps(p: Setup, s: State)
    requires Inv(p, s) && Enabled(p, s, Allocate)
    ensures Inv(p, Apply(p, s, Allocate))
  {
    AllocatedSound(p, s);
    PlacedKeeps(p, Allocated(s), |s.cells|);
  }

  lemma FlagsSound(p: Setup, s: State, outClosed: bool, panicked: bool)
    requires Sound(p, s)
    ensures Sound(p, s.(outClosed := outClosed, panicked := panicked))
  {
    var s' := s.(outClosed := outClosed, panicked := panicked);
    forall q: nat ensures InUse(s', q) == InUse(s, q) {
    }
    OrdersKept(s, s');
    forall m: Mark ensures Conserved(p, s', m) {
      assert Conserved(p, s, m);
    }
  }

  lemma FlushControl(p: Setup, s: State, file: Bytes, queue: multiset<nat>)
    requires Control(p, s) && Flow(s) && s.reader.Flushing? && s.outCount < s.inCount
    requires file == Forms(p, s.outCount + 1)
    ensures var n := s.outCount + 1;
      var s' := s.(queue := queue, outCount := n, file := file, outClosed := n == s.inCount);
            Control(p, s') && Waits(s') && Flow(s')
  {
  }

  lemma FlushedIs(s: State, r: nat)
    requires r < |s.cells| && !s.outClosed && !s.panicked
    ensures Flushed(s, r) == s.(queue := s.queue - multiset{r}, outCount := s.outCount + 1, file := Flushed(s, r).file,
                                outClosed := s.outCount + 1 == s.inCount)
  {
  }

  lemma FlushSound(p: Setup, s: State, r: nat)
    requires Sound(p, s) && NextOnTop(s, r) && s.outCount < |p.words| && s.file == Forms(p, s.outCount)
    ensures Sound(p, Flushed(s, r)) && s.outCount < Next(s) && Flushed(s, r).file == Forms(p, s.outCount + 1)
  {
    PoppedSound(p, s, r);
    FlagsSound(p, Popped(s, r), Flushed(s, r).outClosed, Flushed(s, r).panicked);
  }

  lemma FlushKeeps(p: Setup, s: State, r: nat)
    requires Inv(p, s) && s.reader.Flushing? && NextOnTop(s, r)
    ensures Inv(p, Flushed(s, r))
  {
    assert s.queue[r] > 0 && InUse(s, r) > 0 && OrderOk(s, r);
    FlushSound(p, s, r);
    FlushedIs(s, r);
    FlushControl(p, s, Flushed(s, r).file, s.queue - multiset{r});
  }

  /** One step, whatever it is. */
  lemma Keeps(p: Setup, s: State, step: Step)
    requires Inv(p, s) && Enabled(p, s, step)
    ensures Inv(p, Apply(p, s, step))
  {
    match step
    case Fetch => FetchKeeps(p, s);
    case Receive => QueuedKeeps(p, s, Draining);
    case StopDraining => StopDrainingKeeps(p, s);
    case Await => QueuedKeeps(p, s, Waiting);
    case StopWaiting => MoveKeeps(p, s, step);
    case Reuse(r) => ReuseKeeps(p, s, r);
    case Allocate => AllocateKeeps(p, s);
    case Deliver => DeliverKeeps(p, s);
    case Flush(r) => FlushKeeps(p, s, r);
    case StopFlushing => MoveKeeps(p, s, step);
    case RangeNext => QueuedKeeps(p, s, Flushing);
    case RangeEnd => MoveKeeps(p, s, step);
    case Take(i) => TakeKeeps(p, s, i);
    case Compress(i) => CompressKeeps(p, s, i);
    case Send(i) => SendKeeps(p, s, i);
    case Tally(i) => TallyKeeps(p, s, i);
    case Exit(i) => ExitKeeps(p, s, i);
  }
}
