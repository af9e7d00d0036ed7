/** What holds in every state of reducedict's reader and workers, whatever their interleaving. */
module ParallelOrder {
  import opened Tally
  import opened ParallelQueue
  import opened Sums

  // The references in use, and how often.

  predicate Holds(w: Worker) { w.Took? || w.Ready? }

  function Holding(ws: seq<Worker>, r: nat): (c: seq<nat>)
    ensures |c| == |ws| && forall i :: 0 <= i < |ws| ==> c[i] == if Holds(ws[i]) && ws[i].ref == r then 1 else 0
  {
    seq(|ws|, i requires 0 <= i < |ws| => if Holds(ws[i]) && ws[i].ref == r then 1 else 0)
  }

  /** The workers that hold a word. */
  function Busy(ws: seq<Worker>): (c: seq<nat>)
    ensures |c| == |ws| && forall i :: 0 <= i < |ws| ==> c[i] == if Holds(ws[i]) then 1 else 0
  {
    seq(|ws|, i requires 0 <= i < |ws| => if Holds(ws[i]) then 1 else 0)
  }

  /** How often r is in use: in a channel, in the queue, at a worker or at the reader. */
  function InUse(s: State, r: nat): nat {
    multiset(s.ch)[r] + multiset(s.out)[r] + s.queue[r] + Total(Holding(s.workers, r))
    + if s.reader == Sending(r) then 1 else 0
  }

  /** The first order that is not yet given to a word. */
  function Next(s: State): nat { if s.reader.Sending? then s.inCount + 1 else s.inCount }

  ghost predicate OrderOk(s: State, r: nat) {
    InUse(s, r) == 1 && r < |s.cells| && s.outCount <= s.cells[r].order < Next(s)
  }

  ghost predicate HasOrder(s: State, k: nat, r: nat) { InUse(s, r) > 0 && r < |s.cells| && s.cells[r].order == k }

  ghost predicate Given(s: State, k: nat) { exists r: nat :: HasOrder(s, k, r) }

  /** The orders in use are exactly those between outCount and inCount, each once. */
  ghost predicate Orders(s: State) {
    && (forall r: nat {:trigger OrderOk(s, r)} {:trigger InUse(s, r)} :: InUse(s, r) > 0 ==> OrderOk(s, r))
    && (forall k: nat, r: nat, q: nat :: HasOrder(s, k, r) && HasOrder(s, k, q) ==> r == q)
    && forall k: nat :: s.outCount <= k < Next(s) ==> Given(s, k)
  }

  /** A step that only passes references on. */
  lemma OrdersKept(s: State, s': State)
    requires Orders(s) && s'.outCount == s.outCount && Next(s') == Next(s) && |s.cells| <= |s'.cells|
    requires forall r: nat {:trigger InUse(s', r)} :: InUse(s', r) == InUse(s, r)
    requires forall r: nat :: r < |s.cells| ==> s'.cells[r].order == s.cells[r].order
    ensures Orders(s')
  {
    forall r: nat | InUse(s', r) > 0 ensures OrderOk(s', r) {
      assert OrderOk(s, r);
    }
    forall k: nat, r: nat, q: nat | HasOrder(s', k, r) && HasOrder(s', k, q) ensures r == q {
      assert OrderOk(s, r) && OrderOk(s, q);
      assert HasOrder(s, k, r) && HasOrder(s, k, q);
    }
    forall k: nat | s'.outCount <= k < Next(s') ensures Given(s', k) {
      assert Given(s, k);
      var r: nat :| HasOrder(s, k, r);
      assert InUse(s', r) == InUse(s, r);
      assert HasOrder(s', k, r);
    }
  }

  /** The least order goes out of use. */
  lemma OrdersPopped(s: State, s': State, r: nat)
    requires Orders(s) && HasOrder(s, s.outCount, r)
    requires s'.outCount == s.outCount + 1 && Next(s') == Next(s) && s'.cells == s.cells
    requires forall q: nat {:trigger InUse(s', q)} :: InUse(s', q) == if q == r then InUse(s, q) - 1 else InUse(s, q)
    ensures s.outCount < Next(s) && Orders(s') && InUse(s', r) == 0
  {
    assert OrderOk(s, r);
    forall q: nat | InUse(s', q) > 0 ensures OrderOk(s', q) {
      assert OrderOk(s, q) && q != r;
      assert HasOrder(s, s.outCount, q) ==> q == r;
    }
    forall k: nat, q: nat, t: nat | HasOrder(s', k, q) && HasOrder(s', k, t) ensures q == t {
      assert HasOrder(s, k, q) && HasOrder(s, k, t);
    }
    forall k: nat | s'.outCount <= k < Next(s') ensures Given(s', k) {
      assert Given(s, k);
      var q: nat :| HasOrder(s, k, q);
      assert InUse(s', q) == InUse(s, q);
      assert HasOrder(s', k, q);
    }
  }

  /** A free reference comes into use with the next order. */
  lemma OrdersFilled(s: State, s': State, r: nat)
    requires Orders(s) && s.outCount <= Next(s) && InUse(s, r) == 0
    requires s'.outCount == s.outCount && Next(s') == Next(s) + 1 && |s.cells| <= |s'.cells|
    requires r < |s'.cells| && s'.cells[r].order == Next(s)
    requires forall q: nat :: q < |s.cells| && q != r ==> s'.cells[q].order == s.cells[q].order
    requires forall q: nat {:trigger InUse(s', q)} :: InUse(s', q) == if q == r then 1 else InUse(s, q)
    ensures Orders(s')
  {
    forall q: nat | InUse(s', q) > 0 ensures OrderOk(s', q) {
      assert q == r || OrderOk(s, q);
    }
    forall k: nat, q: nat, t: nat | HasOrder(s', k, q) && HasOrder(s', k, t) ensures q == t {
      assert q == r || (OrderOk(s, q) && HasOrder(s, k, q));
      assert t == r || (OrderOk(s, t) && HasOrder(s, k, t));
    }
    forall k: nat | s'.outCount <= k < Next(s') ensures Given(s', k) {
      assert InUse(s', r) == 1;
      assert k == Next(s) ==> HasOrder(s', k, r);
      if k < Next(s) {
        assert Given(s, k);
        var q: nat :| HasOrder(s, k, q);
        assert InUse(s', q) == InUse(s, q);
        assert HasOrder(s', k, q);
      }
    }
  }

  // What the words in use contain.

  ghost predicate Raw(p: Setup, cells: seq<CompressionWord>, r: nat) {
    && r < |cells| && cells[r].order < |p.words| && !Bypasses(p.words[cells[r].order])
    && cells[r].word == p.words[cells[r].order].bytes
  }

  ghost predicate Formed(p: Setup, cells: seq<CompressionWord>, r: nat) {
    r < |cells| && cells[r].order < |p.words| && cells[r].word == Form(p, p.words[cells[r].order])
  }

  ghost predicate WorkerOk(p: Setup, cells: seq<CompressionWord>, w: Worker) {
    && (w.Took? ==> Raw(p, cells, w.ref))
    && (w.Ready? ==> Formed(p, cells, w.ref) && w.wordLen == |p.words[cells[w.ref].order].bytes|)
  }

  ghost predicate Contents(p: Setup, s: State) {
    && (forall i: nat {:trigger Raw(p, s.cells, s.ch[i])} :: i < |s.ch| ==> Raw(p, s.cells, s.ch[i]))
    && (forall i: nat {:trigger Formed(p, s.cells, s.out[i])} :: i < |s.out| ==> Formed(p, s.cells, s.out[i]))
    && (forall r: nat {:trigger Formed(p, s.cells, r)} :: s.queue[r] > 0 ==> Formed(p, s.cells, r))
    && (forall i: nat {:trigger WorkerOk(p, s.cells, s.workers[i])} :: i < |s.workers| ==>
        WorkerOk(p, s.cells, s.workers[i]))
    && (s.reader.Sending? ==> Raw(p, s.cells, s.reader.ref) && s.cells[s.reader.ref].order == s.inCount)
  }

  // How often a mark m is counted, and how often it is still to be counted.

  function LengthMark(n: nat, m: Mark): nat {
    (if m == Position(n + 1) then 1 else 0) + if m == Position(0) then 1 else 0
  }

  lemma LengthMarksAre(n: nat, m: Mark)
    ensures LengthMarks(n)[m] == LengthMark(n, m)
  {
  }

  function MarkOf(p: Setup, w: Word, m: Mark): nat {
    LengthMark(|w.bytes|, m) + if Bypasses(w) then 0 else p.marks(w.bytes)[m]
  }

  function MarksTo(p: Setup, n: nat, m: Mark): nat
    requires n <= |p.words|
  {
    if n == 0 then 0 else MarksTo(p, n - 1, m) + MarkOf(p, p.words[n - 1], m)
  }

  lemma {:induction false} AllMarksAre(p: Setup, n: nat, m: Mark)
    requires n <= |p.words|
    ensures AllMarks(p, n)[m] == MarksTo(p, n, m)
  {
    if n > 0 {
      AllMarksAre(p, n - 1, m);
      LengthMarksAre(|p.words[n - 1].bytes|, m);
    }
  }

  function MarkAt(p: Setup, cells: seq<CompressionWord>, r: nat, m: Mark): nat {
    if r < |cells| && cells[r].order < |p.words| then MarkOf(p, p.words[cells[r].order], m) else 0
  }

  /** For the words in ch. */
  function InLine(p: Setup, cells: seq<CompressionWord>, ch: seq<nat>, m: Mark): (c: seq<nat>)
    ensures |c| == |ch| && forall i :: 0 <= i < |ch| ==> c[i] == MarkAt(p, cells, ch[i], m)
  {
    seq(|ch|, i requires 0 <= i < |ch| => MarkAt(p, cells, ch[i], m))
  }

  function Owed(p: Setup, cells: seq<CompressionWord>, w: Worker, m: Mark): nat {
    if w.Took? then MarkAt(p, cells, w.ref, m) else if w.Ready? || w.Sent? then LengthMark(w.wordLen, m) else 0
  }

  /** For the words that the workers took. */
  function Owing(p: Setup, cells: seq<CompressionWord>, ws: seq<Worker>, m: Mark): (c: seq<nat>)
    ensures |c| == |ws| && forall i :: 0 <= i < |ws| ==> c[i] == Owed(p, cells, ws[i], m)
  {
    seq(|ws|, i requires 0 <= i < |ws| => Owed(p, cells, ws[i], m))
  }

  function Counted(bags: seq<multiset<Mark>>, m: Mark): (c: seq<nat>)
    ensures |c| == |bags| && forall i :: 0 <= i < |bags| ==> c[i] == bags[i][m]
  {
    seq(|bags|, i requires 0 <= i < |bags| => bags[i][m])
  }

  /** Nothing is counted twice or lost: what is counted and what is still owed are the marks of the words read so
      far. */
  ghost predicate Conserved(p: Setup, s: State, m: Mark) {
    && s.inCount <= |p.words|
    && Total(Counted(s.bags, m)) + Total(InLine(p, s.cells, s.ch, m)) + Total(Owing(p, s.cells, s.workers, m)) ==
        MarksTo(p, s.inCount, m)
  }

  ghost predicate AllConserved(p: Setup, s: State) { forall m: Mark :: Conserved(p, s, m) }

  // The control state.

  ghost predicate Control(p: Setup, s: State) { Steered(p, s) && s.file == Forms(p, s.outCount) }

  /** Where the reader is agrees with the counters and the channels. */
  ghost predicate Steered(p: Setup, s: State) {
    && |s.workers| == p.workers && p.workers > 1 && |s.bags| == |s.workers| + 1 && !s.panicked
    && s.outCount <= s.inCount <= |p.words|
    && (s.chClosed <==> s.reader.Flushing? || s.reader.Ranging? || s.reader.Ended?)
    && (s.chClosed ==> s.inCount == |p.words|)
    && (s.reader.Draining? || s.reader.Waiting? || s.reader.Placing? || s.reader.Sending? ==> s.inCount < |p.words|)
    && (s.outClosed ==> s.chClosed && s.outCount == s.inCount)
    && ((s.reader.Flushing? || s.reader.Ranging?) && s.outCount == s.inCount ==> s.outClosed)
    && (s.reader.Ended? ==> s.outCount == s.inCount)
    && forall i :: 0 <= i < |s.workers| && s.workers[i].Exited? ==> s.chClosed && s.ch == []
  }

  /** While the reader ranges over out, the word it waits for is not in the queue. */
  ghost predicate Waits(s: State) { s.reader.Ranging? ==> forall r: nat :: !NextOnTop(s, r) }

  /** Between its drain and its send the reader sees at most a full ch and one word per worker. */
  ghost predicate Flow(s: State) {
    && |s.ch| <= CH_SIZE && |s.out| <= OUT_SIZE
    && (s.reader.Waiting? || s.reader.Placing? || s.reader.Sending? ==>
          |s.ch| + Total(Busy(s.workers)) + |s.out| <= CH_SIZE + |s.workers|)
  }

  ghost predicate Inv(p: Setup, s: State) {
    Control(p, s) && Waits(s) && Flow(s) && Contents(p, s) && AllConserved(p, s) && Orders(s)
  }
}
