/**
 * Every interleaving of reducedict's reader and workers ends, writes the same file and counts the same
 * marks as the loop without workers, never sends on or closes a closed channel, and never gets stuck.
 */
module ParallelRun {
  import opened Tally
  import opened ParallelQueue
  import opened ParallelOrder
  import opened ParallelSteps
  import opened ParallelReader
  import opened Sums

  /** The invariant holds in every state of every run. */
  lemma {:induction false} Always(p: Setup, steps: seq<Step>, states: seq<State>, i: nat)
    requires Run(p, steps, states) && i <= |steps|
    ensures Inv(p, states[i])
  {
    if i == 0 {
      Starts(p);
    } else {
      Always(p, steps, states, i - 1);
      assert StepAt(p, steps, states, i - 1);
      Keeps(p, states[i - 1], steps[i - 1]);
    }
  }

  /**
   * In every state: no closed channel was used, the file holds the words before outCount in input order, and once
   * out is closed no word is in a channel, in the queue or at a worker.
   */
  lemma Safe(p: Setup, steps: seq<Step>, states: seq<State>, i: nat)
    requires Run(p, steps, states) && i <= |steps|
    ensures var s := states[i];
            !s.panicked && s.outCount <= s.inCount <= |p.words| && s.file == Forms(p, s.outCount)
    ensures var s := states[i]; s.outClosed ==>
              s.file == Forms(p, |p.words|) && s.ch == [] && s.out == [] && s.queue == multiset{}
              && forall j :: 0 <= j < |s.workers| ==> !Holds(s.workers[j])
  {
    Always(p, steps, states, i);
    if states[i].outClosed {
      NothingLeft(p, states[i]);
    }
  }

  lemma NothingLeft(p: Setup, s: State)
    requires Inv(p, s) && s.outCount == s.inCount && !s.reader.Sending?
    ensures s.ch == [] && s.out == [] && s.queue == multiset{}
    ensures forall j :: 0 <= j < |s.workers| ==> !Holds(s.workers[j])
  {
    forall r: nat ensures InUse(s, r) == 0 {
      assert !OrderOk(s, r);
    }
    forall r: nat ensures multiset(s.ch)[r] == 0 && multiset(s.out)[r] == 0 && s.queue[r] == 0 {
      Free(s, r);
    }
    assert multiset(s.ch) == multiset{} && |multiset(s.ch)| == |s.ch|;
    assert multiset(s.out) == multiset{} && |multiset(s.out)| == |s.out|;
    forall j | 0 <= j < |s.workers| ensures !Holds(s.workers[j]) {
      if Holds(s.workers[j]) {
        Free(s, s.workers[j].ref);
      }
    }
  }

  lemma {:induction false} MergedCount(bags: seq<multiset<Mark>>, n: nat, m: Mark)
    requires n <= |bags|
    ensures Merged(bags, n)[m] == Sum(Counted(bags, m), n)
  {
    if n > 0 {
      MergedCount(bags, n - 1, m);
    }
  }

  /** Reader and workers have ended: the file and the merged counters are those of the loop without workers. */
  lemma Outcome(p: Setup, s: State)
    requires Inv(p, s) && Finished(s)
    ensures s.file == Forms(p, |p.words|) && Merged(s.bags, |s.bags|) == AllMarks(p, |p.words|)
  {
    NothingLeft(p, s);
    forall m: Mark ensures Merged(s.bags, |s.bags|)[m] == AllMarks(p, |p.words|)[m] {
      MergedCount(s.bags, |s.bags|, m);
      assert Conserved(p, s, m);
      TotalZero(InLine(p, s.cells, s.ch, m));
      TotalZero(Owing(p, s.cells, s.workers, m));
      AllMarksAre(p, |p.words|, m);
    }
  }

  // No state but the last is stuck.

  /** A worker can go on unless it waits for ch, is blocked on out, or has ended. */
  lemma WorkerGoesOn(p: Setup, s: State, i: nat) returns (step: Step)
    requires Inv(p, s) && i < |s.workers| && !s.workers[i].Exited?
    requires s.workers[i].Idle? ==> s.ch != [] || s.chClosed
    requires s.workers[i].Ready? ==> |s.out| < OUT_SIZE
    ensures Enabled(p, s, step)
  {
    assert WorkerOk(p, s.cells, s.workers[i]);
    step := match s.workers[i]
      case Idle => if s.ch != [] then Take(i) else Exit(i)
      case Took(_) => Compress(i)
      case Ready(_, _) => Send(i)
      case Sent(_) => Tally(i)
      case Exited => Exit(i);
  }

  /** The queue's loop condition is never met: no word in use has an order below outCount. */
  lemma NeverWaits(p: Setup, s: State)
    requires Inv(p, s)
    ensures !MustWait(s)
  {
    forall r: nat | Top(s, r) ensures s.cells[r].order >= s.outCount {
      assert InUse(s, r) > 0 && OrderOk(s, r);
    }
  }

  /** When the reader blocks on a full ch, some worker can go on. */
  lemma SendingGoesOn(p: Setup, s: State) returns (step: Step)
    requires Inv(p, s) && s.reader.Sending?
    ensures Enabled(p, s, step)
  {
    if |s.ch| < CH_SIZE {
      step := Deliver;
    } else if i: nat :| i < |s.workers| && !s.workers[i].Ready? {
      step := WorkerGoesOn(p, s, i);
    } else {
      TotalOnes(Busy(s.workers));
      step := WorkerGoesOn(p, s, 0);
    }
  }

  /** The word that the ranging reader waits for is in ch or at a worker. */
  lemma Awaited(p: Setup, s: State) returns (i: nat)
    requires Inv(p, s) && s.reader.Ranging? && s.out == [] && !s.outClosed
    ensures i < |s.workers| && (s.ch != [] || Holds(s.workers[i]))
  {
    assert Given(s, s.outCount);
    var r: nat :| HasOrder(s, s.outCount, r);
    if s.queue[r] > 0 {
      forall q: nat | q in s.queue && q < |s.cells| ensures s.cells[r].order <= s.cells[q].order {
        assert InUse(s, q) > 0 && OrderOk(s, q);
      }
      assert NextOnTop(s, r);
      assert false;
    }
    i := 0;
    if s.ch == [] {
      i := FindPart(Holding(s.workers, r), |s.workers|);
    }
  }

  lemma RangingGoesOn(p: Setup, s: State) returns (step: Step)
    requires Inv(p, s) && s.reader.Ranging?
    ensures Enabled(p, s, step)
  {
    if s.out != [] {
      step := RangeNext;
    } else if s.outClosed {
      step := RangeEnd;
    } else {
      var i := Awaited(p, s);
      step := WorkerGoesOn(p, s, i);
    }
  }

  /** Some step can be taken in every state that is not the end: there is no deadlock. */
  lemma Progress(p: Setup, s: State) returns (step: Step)
    requires Inv(p, s) && !Finished(s)
    ensures Enabled(p, s, step)
  {
    match s.reader
    case Fetching => step := Fetch;
    case Draining => step := if s.out != [] then Receive else StopDraining;
    case Waiting =>
      NeverWaits(p, s);
      step := StopWaiting;
    case Placing =>
      if r: nat :| NextOnTop(s, r) {
        step := Reuse(r);
      } else {
        step := Allocate;
      }
    case Sending(_) => step := SendingGoesOn(p, s);
    case Flushing =>
      if r: nat :| NextOnTop(s, r) {
        step := Flush(r);
      } else {
        step := StopFlushing;
      }
    case Ranging => step := RangingGoesOn(p, s);
    case Ended =>
      NothingLeft(p, s);
      var i: nat :| i < |s.workers| && !s.workers[i].Exited?;
      step := WorkerGoesOn(p, s, i);
  }

  // Every run ends.

  function WorkerWork(w: Worker): nat {
    match w
    case Idle => 1
    case Took(_) => 8
    case Ready(_, _) => 7
    case Sent(_) => 2
    case Exited => 0
  }

  function WorkerWorks(ws: seq<Worker>): (c: seq<nat>)
    ensures |c| == |ws| && forall i :: 0 <= i < |ws| ==> c[i] == WorkerWork(ws[i])
  {
    seq(|ws|, i requires 0 <= i < |ws| => WorkerWork(ws[i]))
  }

  function ReaderWork(reader: Reader): nat {
    match reader
    case Fetching => 6
    case Draining => 5
    case Waiting => 4
    case Placing => 3
    case Sending(_) => 2
    case Flushing => 2
    case Ranging => 1
    case Ended => 0
  }

  /** A bound on the steps that are left. */
  function Work(p: Setup, s: State): nat
    requires s.inCount <= |p.words|
  {
    20 * (|p.words| - s.inCount) + 8 * |s.ch| + 3 * |s.out| + |s.queue| + Total(WorkerWorks(s.workers)) +
        ReaderWork(s.reader)
  }

  lemma WorksSet(ws: seq<Worker>, i: nat, w: Worker)
    requires i < |ws|
    ensures Total(WorkerWorks(ws[i := w])) + WorkerWork(ws[i]) == Total(WorkerWorks(ws)) + WorkerWork(w)
  {
    TotalSet(WorkerWorks(ws), WorkerWorks(ws[i := w]), i);
  }

  lemma WorkerWorkLess(p: Setup, s: State, step: Step)
    requires s.inCount <= |p.words| && Enabled(p, s, step)
    requires step.Take? || step.Compress? || step.Send? || step.Tally? || step.Exit?
    ensures Apply(p, s, step).inCount == s.inCount && Work(p, Apply(p, s, step)) < Work(p, s)
  {
    WorksSet(s.workers, step.w, Apply(p, s, step).workers[step.w]);
  }

  /** Filling a word costs less than it had before it was read. */
  lemma FilledWorkLess(p: Setup, s: State, r: nat)
    requires s.inCount < |p.words| && r < |s.cells| && |s.bags| > 0 && s.reader.Placing?
    ensures Filled(p, s, r).inCount <= |p.words| && Work(p, Filled(p, s, r)) < Work(p, s)
  {
    assert |s.queue + multiset{r}| == |s.queue| + 1;
  }

  lemma ReuseWorkLess(p: Setup, s: State, r: nat)
    requires s.inCount < |p.words| && r < |s.cells| && r in s.queue && |s.bags| > 0 && s.reader.Placing?
    ensures var s' := Filled(p, Popped(s, r), r); s'.inCount <= |p.words| && Work(p, s') < Work(p, s)
  {
    assert |s.queue - multiset{r}| == |s.queue| - 1;
    FilledWorkLess(p, Popped(s, r), r);
  }

  lemma AllocateWorkLess(p: Setup, s: State)
    requires s.inCount < |p.words| && |s.bags| > 0 && s.reader.Placing?
    ensures var s' := Filled(p, Allocated(s), |s.cells|); s'.inCount <= |p.words| && Work(p, s') < Work(p, s)
  {
    FilledWorkLess(p, Allocated(s), |s.cells|);
  }

  lemma FlushWorkLess(p: Setup, s: State, r: nat)
    requires s.inCount <= |p.words| && r in s.queue && r < |s.cells|
    ensures Work(p, Flushed(s, r)) < Work(p, s)
  {
    assert |s.queue - multiset{r}| == |s.queue| - 1;
  }

  lemma QueuedWorkLess(p: Setup, s: State, reader: Reader)
    requires s.inCount <= |p.words| && s.out != [] && ReaderWork(reader) <= ReaderWork(s.reader) + 1
    ensures Work(p, Queued(s, reader)) < Work(p, s)
  {
    assert |s.queue + multiset{s.out[0]}| == |s.queue| + 1;
  }

  lemma MoveWorkLess(p: Setup, s: State, step: Step)
    requires Inv(p, s) && Enabled(p, s, step)
    requires
      || step.Fetch? || step.StopDraining? || step.StopWaiting?
      || step.Deliver? || step.StopFlushing? || step.RangeEnd?
    ensures Apply(p, s, step).inCount <= |p.words| && Work(p, Apply(p, s, step)) < Work(p, s)
  {
  }

  /** Every step leaves less work. */
  lemma WorkLess(p: Setup, s: State, step: Step)
    requires Inv(p, s) && Enabled(p, s, step)
    ensures Apply(p, s, step).inCount <= |p.words| && Work(p, Apply(p, s, step)) < Work(p, s)
  {
    match step
    case Receive => QueuedWorkLess(p, s, Draining);
    case Await => QueuedWorkLess(p, s, Waiting);
    case RangeNext => QueuedWorkLess(p, s, Flushing);
    case Reuse(r) => ReuseWorkLess(p, s, r);
    case Allocate => AllocateWorkLess(p, s);
    case Flush(r) => FlushWorkLess(p, s, r);
    case Fetch => MoveWorkLess(p, s, step);
    case StopDraining => MoveWorkLess(p, s, step);
    case StopWaiting => MoveWorkLess(p, s, step);
    case Deliver => MoveWorkLess(p, s, step);
    case StopFlushing => MoveWorkLess(p, s, step);
    case RangeEnd => MoveWorkLess(p, s, step);
    case _ => WorkerWorkLess(p, s, step);
  }

  lemma StepWork(p: Setup, steps: seq<Step>, states: seq<State>, i: nat)
    requires Run(p, steps, states) && i < |steps| && states[i].inCount <= |p.words|
    ensures states[i + 1].inCount <= |p.words| && Work(p, states[i + 1]) < Work(p, states[i])
  {
    Always(p, steps, states, i);
    assert StepAt(p, steps, states, i);
    WorkLess(p, states[i], steps[i]);
  }

  lemma {:induction false} WorkLeft(p: Setup, steps: seq<Step>, states: seq<State>, i: nat)
    requires Run(p, steps, states) && i <= |steps|
    ensures states[i].inCount <= |p.words| && i + Work(p, states[i]) <= Work(p, Start(p))
  {
    if i > 0 {
      WorkLeft(p, steps, states, i - 1);
      StepWork(p, steps, states, i - 1);
    }
  }

  lemma {:induction false} IdleWork(ws: seq<Worker>, n: nat)
    requires n <= |ws| && forall i :: 0 <= i < |ws| ==> ws[i].Idle?
    ensures Sum(WorkerWorks(ws), n) == n
  {
    if n > 0 {
      IdleWork(ws, n - 1);
    }
  }

  /** A run has no more steps than this, however it is scheduled. */
  lemma Bounded(p: Setup, steps: seq<Step>, states: seq<State>)
    requires Run(p, steps, states)
    ensures |steps| <= 20 * |p.words| + p.workers + 6
  {
    WorkLeft(p, steps, states, |steps|);
    IdleWork(Start(p).workers, p.workers);
  }

  /** A run that cannot be continued is complete, and it did what the loop without workers does. */
  lemma Parallel(p: Setup, steps: seq<Step>, states: seq<State>)
    requires Run(p, steps, states) && forall step: Step :: !Enabled(p, states[|steps|], step)
    ensures var s := states[|steps|];
            Finished(s) && !s.panicked && s.file == Forms(p, |p.words|) &&
                Merged(s.bags, |s.bags|) == AllMarks(p, |p.words|)
  {
    var s := states[|steps|];
    Always(p, steps, states, |steps|);
    if !Finished(s) {
      var step := Progress(p, s);
      assert false;
    }
    Outcome(p, s);
  }
}
