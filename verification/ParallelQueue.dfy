/** The reader, the workers, the two channels and the order queue of reducedict, as one state machine. */
module ParallelQueue {
  import opened Uvarint
  import opened Tally

  /** The input words, what optimiseCluster writes and counts for a word, and the number of workers. */
  datatype Setup = Setup(words: seq<Word>, cover: Bytes -> Bytes, marks: Bytes -> multiset<Mark>, workers: nat)

  const CH_SIZE := 10_000
  const OUT_SIZE := 1024
  const QUEUE_LIMIT := 128 * 1024

  /** An allocated word. It is changed in place and passed on by reference: a reference is an index into State.cells. */
  datatype CompressionWord = CompressionWord(word: Bytes, order: nat)

  /** Where reduceDictWorker is: before its receive, before the call, before its send, before its counting, behind
      the loop. */
  datatype Worker = Idle | Took(ref: nat) | Ready(ref: nat, wordLen: nat) | Sent(wordLen: nat) | Exited

  /** Where reducedict is; the first five are in the callback given to ForEach. */
  datatype Reader = Fetching | Draining | Waiting | Placing | Sending(ref: nat) | Flushing | Ranging | Ended

  datatype State = State(
    cells: seq<CompressionWord>,
    ch: seq<nat>, chClosed: bool,
    out: seq<nat>, outClosed: bool,
    queue: multiset<nat>,
    workers: seq<Worker>,
    bags: seq<multiset<Mark>>,
    reader: Reader,
    inCount: nat, outCount: nat,
    file: Bytes,
    panicked: bool)

  datatype Step =
    | Fetch | Receive | StopDraining | Await | StopWaiting | Reuse(ref: nat) | Allocate | Deliver
    | Flush(ref: nat) | StopFlushing | RangeNext | RangeEnd
    | Take(w: nat) | Compress(w: nat) | Send(w: nat) | Tally(w: nat) | Exit(w: nat)

  function Start(p: Setup): State {
    State([], [], false, [], false, multiset{}, seq(p.workers, _ => Idle), seq(p.workers + 1, _ => multiset{}),
        Fetching, 0, 0, [], false)
  }

  predicate Finished(s: State) { s.reader.Ended? && forall i :: 0 <= i < |s.workers| ==> s.workers[i].Exited? }

  /** r is on top of the order heap. */
  ghost predicate Top(s: State, r: nat) {
    r in s.queue && r < |s.cells| && forall q :: q in s.queue && q < |s.cells| ==> s.cells[r].order <= s.cells[q].order
  }

  ghost predicate NextOnTop(s: State, r: nat) { Top(s, r) && s.cells[r].order == s.outCount }

  /** The condition of the loop that waits for room in the queue. */
  ghost predicate MustWait(s: State) {
    |s.queue| >= QUEUE_LIMIT && exists r: nat :: Top(s, r) && s.cells[r].order < s.outCount
  }

  ghost predicate Enabled(p: Setup, s: State, step: Step) {
    && !s.panicked && |s.bags| == |s.workers| + 1
    && match step
       case Fetch => s.reader.Fetching?
       case Receive => s.reader.Draining? && s.out != []
       case StopDraining => s.reader.Draining? && s.out == []
       case Await => s.reader.Waiting? && MustWait(s) && s.out != []
       case StopWaiting => s.reader.Waiting? && !MustWait(s)
       case Reuse(r) => s.reader.Placing? && s.inCount < |p.words| && NextOnTop(s, r)
       case Allocate => s.reader.Placing? && s.inCount < |p.words| && forall r: nat :: !NextOnTop(s, r)
       case Deliver => s.reader.Sending? && |s.ch| < CH_SIZE
       case Flush(r) => s.reader.Flushing? && NextOnTop(s, r)
       case StopFlushing => s.reader.Flushing? && forall r: nat :: !NextOnTop(s, r)
       case RangeNext => s.reader.Ranging? && s.out != []
       case RangeEnd => s.reader.Ranging? && s.out == [] && s.outClosed
       case Take(i) => i < |s.workers| && s.workers[i].Idle? && s.ch != []
       case Compress(i) => i < |s.workers| && s.workers[i].Took? && s.workers[i].ref < |s.cells|
       case Send(i) => i < |s.workers| && s.workers[i].Ready? && (s.outClosed || |s.out| < OUT_SIZE)
       case Tally(i) => i < |s.workers| && s.workers[i].Sent?
       case Exit(i) => i < |s.workers| && s.workers[i].Idle? && s.ch == [] && s.chClosed
  }

  /** The next word is asked for; behind the last one ch is closed and the draining starts, if there is something to
      drain. */
  ghost function Fetched(p: Setup, s: State): State {
    if s.inCount < |p.words| then s.(reader := Draining)
    else s.(chClosed := true, reader := if s.inCount > s.outCount then Flushing else Ended)
  }

  /** One processed word goes from out to the queue. */
  ghost function Queued(s: State, reader: Reader): State
    requires s.out != []
  {
    s.(queue := s.queue + multiset{s.out[0]}, out := s.out[1..], reader := reader)
  }

  /** The word r is popped and written. */
  ghost function Popped(s: State, r: nat): State
    requires r < |s.cells|
  {
    s.(queue := s.queue - multiset{r}, outCount := s.outCount + 1, file := s.file + s.cells[r].word)
  }

  /** The word r is filled with the next input word, and queued at once or kept for sending. */
  ghost function Filled(p: Setup, s: State, r: nat): State
    requires s.inCount < |p.words| && r < |s.cells| && |s.bags| > 0
  {
    var w := p.words[s.inCount];
    if Bypasses(w) then
      s.(cells := s.cells[r := CompressionWord(Plain(w.bytes), s.inCount)],
         queue := s.queue + multiset{r}, bags := s.bags[0 := s.bags[0] + LengthMarks(|w.bytes|)],
         inCount := s.inCount + 1, reader := Fetching)
    else
      s.(cells := s.cells[r := CompressionWord(w.bytes, s.inCount)], reader := Sending(r))
  }

  ghost function Delivered(s: State): State
    requires s.reader.Sending?
  {
    s.(ch := s.ch + [s.reader.ref], inCount := s.inCount + 1, reader := Fetching)
  }

  ghost function Allocated(s: State): State { s.(cells := s.cells + [CompressionWord([], 0)]) }

  /** A word of the last part: out is closed with the last one; closing it twice would panic. */
  ghost function Flushed(s: State, r: nat): State
    requires r < |s.cells|
  {
    var last := s.outCount + 1 == s.inCount;
    Popped(s, r).(outClosed := s.outClosed || last, panicked := s.outClosed && last)
  }

  ghost function Taken(s: State, i: nat): State
    requires i < |s.workers| && s.ch != []
  {
    s.(ch := s.ch[1..], workers := s.workers[i := Took(s.ch[0])])
  }

  ghost function Compressed(p: Setup, s: State, i: nat): State
    requires i < |s.workers| && s.workers[i].Took? && s.workers[i].ref < |s.cells| && |s.bags| == |s.workers| + 1
  {
    var r := s.workers[i].ref;
    var w := s.cells[r].word;
    s.(cells := s.cells[r := s.cells[r].(word := PutUvarint(|w|) + p.cover(w))],
       bags := s.bags[i + 1 := s.bags[i + 1] + p.marks(w)], workers := s.workers[i := Ready(r, |w|)])
  }

  /** Sending on a closed channel panics. */
  ghost function Handed(s: State, i: nat): State
    requires i < |s.workers| && s.workers[i].Ready?
  {
    s.(out := s.out + [s.workers[i].ref], workers := s.workers[i := Sent(s.workers[i].wordLen)],
        panicked := s.outClosed)
  }

  ghost function Tallied(s: State, i: nat): State
    requires i < |s.workers| && s.workers[i].Sent? && |s.bags| == |s.workers| + 1
  {
    s.(bags := s.bags[i + 1 := s.bags[i + 1] + LengthMarks(s.workers[i].wordLen)], workers := s.workers[i := Idle])
  }

  ghost function Apply(p: Setup, s: State, step: Step): State
    requires Enabled(p, s, step)
  {
    match step
    case Fetch => Fetched(p, s)
    case Receive => Queued(s, Draining)
    case StopDraining => s.(reader := Waiting)
    case Await => Queued(s, Waiting)
    case StopWaiting => s.(reader := Placing)
    case Reuse(r) => Filled(p, Popped(s, r), r)
    case Allocate => Filled(p, Allocated(s), |s.cells|)
    case Deliver => Delivered(s)
    case Flush(r) => Flushed(s, r)
    case StopFlushing => s.(reader := Ranging)
    case RangeNext => Queued(s, Flushing)
    case RangeEnd => s.(reader := Ended)
    case Take(i) => Taken(s, i)
    case Compress(i) => Compressed(p, s, i)
    case Send(i) => Handed(s, i)
    case Tally(i) => Tallied(s, i)
    case Exit(i) => s.(workers := s.workers[i := Exited])
  }

  ghost predicate StepAt(p: Setup, steps: seq<Step>, states: seq<State>, i: nat)
    requires i < |steps| && |states| == |steps| + 1
  {
    Enabled(p, states[i], steps[i]) && states[i + 1] == Apply(p, states[i], steps[i])
  }

  /** One interleaving of the reader and the workers, from the start. */
  ghost predicate Run(p: Setup, steps: seq<Step>, states: seq<State>) {
    && p.workers > 1 && |states| == |steps| + 1 && states[0] == Start(p)
    && forall i: nat :: i < |steps| ==> StepAt(p, steps, states, i)
  }

  /** What the intermediate file holds for a word, and what the word adds to the counters, whoever handles it. */
  function Form(p: Setup, w: Word): Bytes {
    if Bypasses(w) then Plain(w.bytes) else PutUvarint(|w.bytes|) + p.cover(w.bytes)
  }

  function Marks(p: Setup, w: Word): multiset<Mark> {
    LengthMarks(|w.bytes|) + if Bypasses(w) then multiset{} else p.marks(w.bytes)
  }

  /** The forms of the first n words, in input order. */
  function Forms(p: Setup, n: nat): Bytes
    requires n <= |p.words|
  {
    if n == 0 then [] else Forms(p, n - 1) + Form(p, p.words[n - 1])
  }

  function AllMarks(p: Setup, n: nat): multiset<Mark>
    requires n <= |p.words|
  {
    if n == 0 then multiset{} else AllMarks(p, n - 1) + Marks(p, p.words[n - 1])
  }

  /** One word of the loop without workers: its length, and unless it is empty its cover or the word itself. */
  method WriteWord(p: Setup, w: Word, file: Bytes, bag: multiset<Mark>) returns (file': Bytes, bag': multiset<Mark>)
    ensures file' == file + Form(p, w) && bag' == bag + Marks(p, w)
  {
    var v := w.bytes;
    file', bag' := file + PutUvarint(|v|), bag;
    if |v| > 0 {
      if w.compress {
        file', bag' := file' + p.cover(v), bag' + p.marks(v);
      } else {
        file' := file' + [0];
        file' := file' + v;
      }
    }
    ghost var more := if Bypasses(w) then multiset{} else p.marks(v);
    Together(bag, more, LengthMarks(|v|));
    bag' := bag' + LengthMarks(|v|);
  }

  lemma Together<T>(a: multiset<T>, x: multiset<T>, y: multiset<T>)
    ensures (a + x) + y == a + (y + x)
  {
  }

  /** With one worker there are no channels: the reader handles every word itself. */
  method Sequential(p: Setup) returns (file: Bytes, bag: multiset<Mark>)
    ensures file == Forms(p, |p.words|) && bag == AllMarks(p, |p.words|)
  {
    file, bag := [], multiset{};
    for k := 0 to |p.words|
      invariant file == Forms(p, k) && bag == AllMarks(p, k)
    {
      file, bag := WriteWord(p, p.words[k], file, bag);
    }
  }
}
