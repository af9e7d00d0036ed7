/** The branch data of one prefix in the aggregator: the summary table, the change files and the state files. Records
    overlap, are merged when they are aggregated and when files are merged, and are dropped when they are empty; what
    branchFn returns is always the row that the updates have built so far. */
module CommitmentStore {
  import opened Options
  import opened BranchBytes
  import opened BranchMerge

  // ---- from row to row

  function NoRow(): (r: Row)
    ensures forall n :: 0 <= n < 16 ==> r[n] == []
  {
    seq(16, _ => [])
  }

  /** The update takes one row to another, and says of every child that it keeps or sets that it is present. */
  ghost predicate Leads(u: Update, before: Row, after: Row) {
    UpdateOk(u) && Apply(u, before) == after && forall n :: 0 <= n < 16 && u.after[n] ==> after[n] != []
  }

  lemma LeadsOn(u1: Update, u2: Update, b: Row, m: Row, c: Row)
    requires Leads(u1, b, m) && Leads(u2, m, c)
    ensures Compatible(u1, u2) && Leads(Merge(u1, u2), b, c)
  {
    MergeOk(u1, u2);
    MergeComposes(u1, u2, b);
  }

  /** Applied once more an update changes nothing. */
  lemma LeadsAgain(u: Update, b: Row, c: Row)
    requires Leads(u, b, c)
    ensures Leads(u, c, c)
  {
    var r := Apply(u, c);
    forall n | 0 <= n < 16 ensures r[n] == c[n] {
      assert Apply(u, b)[n] == c[n];
    }
  }

  /** What is merged in front does no harm where the update alone would do. */
  lemma LeadsLate(u1: Update, u2: Update, b: Row, m: Row, c: Row, x: Row)
    requires Leads(u1, b, m) && Leads(u2, m, c) && Leads(u2, x, c)
    ensures Leads(Merge(u1, u2), x, c)
  {
    LeadsOn(u1, u2, b, m, c);
    var r := Apply(Merge(u1, u2), x);
    forall n | 0 <= n < 16 ensures r[n] == c[n] {
      assert Apply(u1, b)[n] == m[n] && Apply(u2, m)[n] == c[n] && Apply(u2, x)[n] == c[n];
    }
  }

  /** What is returned for a row: which children are present, and their cells. */
  ghost function RowData(row: Row): Bytes { Rest(Encode(RowUpdate(row))) }

  ghost function RowUpdate(row: Row): (u: Update)
    ensures u.cells == row
  {
    var m := seq(16, n requires 0 <= n < 16 => row[n] != []);
    Update(m, m, row)
  }

  lemma LeadsFromNothing(u: Update, c: Row)
    requires Leads(u, NoRow(), c)
    ensures Complete(u) && Rest(Encode(u)) == RowData(c)
  {
    forall n | 0 <= n < 16 ensures u.cells[n] == c[n] && u.after[n] == (c[n] != []) && (u.after[n] ==> u.touch[n]) {
      assert Apply(u, NoRow())[n] == c[n];
    }
    var v := RowUpdate(c);
    assert u.after == v.after;
    JoinedSame(u.cells, v.cells, 16);
    var a, b := Rest(Encode(u)), Rest(Encode(v));
    forall i | 0 <= i < |a| ensures a[i] == b[i] {
      assert i >= 2 ==> a[i] == Joined(u.cells, 16)[i - 2] && b[i] == Joined(v.cells, 16)[i - 2];
    }
  }

  // ---- records

  /** The bytes are of an update that takes one row to another. */
  ghost predicate Takes(data: Bytes, before: Row, after: Row) {
    Readable(data) && |Decode(data).cells| == 16 && Encode(Decode(data)) == data && Leads(Decode(data), before, after)
  }

  lemma TakesAgain(data: Bytes, b: Row, c: Row)
    requires Takes(data, b, c)
    ensures Takes(data, c, c)
  {
    LeadsAgain(Decode(data), b, c);
  }

  /** mergeCommitments. */
  method MergeCommitments(preval: Bytes, val: Bytes, ghost b: Row, ghost m: Row, ghost c: Row) returns (r: Bytes)
    requires Takes(preval, b, m) && Takes(val, m, c)
    ensures Takes(r, b, c) && forall x: Row :: Takes(preval, x, m) || Takes(val, x, c) ==> Takes(r, x, c)
  {
    ghost var u1, u2 := Decode(preval), Decode(val);
    LeadsOn(u1, u2, b, m, c);
    DecodeEncode(Merge(u1, u2));
    var merged := MergeHexBranches(preval, val);
    r := merged.data;
    forall x: Row | Takes(preval, x, m) || Takes(val, x, c) ensures Takes(r, x, c) {
      if Takes(preval, x, m) {
        LeadsOn(u1, u2, x, m, c);
      } else {
        LeadsLate(u1, u2, b, m, c, x);
      }
    }
  }

  /** A record leads from row to row; without one the row is the same. */
  ghost predicate RecordOk(record: Option<Bytes>, before: Row, after: Row) {
    if record.Some? then Takes(record.value, before, after) else before == after
  }

  /** Bytes 2 and 3 of branch data say which children are present. */
  predicate NoneAfter(val: Bytes) { |val| >= 4 && val[2] == 0 && val[3] == 0 }

  lemma {:induction false} DigitsOfZero(m: nat)
    ensures Digit(0, m) == false
  {
    if m > 0 {
      DigitsOfZero(m - 1);
    }
  }

  /** A record that leaves no child behind ends in the empty row. */
  lemma EndsEmpty(data: Bytes, b: Row, c: Row)
    requires Takes(data, b, c) && NoneAfter(data)
    ensures c == NoRow()
  {
    forall n | 0 <= n < 16 ensures c[n] == [] {
      DigitsOfZero(n);
      assert Apply(Decode(data), b)[n] == c[n];
    }
  }

  // ---- the store

  /** Every change leads from one row to the next, and the table's value from each of them to the last. */
  ghost predicate StepsOk(table: Option<Bytes>, changes: seq<Bytes>, steps: seq<Row>) {
    && |steps| == |changes| + 1 && (forall j :: 0 <= j < |changes| ==> ChangeOk(changes, steps, j))
    && (table.Some? ==> AllTake(table.value, steps, steps[|changes|]))
  }

  /** The record leads from each of the rows to the last. */
  ghost predicate AllTake(data: Bytes, steps: seq<Row>, after: Row) {
    forall k :: 0 <= k < |steps| ==> Takes(data, steps[k], after)
  }

  ghost predicate ChangeOk(changes: seq<Bytes>, steps: seq<Row>, j: nat)
    requires j < |changes| && |steps| == |changes| + 1
  {
    Takes(changes[j], steps[j], steps[j + 1])
  }

  /** Every file leads from the row where the older files end to the next; before all files there is nothing. */
  ghost predicate BoundsOk(files: seq<Option<Bytes>>, bounds: seq<Row>) {
    |bounds| == |files| + 1 && bounds[|files|] == NoRow() && forall j :: 0 <= j < |files| ==> FileOk(files, bounds, j)
  }

  ghost predicate FileOk(files: seq<Option<Bytes>>, bounds: seq<Row>, j: nat)
    requires j < |files| && |bounds| == |files| + 1
  {
    RecordOk(files[j], bounds[j + 1], bounds[j])
  }

  lemma StepsMore(table: Option<Bytes>, changes: seq<Bytes>, steps: seq<Row>, value: Bytes, after: Row)
    requires StepsOk(table, changes, steps) && AllTake(value, steps, after)
    ensures StepsOk(Some(value), changes + [value], steps + [after])
  {
    var ch, st := changes + [value], steps + [after];
    TakesAgain(value, steps[|changes|], after);
    forall j | 0 <= j < |ch| ensures ChangeOk(ch, st, j) {
      assert j < |changes| ==> ChangeOk(changes, steps, j);
      assert j == |changes| ==> Takes(value, steps[j], after);
    }
  }

  lemma StepsLess(table: Option<Bytes>, changes: seq<Bytes>, steps: seq<Row>, n: nat)
    requires StepsOk(table, changes, steps) && n <= |changes|
    ensures StepsOk(table, changes[n..], steps[n..]) && StepsOk(None, changes[n..], steps[n..])
  {
    var ch, st := changes[n..], steps[n..];
    forall j | 0 <= j < |ch| ensures ChangeOk(ch, st, j) {
      assert ChangeOk(changes, steps, n + j);
    }
    if table.Some? {
      forall k | 0 <= k < |st| ensures Takes(table.value, st[k], st[|ch|]) {
        assert Takes(table.value, steps[n + k], steps[|changes|]);
      }
    }
  }

  lemma BoundsMore(files: seq<Option<Bytes>>, bounds: seq<Row>, record: Option<Bytes>, row: Row)
    requires BoundsOk(files, bounds) && RecordOk(record, bounds[0], row)
    ensures BoundsOk([record] + files, [row] + bounds)
  {
    var fi, bo := [record] + files, [row] + bounds;
    forall j | 0 <= j < |fi| ensures FileOk(fi, bo, j) {
      if j > 0 {
        assert FileOk(files, bounds, j - 1) && fi[j] == files[j - 1] && bo[j] == bounds[j - 1] &&
            bo[j + 1] == bounds[j];
      } else {
        assert fi[0] == record && bo[0] == row && bo[1] == bounds[0];
      }
    }
  }

  lemma BoundsMerged(files: seq<Option<Bytes>>, bounds: seq<Row>, from: nat, n: nat, record: Option<Bytes>)
    requires BoundsOk(files, bounds) && n > 0 && from + n <= |files| && RecordOk(record, bounds[from + n], bounds[from])
    ensures BoundsOk(files[..from] + [record] + files[from + n..], bounds[..from + 1] + bounds[from + n..])
  {
    var fi, bo := files[..from] + [record] + files[from + n..], bounds[..from + 1] + bounds[from + n..];
    forall j | 0 <= j < |fi| ensures FileOk(fi, bo, j) {
      assert j < from ==> FileOk(files, bounds, j);
      assert j > from ==> FileOk(files, bounds, j + n - 1);
    }
  }

  ghost predicate StoreOk(count: nat, table: Option<Bytes>, changes: seq<Bytes>, files: seq<Option<Bytes>>,
                          steps: seq<Row>, bounds: seq<Row>) {
    && StepsOk(table, changes, steps) && BoundsOk(files, bounds) && steps[0] == bounds[0]
    && count == |changes| && (table.Some? <==> count > 0)
  }

  lemma AggregateKeeps(count: nat, table: Option<Bytes>, changes: seq<Bytes>, files: seq<Option<Bytes>>,
                       steps: seq<Row>, bounds: seq<Row>,
                       n: nat, record: Option<Bytes>)
    requires StoreOk(count, table, changes, files, steps, bounds) && n <= count && RecordOk(record, steps[0], steps[n])
    ensures StoreOk(count - n, if count == n then None else table, changes[n..], [record] + files, steps[n..],
        [steps[n]] + bounds)
  {
    StepsLess(table, changes, steps, n);
    BoundsMore(files, bounds, record, steps[n]);
  }

  /** readFromFiles: the record of the newest file that has one. */
  method ReadFromFiles(files: seq<Option<Bytes>>, ghost bounds: seq<Row>) returns (r: Option<Bytes>)
    requires BoundsOk(files, bounds)
    ensures r.Some? ==> Takes(r.value, bounds[0], bounds[0])
  {
    var j := 0;
    while j < |files|
      invariant j <= |files| && bounds[j] == bounds[0]
    {
      assert FileOk(files, bounds, j);
      if files[j].Some? {
        TakesAgain(files[j].value, bounds[j + 1], bounds[j]);
        return files[j];
      }
      j := j + 1;
    }
    r := None;
  }

  /** The update behind the original value, from every row from which the original leads to the last. */
  method MergeUpdate(original: Bytes, update: Bytes, ghost steps: seq<Row>, ghost row: Row, ghost after: Row)
      returns (value: Bytes)
    requires steps != [] && AllTake(original, steps, row) && Takes(update, row, after)
    ensures AllTake(value, steps, after)
  {
    value := MergeCommitments(original, update, steps[0], row, after);
  }

  /** Merge the first n changes, in the order in which they were made. */
  method AggregateToBtree(changes: seq<Bytes>, n: nat, ghost table: Option<Bytes>, ghost steps: seq<Row>)
      returns (v: Bytes)
    requires StepsOk(table, changes, steps) && 0 < n <= |changes|
    ensures Takes(v, steps[0], steps[n])
  {
    v := changes[0];
    assert ChangeOk(changes, steps, 0);
    for j := 1 to n
      invariant Takes(v, steps[0], steps[j])
    {
      assert ChangeOk(changes, steps, j);
      v := MergeCommitments(v, changes[j], steps[0], steps[j], steps[j + 1]);
    }
  }

  /** mergeIntoStateFile: the records of the files from the newest to the oldest; one that leaves nothing is not
      needed in the first file. */
  method MergeIntoStateFile(files: seq<Option<Bytes>>, from: nat, n: nat, ghost bounds: seq<Row>)
      returns (r: Option<Bytes>)
    requires BoundsOk(files, bounds) && from + n <= |files|
    ensures RecordOk(r, bounds[from + n], bounds[from])
  {
    r := None;
    for j := from to from + n
      invariant RecordOk(r, bounds[j], bounds[from])
    {
      assert FileOk(files, bounds, j);
      if files[j].Some? {
        if r.Some? {
          var merged := MergeCommitments(files[j].value, r.value, bounds[j + 1], bounds[j], bounds[from]);
          r := Some(merged);
        } else {
          r := files[j];
        }
      }
    }
    if from + n == |files| && r.Some? && NoneAfter(r.value) {
      EndsEmpty(r.value, bounds[from + n], bounds[from]);
      r := None;
    }
  }

  /** The records that branchFn goes through, as updates that fit each other; the last of them starts at the row
      `start`. */
  ghost predicate Listed(records: seq<Bytes>, us: seq<Update>, start: Row, next: Row, current: Row) {
    && RecordsOf(records, us)
    && if us == [] then start == current
       else Leads(us[|us| - 1], start, next) && Leads(MergeAll(us, |us|), start, current)
  }

  lemma ListedFirst(data: Bytes, start: Row, current: Row)
    requires Takes(data, start, current)
    ensures Listed([data], [Decode(data)], start, current, current)
  {
    var us := [Decode(data)];
    assert UpdateOk(us[0]) && IsRecord([data], us, 0);
    assert MergeAll(us, 1) == us[0];
  }

  lemma {:induction false} MergeAllSame(us: seq<Update>, u: Update, n: nat)
    requires Chain(us) && |u.cells| == 16 && 0 < n <= |us|
    ensures MergeAll(us + [u], n) == MergeAll(us, n)
  {
    if n > 1 {
      MergeAllSame(us, u, n - 1);
    }
  }

  lemma ChainSnoc(us: seq<Update>, u: Update)
    requires Chain(us) && UpdateOk(u) && (us != [] ==> Compatible(u, us[|us| - 1]))
    ensures Chain(us + [u])
  {
    var r := us + [u];
    forall i | 0 <= i < |r| ensures UpdateOk(r[i]) {
      if i < |us| {
        assert UpdateOk(us[i]);
      }
    }
    forall i | 0 < i < |r| ensures Fits(r, i) {
      if i < |us| {
        assert Fits(us, i);
      }
    }
  }

  lemma ListedNext(records: seq<Bytes>, us: seq<Update>, start: Row, next: Row, current: Row, data: Bytes, earlier: Row)
    requires Listed(records, us, start, next, current) && us != [] && Takes(data, earlier, start)
    ensures Listed(records + [data], us + [Decode(data)], earlier, start, current)
  {
    var u, r := Decode(data), us + [Decode(data)];
    LeadsOn(u, us[|us| - 1], earlier, start, next);
    ChainSnoc(us, u);
    forall i | 0 <= i < |r| ensures IsRecord(records + [data], r, i) {
      if i < |us| {
        assert IsRecord(records, us, i);
      }
    }
    MergeAllSame(us, u, |us|);
    LeadsOn(u, MergeAll(us, |us|), earlier, start, current);
  }

  /** Nothing is in the table. */
  method FirstValue(update: Bytes, files: seq<Option<Bytes>>, ghost steps: seq<Row>, ghost bounds: seq<Row>,
                    ghost after: Row)
      returns (value: Bytes)
    requires BoundsOk(files, bounds) && steps == [bounds[0]] && Takes(update, bounds[0], after)
    ensures AllTake(value, steps, after)
  {
    var original := ReadFromFiles(files, bounds);
    value := update;
    if original.Some? {
      value := MergeUpdate(original.value, update, steps, bounds[0], after);
    }
  }

  /** What computeCommitment writes for an update: merged with the table's value, or else with the newest record. */
  method NewValue(update: Bytes, table: Option<Bytes>, files: seq<Option<Bytes>>, ghost count: nat,
                  ghost changes: seq<Bytes>,
                  ghost steps: seq<Row>, ghost bounds: seq<Row>, ghost after: Row) returns (value: Bytes)
    requires StoreOk(count, table, changes, files, steps, bounds) && Takes(update, steps[|changes|], after)
    ensures StoreOk(count + 1, Some(value), changes + [value], files, steps + [after], bounds)
  {
    if table.Some? {
      value := MergeUpdate(table.value, update, steps, steps[|changes|], after);
    } else {
      value := FirstValue(update, files, steps, bounds, after);
    }
    StepsMore(table, changes, steps, value, after);
  }

  /** The record for the oldest n changes, if there are any; their number is never more than the table has counted. */
  method NewRecord(n: nat, count: nat, table: Option<Bytes>, changes: seq<Bytes>, ghost files: seq<Option<Bytes>>,
                   ghost steps: seq<Row>, ghost bounds: seq<Row>) returns (ok: bool, record: Option<Bytes>)
    requires StoreOk(count, table, changes, files, steps, bounds) && n <= |changes|
    ensures ok
    ensures StoreOk(count - n, if count == n then None else table, changes[n..], [record] + files, steps[n..],
        [steps[n]] + bounds)
  {
    ok, record := true, None;
    if n > 0 {
      var v := AggregateToBtree(changes, n, table, steps);
      record := Some(v);
      ok := table.Some? && n <= count;
    }
    AggregateKeeps(count, table, changes, files, steps, bounds, n, record);
  }

  /** The records from the newest to the oldest. */
  method ListRecords(table: Option<Bytes>, files: seq<Option<Bytes>>, ghost count: nat, ghost changes: seq<Bytes>,
                     ghost steps: seq<Row>, ghost bounds: seq<Row>)
      returns (records: seq<Bytes>, ghost us: seq<Update>, ghost next: Row)
    requires StoreOk(count, table, changes, files, steps, bounds)
    ensures Listed(records, us, NoRow(), next, steps[|changes|])
  {
    ghost var current := steps[|changes|];
    records, us, next := [], [], current;
    if table.Some? {
      ListedFirst(table.value, steps[0], current);
      records, us := [table.value], [Decode(table.value)];
    }
    for j := 0 to |files|
      invariant Listed(records, us, bounds[j], next, current)
    {
      records, us, next := ListNext(records, files, j, us, bounds, next, current);
    }
  }

  method ListNext(records: seq<Bytes>, files: seq<Option<Bytes>>, j: nat, ghost us: seq<Update>, ghost bounds: seq<Row>,
                  ghost next: Row, ghost current: Row)
      returns (records': seq<Bytes>, ghost us': seq<Update>, ghost next': Row)
    requires BoundsOk(files, bounds) && j < |files| && Listed(records, us, bounds[j], next, current)
    ensures Listed(records', us', bounds[j + 1], next', current)
  {
    assert FileOk(files, bounds, j);
    if files[j].None? {
      return records, us, next;
    }
    var data := files[j].value;
    if |records| == 0 {
      assert us == [];
      ListedFirst(data, bounds[j + 1], current);
      records', us', next' := [data], [Decode(data)], current;
    } else {
      ListedNext(records, us, bounds[j], next, current, data, bounds[j + 1]);
      records', us', next' := records + [data], us + [Decode(data)], bounds[j];
    }
  }

  lemma ListedSays(records: seq<Bytes>, us: seq<Update>, next: Row, current: Row)
    requires Listed(records, us, NoRow(), next, current)
    ensures us == [] ==> current == NoRow()
    ensures us != [] ==> Complete(MergeAll(us, |us|)) && Rest(Encode(MergeAll(us, |us|))) == RowData(current)
  {
    if us != [] {
      LeadsFromNothing(MergeAll(us, |us|), current);
    }
  }

  class Branches {
    /** The summary table: how many changes are not aggregated yet, and what they and some before them say together. */
    var count: nat
    var table: Option<Bytes>
    /** The values in the change files, oldest first. */
    var changes: seq<Bytes>
    /** The record in every state file, newest first; the last file starts at block 0. */
    var files: seq<Option<Bytes>>

    /** The rows between the changes, and between the files. */
    ghost var steps: seq<Row>
    ghost var bounds: seq<Row>

    ghost predicate Valid()
      reads this
    {
      StoreOk(count, table, changes, files, steps, bounds)
    }

    /** The row that all updates have built. */
    ghost function Current(): Row
      reads this
      requires Valid()
    {
      steps[|changes|]
    }

    constructor ()
      ensures Valid() && Current() == NoRow()
    {
      count, table, changes, files, steps, bounds := 0, None, [], [], [NoRow()], [NoRow()];
    }

    /** computeCommitment for one prefix: the update is merged with what is known, and both the table and the change
        file get the merged value. */
    method Commit(branchNodeUpdate: Bytes, ghost after: Row)
      requires Valid() && Takes(branchNodeUpdate, Current(), after)
      modifies this
      ensures Valid() && Current() == after
    {
      var value := NewValue(branchNodeUpdate, table, files, count, changes, steps, bounds, after);
      table, count, changes, steps := Some(value), count + 1, changes + [value], steps + [after];
    }

    /** aggregate: the oldest n changes become the record of a new file and leave the table. */
    method Aggregate(n: nat) returns (ok: bool)
      requires Valid() && n <= |changes|
      modifies this
      ensures ok && Valid() && Current() == old(Current())
    {
      var record;
      ok, record := NewRecord(n, count, table, changes, files, steps, bounds);
      if n > 0 && count == n {
        table := None;
      }
      bounds, files := [steps[n]] + bounds, [record] + files;
      count, changes, steps := count - n, changes[n..], steps[n..];
    }

    /** n files become one. */
    method MergeFiles(from: nat, n: nat)
      requires Valid() && n > 0 && from + n <= |files|
      modifies this
      ensures Valid() && Current() == old(Current())
    {
      var record := MergeIntoStateFile(files, from, n, bounds);
      BoundsMerged(files, bounds, from, n, record);
      files := files[..from] + [record] + files[from + n..];
      bounds := bounds[..from + 1] + bounds[from + n..];
    }

    /** branchFn: the row that the updates have built; nothing only where the row is empty. */
    method Read() returns (r: Option<Bytes>)
      requires Valid()
      ensures Answers(r, Current())
    {
      var records; ghost var us, next;
      records, us, next := ListRecords(table, files, count, changes, steps, bounds);
      ListedSays(records, us, next, Current());
      var found, ok, rest := BranchFn(records, us);
      r := if found then Some(rest) else None;
    }
  }

  // ---- every run

  datatype Op = Commit(update: Bytes) | Aggregate(n: nat) | MergeFiles(from: nat, n: nat) | Read

  /** The row before and after an operation: only an update changes it, and keeps only children that are there. */
  ghost predicate RowStep(op: Op, before: Row, after: Row) {
    if op.Commit? then Takes(op.update, before, after) else before == after
  }

  /** The rows that the updates build, starting from nothing. */
  ghost predicate RowsOf(ops: seq<Op>, rows: seq<Row>) {
    |rows| == |ops| + 1 && rows[0] == NoRow() && forall i :: 0 <= i < |ops| ==> RowStepAt(ops, rows, i)
  }

  ghost predicate RowStepAt(ops: seq<Op>, rows: seq<Row>, i: nat)
    requires i < |ops| && |rows| == |ops| + 1
  {
    RowStep(ops[i], rows[i], rows[i + 1])
  }

  /** What was read is the row at that time; nothing was found only if it was empty. */
  ghost predicate Answers(r: Option<Bytes>, row: Row) { if r.Some? then r.value == RowData(row) else row == NoRow() }

  method Execute(b: Branches, op: Op, ghost after: Row) returns (r: Option<Bytes>)
    requires b.Valid() && RowStep(op, b.Current(), after)
    modifies b
    ensures b.Valid() && b.Current() == after && (op.Read? ==> Answers(r, after))
  {
    r := None;
    match op
    case Commit(update) => b.Commit(update, after);
    case Aggregate(n) => var ok := b.Aggregate(if n <= |b.changes| then n else |b.changes|);
    case MergeFiles(from, n) =>
      if n > 0 && from + n <= |b.files| {
        b.MergeFiles(from, n);
      }
    case Read => r := b.Read();
  }

  ghost predicate AllAnswered(ops: seq<Op>, results: seq<Option<Bytes>>, rows: seq<Row>) {
    |results| <= |ops| && |results| < |rows| && forall i :: 0 <= i < |results| ==> Answered(ops, results, rows, i)
  }

  ghost predicate Answered(ops: seq<Op>, results: seq<Option<Bytes>>, rows: seq<Row>, i: nat)
    requires i < |results| <= |ops| && i < |rows|
  {
    ops[i].Read? ==> Answers(results[i], rows[i])
  }

  lemma AnsweredNext(ops: seq<Op>, results: seq<Option<Bytes>>, rows: seq<Row>, r: Option<Bytes>)
    requires AllAnswered(ops, results, rows) && |results| < |ops| && |results| + 1 < |rows|
    requires (ops[|results|].Read? ==> Answers(r, rows[|results|]))
    ensures AllAnswered(ops, results + [r], rows)
  {
    var more := results + [r];
    forall i | 0 <= i < |more| ensures Answered(ops, more, rows, i) {
      if i < |results| {
        assert Answered(ops, results, rows, i);
      }
    }
  }

  /** Updates, aggregations and merges of files in any order: every read gives the row that the updates before it
      have built, and none of them fails. */
  method Life(ops: seq<Op>, ghost rows: seq<Row>) returns (results: seq<Option<Bytes>>)
    requires RowsOf(ops, rows)
    ensures |results| == |ops| && AllAnswered(ops, results, rows)
  {
    var b := new Branches();
    results := [];
    for i := 0 to |ops|
      invariant b.Valid() && fresh(b) && b.Current() == rows[i]
      invariant |results| == i && AllAnswered(ops, results, rows)
    {
      assert RowStepAt(ops, rows, i);
      var r := Execute(b, ops[i], rows[i + 1]);
      AnsweredNext(ops, results, rows, r);
      results := results + [r];
    }
  }
}
