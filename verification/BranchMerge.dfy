/** Merging branch data: the bytes of two updates become the bytes of one update that does
    what the two do one after the other. */
module BranchMerge {
  import opened Options
  import opened BranchBytes
  import opened Sums

  // ---- rows and what updates do to them

  /** The 16 children of a branch node: the bytes of their cells, none for an absent child. */
  type Row = r: seq<Bytes> | |r| == 16 witness seq(16, _ => [])

  function Apply(u: Update, row: Row): (r: Row)
    requires |u.cells| == 16
    ensures forall n :: 0 <= n < 16 ==> r[n] == if !u.after[n] then [] else if u.touch[n] then u.cells[n] else row[n]
  {
    seq(16, n requires 0 <= n < 16 => if !u.after[n] then [] else if u.touch[n] then u.cells[n] else row[n])
  }

  function MergedCell(u1: Update, u2: Update, n: nat): Bytes
    requires |u1.cells| == |u2.cells| == 16 && n < 16
  {
    if u2.touch[n] && u2.after[n] then u2.cells[n]
    else if u1.touch[n] && u1.after[n] && !u2.touch[n] && u2.after[n] then u1.cells[n]
    else []
  }

  /** Update 2 after update 1. */
  function Merge(u1: Update, u2: Update): (u: Update)
    requires |u1.cells| == |u2.cells| == 16
    ensures u.touch == Or(u1.touch, u2.touch) && u.after == u2.after && |u.cells| == 16
    ensures forall n :: 0 <= n < 16 ==> u.cells[n] == MergedCell(u1, u2, n)
  {
    Update(Or(u1.touch, u2.touch), u2.after, seq(16, n requires 0 <= n < 16 => MergedCell(u1, u2, n)))
  }

  /** What update 2 leaves as it is was there after update 1. */
  ghost predicate Compatible(u1: Update, u2: Update) {
    forall n :: 0 <= n < 16 && u2.after[n] && !u2.touch[n] ==> u1.after[n]
  }

  lemma {:induction false} MergeOk(u1: Update, u2: Update)
    requires UpdateOk(u1) && UpdateOk(u2) && Compatible(u1, u2)
    ensures UpdateOk(Merge(u1, u2))
  {
    var u := Merge(u1, u2);
    forall n {:trigger u.cells[n]} | 0 <= n < 16
      ensures if u.touch[n] && u.after[n] then IsCell(u.cells[n]) else u.cells[n] == [] {
      assert u2.touch[n] && u2.after[n] ==> IsCell(u2.cells[n]);
      assert u1.touch[n] && u1.after[n] ==> IsCell(u1.cells[n]);
    }
  }

  /** The merged update is the two one after the other. */
  lemma {:induction false} MergeComposes(u1: Update, u2: Update, row: Row)
    requires UpdateOk(u1) && UpdateOk(u2) && Compatible(u1, u2)
    ensures Apply(Merge(u1, u2), row) == Apply(u2, Apply(u1, row))
  {
    var r, s := Apply(Merge(u1, u2), row), Apply(u2, Apply(u1, row));
    forall n | 0 <= n < 16 ensures r[n] == s[n] {
    }
  }

  /** Exactly compatible updates merge to branch data that can be read and composes them. */
  lemma {:induction false} ComposesExactly(u1: Update, u2: Update)
    requires UpdateOk(u1) && UpdateOk(u2)
    ensures Compatible(u1, u2) <==>
      UpdateOk(Merge(u1, u2)) && forall row: Row :: Apply(Merge(u1, u2), row) == Apply(u2, Apply(u1, row))
  {
    var u := Merge(u1, u2);
    if Compatible(u1, u2) {
      MergeOk(u1, u2);
      forall row: Row ensures Apply(u, row) == Apply(u2, Apply(u1, row)) {
        MergeComposes(u1, u2, row);
      }
    } else {
      var n :| 0 <= n < 16 && u2.after[n] && !u2.touch[n] && !u1.after[n];
      if u1.touch[n] {
        assert u.cells[n] == [];
        EmptyIsNoCell();
      } else {
        var row: Row := seq(16, _ => [0]);
        assert Apply(u, row)[n] == [0] && Apply(u2, Apply(u1, row))[n] == [];
      }
    }
  }

  lemma EmptyIsNoCell()
    ensures !IsCell([])
  {}

  /** Merging is associative along a chain of updates. */
  lemma {:induction false} MergeAssociative(u1: Update, u2: Update, u3: Update)
    requires UpdateOk(u1) && UpdateOk(u2) && UpdateOk(u3) && Compatible(u2, u3)
    ensures Merge(Merge(u1, u2), u3) == Merge(u1, Merge(u2, u3))
  {
    var u, v := Merge(Merge(u1, u2), u3), Merge(u1, Merge(u2, u3));
    assert u.touch == v.touch;
    forall n | 0 <= n < 16 ensures u.cells[n] == v.cells[n] {
    }
  }

  lemma {:induction false} StillCompatible(u1: Update, u2: Update, u3: Update)
    requires |u1.cells| == |u2.cells| == |u3.cells| == 16 && Compatible(u1, u2) && Compatible(u2, u3)
    ensures Compatible(Merge(u1, u2), u3) && Compatible(u1, Merge(u2, u3))
  {}

  // ---- complete updates

  /** Every child that is present is touched. */
  ghost predicate Complete(u: Update) { forall n :: 0 <= n < 16 && u.after[n] ==> u.touch[n] }

  /** All but the map of touched children. */
  function Rest(data: Bytes): (r: Bytes)
    requires |data| >= 2
    ensures |r| == |data| - 2 && forall i :: 0 <= i < |r| ==> r[i] == data[i + 2]
  {
    seq(|data| - 2, i requires 0 <= i < |data| - 2 => data[i + 2])
  }

  lemma {:induction false} JoinedSame(cells: seq<Bytes>, cells': seq<Bytes>, n: nat)
    requires |cells| == |cells'| && n <= |cells| && forall i :: 0 <= i < n ==> cells[i] == cells'[i]
    ensures Joined(cells, n) == Joined(cells', n)
  {
    if n > 0 {
      JoinedSame(cells, cells', n - 1);
    }
  }

  /** Nothing older changes a complete update, apart from what it lists as touched. */
  lemma {:induction false} CompleteStays(u1: Update, u2: Update)
    requires UpdateOk(u1) && UpdateOk(u2) && Complete(u2)
    ensures Complete(Merge(u1, u2)) && Rest(Encode(Merge(u1, u2))) == Rest(Encode(u2))
    ensures forall row: Row, row': Row :: Apply(u2, row) == Apply(u2, row')
  {
    var u := Merge(u1, u2);
    forall n | 0 <= n < 16 ensures u.cells[n] == u2.cells[n] {
    }
    JoinedSame(u.cells, u2.cells, 16);
    var a, b := Rest(Encode(u)), Rest(Encode(u2));
    assert |a| == |b|;
    forall i | 0 <= i < |a| ensures a[i] == b[i] {
      assert i >= 2 ==> a[i] == Joined(u.cells, 16)[i - 2] && b[i] == Joined(u2.cells, 16)[i - 2];
    }
    forall row: Row, row': Row ensures Apply(u2, row) == Apply(u2, row') {
      assert forall n :: 0 <= n < 16 ==> Apply(u2, row)[n] == Apply(u2, row')[n];
    }
  }

  // ---- MergeHexBranches

  datatype Result = Failed(fault: Fault) | Ok(data: Bytes)

  /** One cell is read, field by field, and copied if it is wanted. */
  method CopyCell(out: Bytes, data: Bytes, pos: nat, add: bool) returns (out': Bytes, end: End)
    requires pos <= |data|
    ensures end == CellEnd(data, pos)
    ensures end.At? ==> out' == out + if add then Piece(data, pos, end.pos) else []
  {
    out' := out;
    if pos == |data| {
      return out', Bad(Panic);
    }
    var fields := Ones(data[pos]);
    var next: nat := pos + 1;
    if add {
      out' := out + [data[pos]];
    }
    for i := 0 to fields
      invariant next <= |data| && pos < next && FieldsEnd(data, pos + 1, fields) == FieldsEnd(data, next, fields - i)
      invariant out' == out + if add then Piece(data, pos, next) else []
    {
      var l := Uvarint(data, next, 0);
      if l.NoNumber? || |data| < l.next + l.value {
        return out', Bad(Error);
      }
      PieceMore(out, data, pos, next, l.next);
      PieceMore(out, data, pos, l.next, l.next + l.value);
      if add {
        out' := out' + Piece(data, next, l.next);
        out' := out' + Piece(data, l.next, l.next + l.value);
      }
      next := l.next + l.value;
    }
    end := At(next);
  }

  lemma PieceMore(out: Bytes, data: Bytes, a: nat, b: nat, c: nat)
    requires a <= b <= c <= |data|
    ensures (out + Piece(data, a, b)) + Piece(data, b, c) == out + Piece(data, a, c)
  {
    assert Piece(data, a, b) + Piece(data, b, c) == Piece(data, a, c);
  }

  /** The bytes of the cell of child n, where the data can be read so far. */
  ghost function CellPiece(data: Bytes, n: nat): Bytes
    requires |data| >= 4 && n < 16
  {
    var s, e := Scan(data, CellsOf(data), n), Scan(data, CellsOf(data), n + 1);
    if s.At? && e.At? && s.pos <= e.pos then Piece(data, s.pos, e.pos) else []
  }

  /** What is written for child n. */
  ghost function ChildBytes(d1: Bytes, d2: Bytes, n: nat): Bytes
    requires |d1| >= 4 && |d2| >= 4 && n < 16
  {
    if CellsOf(d2)[n] then CellPiece(d2, n)
    else if CellsOf(d1)[n] && !TouchOf(d2)[n] && AfterOf(d2)[n] then CellPiece(d1, n)
    else []
  }

  /** The bytes of the merged cells of the first n children. */
  ghost function MergedBytes(d1: Bytes, d2: Bytes, n: nat): Bytes
    requires |d1| >= 4 && |d2| >= 4 && n <= 16
  {
    if n == 0 then [] else MergedBytes(d1, d2, n - 1) + ChildBytes(d1, d2, n - 1)
  }

  /** What has been written when the first n children have been merged. */
  ghost predicate MergedTo(out: Bytes, d1: Bytes, d2: Bytes, pos1: nat, pos2: nat, n: nat) {
    && |d1| >= 4 && |d2| >= 4 && n <= 16
    && Scan(d1, CellsOf(d1), n) == At(pos1) && Scan(d2, CellsOf(d2), n) == At(pos2) && MergeFault(d1, d2, n) == None
    && out == Header(Or(TouchOf(d1), TouchOf(d2)), AfterOf(d2)) + MergedBytes(d1, d2, n)
  }

  /** What stops the merge of the first n children: for each child the newer data is read first. */
  ghost function MergeFault(d1: Bytes, d2: Bytes, n: nat): Option<Fault>
    requires |d1| >= 4 && |d2| >= 4 && n <= 16
  {
    if n == 0 then None
    else
      var before, end1, end2 := MergeFault(d1, d2, n - 1), Scan(d1, CellsOf(d1), n), Scan(d2, CellsOf(d2), n);
      if before.Some? then before
      else if end2.Bad? then Some(end2.fault)
      else if end1.Bad? then Some(end1.fault)
      else None
  }

  lemma {:induction false} MergeStops(d1: Bytes, d2: Bytes, m: nat, n: nat)
    requires |d1| >= 4 && |d2| >= 4 && m <= n <= 16
    ensures MergeFault(d1, d2, m).Some? ==> MergeFault(d1, d2, n) == MergeFault(d1, d2, m)
    ensures MergeFault(d1, d2, n).None? <==> Scan(d1, CellsOf(d1), n).At? && Scan(d2, CellsOf(d2), n).At?
    decreases n
  {
    if n > 0 {
      MergeStops(d1, d2, if m < n then m else n - 1, n - 1);
    }
  }

  lemma {:induction false} NextChild(out: Bytes, d1: Bytes, d2: Bytes, pos1: nat, pos2: nat, n: nat)
    requires n < 16 && MergedTo(out, d1, d2, pos1, pos2, n)
    ensures var end1, end2 := Scan(d1, CellsOf(d1), n + 1), Scan(d2, CellsOf(d2), n + 1);
      end1.At? && end2.At? ==> MergedTo(out + ChildBytes(d1, d2, n), d1, d2, end1.pos, end2.pos, n + 1)
  {
    Regroup(Header(Or(TouchOf(d1), TouchOf(d2)), AfterOf(d2)), MergedBytes(d1, d2, n), ChildBytes(d1, d2, n));
  }

  /** The cells of one child. */
  method MergeChild(out: Bytes, d1: Bytes, d2: Bytes, pos1: nat, pos2: nat, n: nat)
      returns (out': Bytes, end1: End, end2: End)
    requires |d1| >= 4 && |d2| >= 4 && n < 16 && Scan(d1, CellsOf(d1), n) == At(pos1)
    requires Scan(d2, CellsOf(d2), n) == At(pos2)
    ensures end2 == Scan(d2, CellsOf(d2), n + 1) && (end2.At? ==> end1 == Scan(d1, CellsOf(d1), n + 1))
    ensures end2.At? && end1.At? ==> out' == out + ChildBytes(d1, d2, n)
  {
    out', end1, end2 := out, At(pos1), At(pos2);
    if CellsOf(d2)[n] {
      out', end2 := CopyCell(out, d2, pos2, true);
      if end2.Bad? {
        return;
      }
    }
    if CellsOf(d1)[n] {
      var add := !TouchOf(d2)[n] && AfterOf(d2)[n];
      out', end1 := CopyCell(out', d1, pos1, add);
    }
  }

  /** All children in order, or the first that cannot be read. */
  method MergeCells(d1: Bytes, d2: Bytes) returns (r: Result)
    requires |d1| >= 4 && |d2| >= 4
    ensures MergeFault(d1, d2, 16) == if r.Ok? then None else Some(r.fault)
    ensures r.Ok? ==> r.data == Header(Or(TouchOf(d1), TouchOf(d2)), AfterOf(d2)) + MergedBytes(d1, d2, 16)
  {
    var out, pos1: nat, pos2: nat := Header(Or(TouchOf(d1), TouchOf(d2)), AfterOf(d2)), 4, 4;
    for n := 0 to 16
      invariant MergedTo(out, d1, d2, pos1, pos2, n)
    {
      NextChild(out, d1, d2, pos1, pos2, n);
      MergeStops(d1, d2, n + 1, 16);
      var end1, end2;
      out, end1, end2 := MergeChild(out, d1, d2, pos1, pos2, n);
      if end2.Bad? {
        return Failed(end2.fault);
      }
      if end1.Bad? {
        return Failed(end1.fault);
      }
      pos1, pos2 := end1.pos, end2.pos;
    }
    r := Ok(out);
  }

  lemma {:induction false} MergedBytesJoined(d1: Bytes, d2: Bytes, n: nat)
    requires Readable(d1) && Readable(d2) && n <= 16
    ensures MergedBytes(d1, d2, n) == Joined(Merge(Decode(d1), Decode(d2)).cells, n)
  {
    if n > 0 {
      MergedBytesJoined(d1, d2, n - 1);
      var u1, u2 := Decode(d1), Decode(d2);
      DecodeOk(d2);
      ScanGood(d1, CellsOf(d1), n, 16);
      ScanGood(d1, CellsOf(d1), n - 1, 16);
      ScanGood(d2, CellsOf(d2), n, 16);
      ScanGood(d2, CellsOf(d2), n - 1, 16);
      assert CellPiece(d1, n - 1) == u1.cells[n - 1] && CellPiece(d2, n - 1) == u2.cells[n - 1];
      assert Merge(u1, u2).cells[n - 1] == MergedCell(u1, u2, n - 1);
    }
  }

  /** Which fault is met first. */
  ghost function FirstFault(d1: Bytes, d2: Bytes): Fault
    requires !Readable(d1) || !Readable(d2)
  {
    if |d1| < 4 || |d2| < 4 then Panic else (MergeStops(d1, d2, 16, 16); MergeFault(d1, d2, 16).value)
  }

  /** What merging is to give: nothing to merge with leaves the data as it is. */
  ghost predicate MergeResult(d1: Bytes, d2: Bytes, r: Result) {
    if d2 == [] then r == Ok(d1)
    else if d1 == [] then r == Ok(d2)
    else if Readable(d1) && Readable(d2) then r == Ok(Encode(Merge(Decode(d1), Decode(d2))))
    else r == Failed(FirstFault(d1, d2))
  }

  method MergeHexBranches(d1: Bytes, d2: Bytes) returns (r: Result)
    ensures MergeResult(d1, d2, r)
  {
    if d2 == [] {
      return Ok(d1);
    }
    if d1 == [] {
      return Ok(d2);
    }
    if |d1| < 4 || |d2| < 4 {
      return Failed(Panic);
    }
    r := MergeCells(d1, d2);
    MergeStops(d1, d2, 16, 16);
    if r.Ok? {
      MergedBytesJoined(d1, d2, 16);
    }
  }

  // ---- BranchMerger

  /** The merger with a buffer of its own. */
  class BranchMerger {
    var buf: Bytes

    constructor () {
      buf := [];
    }

    /** Like CopyCell, into the buffer. */
    method WriteCell(data: Bytes, pos: nat, add: bool) returns (end: End)
      requires pos <= |data|
      modifies this
      ensures end == CellEnd(data, pos)
      ensures end.At? ==> buf == old(buf) + if add then Piece(data, pos, end.pos) else []
    {
      if pos == |data| {
        return Bad(Panic);
      }
      ghost var out := buf;
      var fields := Ones(data[pos]);
      var next: nat := pos + 1;
      if add {
        buf := buf + [data[pos]];
      }
      for i := 0 to fields
        invariant next <= |data| && pos < next && FieldsEnd(data, pos + 1, fields) == FieldsEnd(data, next, fields - i)
        invariant buf == out + if add then Piece(data, pos, next) else []
      {
        var l := Uvarint(data, next, 0);
        if l.NoNumber? || |data| < l.next + l.value {
          return Bad(Error);
        }
        PieceMore(out, data, pos, next, l.next);
        PieceMore(out, data, pos, l.next, l.next + l.value);
        if add {
          buf := buf + Piece(data, next, l.next);
          buf := buf + Piece(data, l.next, l.next + l.value);
        }
        next := l.next + l.value;
      }
      end := At(next);
    }

    method WriteChild(d1: Bytes, d2: Bytes, pos1: nat, pos2: nat, n: nat) returns (end1: End, end2: End)
      requires |d1| >= 4 && |d2| >= 4 && n < 16 && Scan(d1, CellsOf(d1), n) == At(pos1)
      requires Scan(d2, CellsOf(d2), n) == At(pos2)
      modifies this
      ensures end2 == Scan(d2, CellsOf(d2), n + 1) && (end2.At? ==> end1 == Scan(d1, CellsOf(d1), n + 1))
      ensures end2.At? && end1.At? ==> buf == old(buf) + ChildBytes(d1, d2, n)
    {
      end1, end2 := At(pos1), At(pos2);
      if CellsOf(d2)[n] {
        end2 := WriteCell(d2, pos2, true);
        if end2.Bad? {
          return;
        }
      }
      if CellsOf(d1)[n] {
        end1 := WriteCell(d1, pos1, !TouchOf(d2)[n] && AfterOf(d2)[n]);
      }
    }

    /** The same result as MergeHexBranches, whatever the buffer held before. */
    method Merge(d1: Bytes, d2: Bytes) returns (r: Result)
      modifies this
      ensures MergeResult(d1, d2, r)
    {
      if d2 == [] {
        return Ok(d1);
      }
      if d1 == [] {
        return Ok(d2);
      }
      if |d1| < 4 || |d2| < 4 {
        return Failed(Panic);
      }
      buf := Header(Or(TouchOf(d1), TouchOf(d2)), AfterOf(d2));
      var pos1: nat, pos2: nat := 4, 4;
      for n := 0 to 16
        invariant MergedTo(buf, d1, d2, pos1, pos2, n)
      {
        NextChild(buf, d1, d2, pos1, pos2, n);
        MergeStops(d1, d2, n + 1, 16);
        var end1, end2 := WriteChild(d1, d2, pos1, pos2, n);
        if end2.Bad? {
          return Failed(end2.fault);
        }
        if end1.Bad? {
          return Failed(end1.fault);
        }
        pos1, pos2 := end1.pos, end2.pos;
      }
      MergedBytesJoined(d1, d2, 16);
      r := Ok(buf);
    }
  }

  // ---- branchFn

  /** IsComplete, on the bytes. */
  method IsComplete(data: Bytes) returns (c: bool)
    requires Readable(data)
    ensures c <==> Complete(Decode(data))
  {
    c := true;
    for n := 0 to 16
      invariant c <==> forall m :: 0 <= m < n && AfterOf(data)[m] ==> TouchOf(data)[m]
    {
      if AfterOf(data)[n] && !TouchOf(data)[n] {
        c := false;
      }
    }
  }

  /** All of the records, the newest first, merged into one update. */
  ghost function MergeAll(us: seq<Update>, n: nat): (u: Update)
    requires 0 < n <= |us| && forall i {:trigger us[i].cells} :: 0 <= i < |us| ==> |us[i].cells| == 16
    ensures |u.cells| == 16
  {
    if n == 1 then us[0] else Merge(us[n - 1], MergeAll(us, n - 1))
  }

  /** Each record fits the next newer one. */
  ghost predicate Chain(us: seq<Update>) {
    && (forall i {:trigger us[i].cells} :: 0 <= i < |us| ==> |us[i].cells| == 16)
    && (forall i {:trigger UpdateOk(us[i])} :: 0 <= i < |us| ==> UpdateOk(us[i]))
    && forall i {:trigger Fits(us, i)} :: 0 < i < |us| ==> Fits(us, i)
  }

  ghost predicate Fits(us: seq<Update>, i: nat)
    requires 0 < i < |us|
  {
    Compatible(us[i], us[i - 1])
  }

  lemma {:induction false} MergeAllOk(us: seq<Update>, n: nat)
    requires Chain(us) && 0 < n <= |us|
    ensures UpdateOk(MergeAll(us, n)) && (n < |us| ==> Compatible(us[n], MergeAll(us, n)))
  {
    assert UpdateOk(us[n - 1]);
    if n > 1 {
      MergeAllOk(us, n - 1);
      MergeOk(us[n - 1], MergeAll(us, n - 1));
    }
    if n < |us| {
      assert Fits(us, n);
      if n > 1 {
        StillCompatible(us[n], us[n - 1], MergeAll(us, n - 1));
      }
    }
  }

  /** Once the merged records are complete, the older ones make no difference. */
  lemma {:induction false} MayStop(us: seq<Update>, m: nat, n: nat)
    requires Chain(us) && 0 < m <= n <= |us| && Complete(MergeAll(us, m))
    ensures Complete(MergeAll(us, n)) && Rest(Encode(MergeAll(us, n))) == Rest(Encode(MergeAll(us, m)))
  {
    if m < n {
      MayStop(us, m, n - 1);
      MergeAllOk(us, n - 1);
      assert UpdateOk(us[n - 1]);
      CompleteStays(us[n - 1], MergeAll(us, n - 1));
    }
  }

  method MergeOlder(record: Bytes, merged: Bytes, ghost u1: Update, ghost u2: Update) returns (merged': Bytes)
    requires UpdateOk(u1) && UpdateOk(u2) && record == Encode(u1) && merged == Encode(u2)
    ensures merged' == Encode(Merge(u1, u2))
  {
    DecodeEncode(u1);
    DecodeEncode(u2);
    var r := MergeHexBranches(record, merged);
    merged' := r.data;
  }

  method CompleteBytes(merged: Bytes, ghost u: Update) returns (c: bool)
    requires UpdateOk(u) && merged == Encode(u)
    ensures c <==> Complete(u)
  {
    DecodeEncode(u);
    c := IsComplete(merged);
  }

  /** The records of a chain of updates. */
  ghost predicate RecordsOf(records: seq<Bytes>, us: seq<Update>) {
    Chain(us) && |us| == |records| &&
        forall i {:trigger IsRecord(records, us, i)} :: 0 <= i < |us| ==> IsRecord(records, us, i)
  }

  ghost predicate IsRecord(records: seq<Bytes>, us: seq<Update>, i: nat)
    requires i < |records| && i < |us| && |us[i].cells| == 16
  {
    records[i] == Encode(us[i])
  }

  /** What the first n records say together. */
  ghost predicate MergedOf(merged: Bytes, complete: bool, us: seq<Update>, n: nat) {
    && Chain(us) && 0 < n <= |us| && UpdateOk(MergeAll(us, n)) && merged == Encode(MergeAll(us, n))
    && (complete <==> Complete(MergeAll(us, n)))
  }

  method NextRecord(records: seq<Bytes>, ghost us: seq<Update>, merged: Bytes, i: nat)
      returns (merged': Bytes, complete: bool)
    requires RecordsOf(records, us) && i < |us| && MergedOf(merged, false, us, i)
    ensures MergedOf(merged', complete, us, i + 1)
  {
    assert IsRecord(records, us, i) && UpdateOk(us[i]);
    MergeAllOk(us, i + 1);
    merged' := MergeOlder(records[i], merged, us[i], MergeAll(us, i));
    complete := CompleteBytes(merged', MergeAll(us, i + 1));
  }

  /** branchFn: the record of the table, if there is one, and those of the files are merged,
      newest first, until the result is complete. What it returns is what all records together
      say; it gives up only if they are not complete together. */
  method BranchFn(records: seq<Bytes>, ghost us: seq<Update>) returns (found: bool, ok: bool, rest: Bytes)
    requires RecordsOf(records, us)
    ensures found <==> |records| > 0
    ensures found ==> (ok <==> Complete(MergeAll(us, |us|)))
    ensures found && ok ==> rest == Rest(Encode(MergeAll(us, |us|)))
  {
    if |records| == 0 {
      return false, true, [];
    }
    var merged := records[0];
    assert IsRecord(records, us, 0) && UpdateOk(us[0]);
    var complete := CompleteBytes(merged, MergeAll(us, 1));
    var i := 1;
    while !complete && i < |records|
      invariant i <= |records| && MergedOf(merged, complete, us, i)
      decreases |records| - i
    {
      merged, complete := NextRecord(records, us, merged, i);
      i := i + 1;
    }
    found, ok, rest := true, complete, if complete then Rest(merged) else [];
    if complete {
      MayStop(us, i, |us|);
    }
  }
}
