/** EncodeBranch and DecodeCells, ExtractPlainKeys and ReplacePlainKeys. */
module BranchCodec {
  import opened BranchBytes
  import opened BranchCells
  import opened Uvarint
  import opened Sums

  /** The parts of a cell that branch data keeps; an empty part has no length. */
  datatype Cell = Cell(extension: Bytes, accountKey: Bytes, storageKey: Bytes, hash: Bytes)

  function PartOf(b: Bytes): Field { if b == [] then Absent else Present(b) }

  /** What EncodeBranch stores of a cell. The extension of a cell with a storage key is left out. */
  function StoredOf(c: Cell): Stored {
    Stored(if c.storageKey == [] then PartOf(c.extension) else Absent, PartOf(c.accountKey), PartOf(c.storageKey),
        PartOf(c.hash))
  }

  predicate CellOk(c: Cell) {
    |c.extension| < MAX_LENGTH && |c.accountKey| < MAX_LENGTH && |c.storageKey| < MAX_LENGTH && |c.hash| < MAX_LENGTH
  }

  /** The bytes of the cells that a map selects. */
  function Selected(map16: ChildMap, ss: seq<Stored>): (r: seq<Bytes>)
    requires |ss| == 16
    ensures |r| == 16 && forall n :: 0 <= n < 16 ==> r[n] == if map16[n] then EncodeStored(ss[n]) else []
  {
    seq(16, n requires 0 <= n < 16 => if map16[n] then EncodeStored(ss[n]) else [])
  }

  function StoredAll(cells: seq<Cell>): (r: seq<Stored>)
    requires |cells| == 16
    ensures |r| == 16 && forall n :: 0 <= n < 16 ==> r[n] == StoredOf(cells[n])
  {
    seq(16, n requires 0 <= n < 16 => StoredOf(cells[n]))
  }

  /** A field of EncodeBranch, if it has a length. */
  method AppendField(out: Bytes, b: Bytes) returns (out': Bytes)
    ensures out' == out + EncodeField(PartOf(b))
  {
    out' := out;
    if |b| > 0 {
      out' := out + PutUvarint(|b|);
      out' := out' + b;
      assert (out + PutUvarint(|b|)) + b == out + (PutUvarint(|b|) + b);
    } else {
      assert out == out + [];
    }
  }

  method AppendCell(out: Bytes, c: Cell) returns (out': Bytes)
    ensures out' == out + EncodeStored(StoredOf(c))
  {
    var s := StoredOf(c);
    out' := out + [FlagsOf(s)];
    out' := AppendField(out', if |c.extension| > 0 && |c.storageKey| == 0 then c.extension else []);
    out' := AppendField(out', c.accountKey);
    out' := AppendField(out', c.storageKey);
    out' := AppendField(out', c.hash);
    RegroupFields(out, [FlagsOf(s)], EncodeField(s.key), EncodeField(s.account), EncodeField(s.storage),
        EncodeField(s.hash));
  }

  lemma RegroupFields(out: Bytes, a: Bytes, b: Bytes, c: Bytes, d: Bytes, e: Bytes)
    ensures out + a + b + c + d + e == out + (a + b + c + d + e)
  {}

  /** EncodeBranch: the cells of the children that are present and selected, and one more
      than the last child that is present. */
  /** The cell of child n, if it is selected, and the nibble behind it, if it is present. */
  method AppendChild(data: Bytes, lastNibble: nat, bitmap: ChildMap, after: ChildMap, cells: seq<Cell>, n: nat,
                     ghost h: Bytes, ghost all: seq<Bytes>) returns (data': Bytes, lastNibble': nat)
    requires |cells| == 16 && all == Selected(And(bitmap, after), StoredAll(cells)) && n < 16
    requires data == h + Joined(all, n)
    requires LastBefore(after, n, lastNibble)
    ensures data' == h + Joined(all, n + 1) && LastBefore(after, n + 1, lastNibble')
  {
    Regroup(h, Joined(all, n), all[n]);
    data', lastNibble' := data, lastNibble;
    if after[n] {
      lastNibble' := n + 1;
      if bitmap[n] {
        data' := AppendCell(data, cells[n]);
      }
    }
  }

  /** Of the first n children the last one that is present is just before the given place. */
  ghost predicate LastBefore(after: ChildMap, n: nat, last: nat) {
    last <= n <= 16 && (last > 0 ==> after[last - 1]) && forall m :: last <= m < n ==> !after[m]
  }

  method EncodeBranch(bitmap: ChildMap, touch: ChildMap, after: ChildMap, cells: seq<Cell>)
      returns (data: Bytes, lastNibble: nat)
    requires |cells| == 16
    ensures data == Encode(Update(touch, after, Selected(And(bitmap, after), StoredAll(cells))))
    ensures LastBefore(after, 16, lastNibble)
  {
    ghost var all := Selected(And(bitmap, after), StoredAll(cells));
    var h := Header(touch, after);
    data, lastNibble := h, 0;
    for n := 0 to 16
      invariant data == h + Joined(all, n) && LastBefore(after, n, lastNibble)
    {
      data, lastNibble := AppendChild(data, lastNibble, bitmap, after, cells, n, h, all);
    }
  }

  // ---- reading written cells

  ghost predicate AllOk(ss: seq<Stored>) { |ss| == 16 && forall n :: 0 <= n < 16 ==> StoredOk(ss[n]) }

  /** Branch data with the given stored cells. */
  function Branch(touch: ChildMap, after: ChildMap, ss: seq<Stored>): Update
    requires |ss| == 16
  {
    Update(touch, after, Selected(And(touch, after), ss))
  }

  lemma {:induction false} StandsAlone(s: Stored)
    requires StoredOk(s)
    ensures IsCell(EncodeStored(s))
  {
    var c := EncodeStored(s);
    assert Same(c, 0, c, 0, |c|);
    CellWrittenEnd(s, c, 0);
  }

  lemma {:induction false} BranchOk(touch: ChildMap, after: ChildMap, ss: seq<Stored>)
    requires AllOk(ss)
    ensures UpdateOk(Branch(touch, after, ss))
  {
    var u := Branch(touch, after, ss);
    forall n {:trigger u.cells[n]} | 0 <= n < 16
      ensures if u.touch[n] && u.after[n] then IsCell(u.cells[n]) else u.cells[n] == [] {
      StandsAlone(ss[n]);
    }
  }

  /** Where the cell of child n is written. */
  function PlaceOf(touch: ChildMap, after: ChildMap, ss: seq<Stored>, n: nat): nat
    requires |ss| == 16 && n <= 16
  {
    4 + |Joined(Selected(And(touch, after), ss), n)|
  }

  lemma {:induction false} ReadHere(touch: ChildMap, after: ChildMap, ss: seq<Stored>, n: nat)
    requires AllOk(ss) && n < 16 && touch[n] && after[n]
    ensures ReadsAs(ReadCell(Encode(Branch(touch, after, ss)), PlaceOf(touch, after, ss, n)), ss[n],
        PlaceOf(touch, after, ss, n + 1))
  {
    var u := Branch(touch, after, ss);
    var cell, at := u.cells[n], |Joined(u.cells, n)|;
    assert cell == EncodeStored(ss[n]);
    assert |Joined(u.cells, n + 1)| == at + |cell|;
    assert Same(cell, 0, Encode(u), 4 + at, |cell|) by {
      JoinedPlace(u.cells, n, 16);
      InEncoded(u, cell, at);
    }
    CellWritten(ss[n], Encode(u), 4 + at);
  }

  lemma {:induction false} MapsWritten(touch: ChildMap, after: ChildMap, ss: seq<Stored>)
    requires AllOk(ss)
    ensures var data := Encode(Branch(touch, after, ss));
            |data| >= 4 && TouchOf(data) == touch && AfterOf(data) == after && CellsOf(data) == And(touch, after)
  {
    BranchOk(touch, after, ss);
    ScanEncoded(Branch(touch, after, ss), 0);
  }

  /** Each cell is read where it was written. */
  lemma {:induction false} WrittenAt(touch: ChildMap, after: ChildMap, ss: seq<Stored>, n: nat)
    requires AllOk(ss) && n <= 16
    ensures ReadTo(Encode(Branch(touch, after, ss)), And(touch, after), n) == At(PlaceOf(touch, after, ss, n))
  {
    if n > 0 {
      WrittenAt(touch, after, ss, n - 1);
      if touch[n - 1] && after[n - 1] {
        ReadHere(touch, after, ss, n - 1);
      }
    }
  }

  /** fillFromFields: the parts of a cell. */
  function Filled(r: CellRead): Cell
    requires r.CellRead? && r.key.FieldRead? && r.account.FieldRead? && r.storage.FieldRead? && r.hash.FieldRead?
  {
    Cell(r.key.value, r.account.value, r.storage.value, r.hash.value)
  }

  datatype Row = NoRow(fault: Fault) | Row(touch: ChildMap, after: ChildMap, cells: seq<Cell>)

  const NO_CELL: Cell := Cell([], [], [], [])

  /** The cell of child n as DecodeCells reads it. */
  function DecodedCell(data: Bytes, n: nat): Cell
    requires |data| >= 4 && n < 16
  {
    var at := ReadTo(data, CellsOf(data), n);
    if at.Bad? || !CellsOf(data)[n] then NO_CELL
    else
      var r := ReadCell(data, at.pos);
      if r.BadCell? then NO_CELL else Filled(r)
  }

  ghost predicate DecodedTo(data: Bytes, cells: seq<Cell>, pos: nat, n: nat) {
    && |data| >= 4 && n <= 16 && ReadTo(data, CellsOf(data), n) == At(pos) && |cells| == n
    && forall m :: 0 <= m < n ==> cells[m] == DecodedCell(data, m)
  }

  /** DecodeCells; a child without a cell has an empty one. */
  method DecodeCells(data: Bytes) returns (r: Row)
    ensures r.Row? <==> ReadEnd(data).At?
    ensures r.NoRow? ==> ReadEnd(data) == Bad(r.fault)
    ensures r.Row? ==> r.touch == TouchOf(data) && r.after == AfterOf(data) && |r.cells| == 16
    ensures r.Row? ==> forall n :: 0 <= n < 16 ==> r.cells[n] == DecodedCell(data, n)
  {
    if |data| < 4 {
      return NoRow(Panic);
    }
    var cells: seq<Cell>, pos: nat := [], 4;
    for n := 0 to 16
      invariant DecodedTo(data, cells, pos, n)
    {
      var cell := NO_CELL;
      if TouchOf(data)[n] && AfterOf(data)[n] {
        var c := ReadCell(data, pos);
        if c.BadCell? {
          ReadToBad(data, CellsOf(data), n + 1, 16);
          return NoRow(c.fault);
        }
        cell, pos := Filled(c), c.hash.next;
      }
      cells := cells + [cell];
    }
    r := Row(TouchOf(data), AfterOf(data), cells);
  }

  /** What is read back of a cell. */
  function Kept(c: Cell): Cell { if c.storageKey == [] then c else c.(extension := []) }

  /** Branch data that was encoded for the children that are both touched and present is
      decoded to the same maps and cells, but for the extension of a cell with a storage key. */
  lemma {:induction false} EncodedDecodes(touch: ChildMap, after: ChildMap, cells: seq<Cell>)
    requires |cells| == 16 && forall n :: 0 <= n < 16 ==> CellOk(cells[n])
    ensures var data := Encode(Branch(touch, after, StoredAll(cells)));
      && TouchOf(data) == touch && AfterOf(data) == after && ReadTo(data, CellsOf(data), 16).At?
      && forall n :: 0 <= n < 16 ==> DecodedCell(data, n) == if touch[n] && after[n] then Kept(cells[n]) else NO_CELL
  {
    var ss := StoredAll(cells);
    var data := Encode(Branch(touch, after, ss));
    MapsWritten(touch, after, ss);
    WrittenAt(touch, after, ss, 16);
    forall n | 0 <= n < 16 ensures DecodedCell(data, n) == if touch[n] && after[n] then Kept(cells[n]) else NO_CELL {
      WrittenAt(touch, after, ss, n);
      if touch[n] && after[n] {
        ReadHere(touch, after, ss, n);
      }
    }
  }

  /** A cell comes back whole exactly if it has no storage key or no extension. */
  lemma KeptWhole(c: Cell)
    ensures Kept(c) == c <==> c.storageKey == [] || c.extension == []
  {}
}
