/** The cells of branch data: writing and reading them, and taking out and replacing their
    plain keys. */
module BranchCells {
  import opened BranchBytes
  import opened Uvarint

  // ---- numbers as they are written

  /** What a number of which i bytes have been read may still add. */
  function Limit(i: nat): nat
    requires i <= 9
    decreases 9 - i
  {
    if i == 9 then 2 else 128 * Limit(i + 1)
  }

  const MAX_LENGTH: nat := 0x1_0000_0000_0000_0000

  lemma {:induction false} LimitIs64Bits()
    ensures Limit(0) == MAX_LENGTH
  {
    assert Limit(8) == 256;
    assert Limit(6) == 4194304;
    assert Limit(4) == 68719476736;
    assert Limit(2) == 1125899906842624;
    assert Limit(1) == 144115188075855872;
  }

  lemma LowDigit(v: nat, m: nat)
    requires v < 128 * m
    ensures v / 128 < m && v % 128 + 128 * (v / 128) == v
  {
  }

  /** binary.Uvarint reads what binary.PutUvarint wrote. */
  lemma {:induction false} PutRead(data: Bytes, pos: nat, v: nat, i: nat)
    requires Same(PutUvarint(v), 0, data, pos, |PutUvarint(v)|) && i <= 9 && v < Limit(i)
    ensures BranchBytes.Uvarint(data, pos, i) == Number(v, pos + |PutUvarint(v)|)
    decreases v
  {
    var put := PutUvarint(v);
    assert put[0] == data[pos];
    if v >= 128 {
      assert i < 9;
      LowDigit(v, Limit(i + 1));
      var rest := PutUvarint(v / 128);
      assert put == [v % 128 + 128] + rest;
      assert Same(rest, 0, data, pos + 1, |rest|) by {
        forall k {:trigger rest[k]} | 0 <= k < |rest| ensures rest[k] == data[pos + 1 + (k - 0)] {
          assert put[k + 1] == data[pos + (k + 1)];
        }
      }
      PutRead(data, pos + 1, v / 128, i + 1);
    }
  }

  // ---- fields and cells as they are read

  /** An optional field: its value, all of its bytes, and where the next one starts. */
  datatype FieldRead = NoField | FieldRead(value: Bytes, raw: Bytes, next: nat)

  function OptField(data: Bytes, pos: nat, present: bool): (r: FieldRead)
    requires pos <= |data|
    ensures r.FieldRead? ==> pos <= r.next <= |data|
  {
    if !present then FieldRead([], [], pos)
    else match FieldEnd(data, pos)
      case Bad(_) => NoField
      case At(end) => FieldRead(Piece(data, BranchBytes.Uvarint(data, pos, 0).next, end), Piece(data, pos, end), end)
  }

  const HASHED_KEY_PART: nat := 0
  const ACCOUNT_PLAIN_PART: nat := 1
  const STORAGE_PLAIN_PART: nat := 2
  const HASH_PART: nat := 3

  /** A cell with its flags, its four fields in their order, and where the next cell starts. */
  datatype CellRead =
    | NoCell
    | BadCell(fault: Fault)
    | CellRead(flags: nat, key: FieldRead, account: FieldRead, storage: FieldRead, hash: FieldRead)

  function ReadCell(data: Bytes, pos: nat): (r: CellRead)
    ensures !r.NoCell?
    ensures r.CellRead? ==> r.key.FieldRead? && r.account.FieldRead? && r.storage.FieldRead? && r.hash.FieldRead?
    ensures r.CellRead? ==> pos < r.hash.next <= |data|
  {
    if pos >= |data| then BadCell(Panic)
    else
      var flags := data[pos];
      var key := OptField(data, pos + 1, Digit(flags, HASHED_KEY_PART));
      if key.NoField? then BadCell(Error)
      else
        var account := OptField(data, key.next, Digit(flags, ACCOUNT_PLAIN_PART));
        if account.NoField? then BadCell(Error)
        else
          var storage := OptField(data, account.next, Digit(flags, STORAGE_PLAIN_PART));
          if storage.NoField? then BadCell(Error)
          else
            var hash := OptField(data, storage.next, Digit(flags, HASH_PART));
            if hash.NoField? then BadCell(Error) else CellRead(flags, key, account, storage, hash)
  }

  /** The position behind the cells of the first n children. */
  function ReadTo(data: Bytes, cells: ChildMap, n: nat): (r: End)
    requires |data| >= 4 && n <= 16
    ensures r.At? ==> 4 <= r.pos <= |data|
  {
    if n == 0 then At(4)
    else match ReadTo(data, cells, n - 1)
      case Bad(fault) => Bad(fault)
      case At(pos) =>
        if !cells[n - 1] then At(pos)
        else
          var c := ReadCell(data, pos);
          if c.BadCell? then Bad(c.fault) else At(c.hash.next)
  }

  /** The position behind the cells, or what comes of data that cannot be read. */
  function ReadEnd(data: Bytes): (r: End)
    ensures r.At? ==> |data| >= 4
  {
    if |data| < 4 then Bad(Panic) else ReadTo(data, CellsOf(data), 16)
  }

  lemma {:induction false} ReadToBad(data: Bytes, cells: ChildMap, m: nat, n: nat)
    requires |data| >= 4 && m <= n <= 16 && ReadTo(data, cells, m).Bad?
    ensures ReadTo(data, cells, n) == ReadTo(data, cells, m)
  {
    if m < n {
      ReadToBad(data, cells, m, n - 1);
    }
  }

  // ---- cells as they are written

  /** The stored parts of a cell; an absent field has no flag. */
  datatype Field = Absent | Present(bytes: Bytes)

  datatype Stored = Stored(key: Field, account: Field, storage: Field, hash: Field)

  function Bit(f: Field, weight: nat): nat { if f.Present? then weight else 0 }

  function FlagsOf(s: Stored): nat { Bit(s.key, 1) + Bit(s.account, 2) + Bit(s.storage, 4) + Bit(s.hash, 8) }

  function EncodeField(f: Field): Bytes { if f.Present? then PutUvarint(|f.bytes|) + f.bytes else [] }

  function EncodeStored(s: Stored): Bytes {
    [FlagsOf(s)] + EncodeField(s.key) + EncodeField(s.account) + EncodeField(s.storage) + EncodeField(s.hash)
  }

  predicate Short(f: Field) { f.Present? ==> |f.bytes| < MAX_LENGTH }

  predicate StoredOk(s: Stored) { Short(s.key) && Short(s.account) && Short(s.storage) && Short(s.hash) }

  function ValueOf(f: Field): Bytes { if f.Present? then f.bytes else [] }

  lemma FlagDigits(s: Stored)
    ensures Digit(FlagsOf(s), 0) == s.key.Present? && Digit(FlagsOf(s), 1) == s.account.Present?
    ensures Digit(FlagsOf(s), 2) == s.storage.Present? && Digit(FlagsOf(s), 3) == s.hash.Present?
    ensures Ones(FlagsOf(s)) == Bit(s.key, 1) + Bit(s.account, 1) + Bit(s.storage, 1) + Bit(s.hash, 1)
  {
    var z := Bit(s.storage, 1) + 2 * Bit(s.hash, 1);
    var y := Bit(s.account, 1) + 2 * z;
    TwoDigits(z, Bit(s.storage, 1), Bit(s.hash, 1));
    FirstDigit(y, Bit(s.account, 1), z);
    FirstDigit(FlagsOf(s), Bit(s.key, 1), y);
  }

  lemma {:induction false} TwoDigits(x: nat, b: nat, c: nat)
    requires x == b + 2 * c && b <= 1 && c <= 1
    ensures Digit(x, 0) == (b == 1) && Digit(x, 1) == (c == 1) && Ones(x) == b + c
  {
    FirstDigit(x, b, c);
    FirstDigit(c, c, 0);
    assert Ones(0) == 0;
  }

  lemma {:induction false} FirstDigit(x: nat, b: nat, y: nat)
    requires x == b + 2 * y && b <= 1
    ensures Digit(x, 0) == (b == 1) && Ones(x) == b + Ones(y)
    ensures Digit(x, 1) == Digit(y, 0) && Digit(x, 2) == Digit(y, 1) && Digit(x, 3) == Digit(y, 2)
  {
    assert x % 2 == b && x / 2 == y;
  }

  /** A written field is read back. */
  lemma {:induction false} FieldWritten(f: Field, data: Bytes, pos: nat)
    requires Short(f) && pos <= |data| && Same(EncodeField(f), 0, data, pos, |EncodeField(f)|)
    ensures OptField(data, pos, f.Present?) == FieldRead(ValueOf(f), EncodeField(f), pos + |EncodeField(f)|)
    ensures f.Present? ==> FieldEnd(data, pos) == At(pos + |EncodeField(f)|)
  {
    if f.Present? {
      var put, enc := PutUvarint(|f.bytes|), EncodeField(f);
      assert Same(put, 0, data, pos, |put|) by {
        forall k {:trigger put[k]} | 0 <= k < |put| ensures put[k] == data[pos + (k - 0)] {
          assert enc[k] == data[pos + k];
        }
      }
      LimitIs64Bits();
      PutRead(data, pos, |f.bytes|, 0);
      var next := pos + |put|;
      forall k | 0 <= k < |f.bytes| ensures f.bytes[k] == Piece(data, next, next + |f.bytes|)[k] {
        assert enc[|put| + k] == data[pos + (|put| + k)];
      }
      assert Piece(data, next, next + |f.bytes|) == f.bytes;
      forall k | 0 <= k < |enc| ensures enc[k] == Piece(data, pos, pos + |enc|)[k] {
        assert enc[k] == data[pos + k];
      }
      assert Piece(data, pos, pos + |enc|) == enc;
    }
  }

  /** Where the parts of a written cell stand. */
  lemma PartsOf(a: Bytes, b: Bytes, c: Bytes, d: Bytes, e: Bytes, data: Bytes, pos: nat)
    requires Same(a + b + c + d + e, 0, data, pos, |a| + |b| + |c| + |d| + |e|)
    ensures Same(a, 0, data, pos, |a|) && Same(b, 0, data, pos + |a|, |b|) && Same(c, 0, data, pos + |a| + |b|, |c|)
    ensures Same(d, 0, data, pos + |a| + |b| + |c|, |d|) && Same(e, 0, data, pos + |a| + |b| + |c| + |d|, |e|)
  {
    var all := a + b + c + d + e;
    forall i {:trigger a[i]} | 0 <= i < |a| ensures a[i] == data[pos + (i - 0)] {
      assert all[i] == data[pos + i];
    }
    forall i {:trigger b[i]} | 0 <= i < |b| ensures b[i] == data[pos + |a| + (i - 0)] {
      assert all[|a| + i] == data[pos + (|a| + i)];
    }
    forall i {:trigger c[i]} | 0 <= i < |c| ensures c[i] == data[pos + |a| + |b| + (i - 0)] {
      assert all[|a| + |b| + i] == data[pos + (|a| + |b| + i)];
    }
    forall i {:trigger d[i]} | 0 <= i < |d| ensures d[i] == data[pos + |a| + |b| + |c| + (i - 0)] {
      assert all[|a| + |b| + |c| + i] == data[pos + (|a| + |b| + |c| + i)];
    }
    forall i {:trigger e[i]} | 0 <= i < |e| ensures e[i] == data[pos + |a| + |b| + |c| + |d| + (i - 0)] {
      assert all[|a| + |b| + |c| + |d| + i] == data[pos + (|a| + |b| + |c| + |d| + i)];
    }
  }

  /** What reading a written cell gives. */
  ghost predicate ReadsAs(r: CellRead, s: Stored, end: nat) {
    && r.CellRead? && r.flags == FlagsOf(s) && r.key.FieldRead? && r.account.FieldRead? && r.storage.FieldRead?
    && r.hash.FieldRead?
    && r.key.value == ValueOf(s.key) && r.key.raw == EncodeField(s.key) && r.account.value == ValueOf(s.account)
    && r.storage.value == ValueOf(s.storage) && r.hash.value == ValueOf(s.hash) && r.hash.raw == EncodeField(s.hash)
    && r.hash.next == end
  }

  /** A field stands at a position. */
  ghost predicate Stands(f: Field, data: Bytes, pos: nat, next: nat) {
    next == pos + |EncodeField(f)| <= |data| && Same(EncodeField(f), 0, data, pos, |EncodeField(f)|)
  }

  lemma {:induction false} StoredParts(s: Stored, data: Bytes, pos: nat) returns (p1: nat, p2: nat, p3: nat, p4: nat)
    requires Same(EncodeStored(s), 0, data, pos, |EncodeStored(s)|)
    ensures data[pos] == FlagsOf(s) && p4 == pos + |EncodeStored(s)|
    ensures Stands(s.key, data, pos + 1, p1) && Stands(s.account, data, p1, p2) && Stands(s.storage, data, p2, p3)
    ensures Stands(s.hash, data, p3, p4)
  {
    var k, a, t, h := EncodeField(s.key), EncodeField(s.account), EncodeField(s.storage), EncodeField(s.hash);
    p1 := pos + 1 + |k|;
    p2 := p1 + |a|;
    p3 := p2 + |t|;
    p4 := p3 + |h|;
    PartsOf([FlagsOf(s)], k, a, t, h, data, pos);
    assert [FlagsOf(s)][0] == data[pos];
  }

  /** The fields of a written cell, read one after the other. */
  lemma {:induction false} FieldsWritten(s: Stored, data: Bytes, pos: nat) returns (p1: nat, p2: nat, p3: nat, p4: nat)
    requires StoredOk(s) && Same(EncodeStored(s), 0, data, pos, |EncodeStored(s)|)
    ensures pos + 1 <= p1 <= p2 <= p3 <= p4 == pos + |EncodeStored(s)| <= |data| && data[pos] == FlagsOf(s)
    ensures OptField(data, pos + 1, s.key.Present?) == FieldRead(ValueOf(s.key), EncodeField(s.key), p1)
    ensures OptField(data, p1, s.account.Present?) == FieldRead(ValueOf(s.account), EncodeField(s.account), p2)
    ensures OptField(data, p2, s.storage.Present?) == FieldRead(ValueOf(s.storage), EncodeField(s.storage), p3)
    ensures OptField(data, p3, s.hash.Present?) == FieldRead(ValueOf(s.hash), EncodeField(s.hash), p4)
  {
    p1, p2, p3, p4 := StoredParts(s, data, pos);
    FieldWritten(s.key, data, pos + 1);
    FieldWritten(s.account, data, p1);
    FieldWritten(s.storage, data, p2);
    FieldWritten(s.hash, data, p3);
  }

  lemma {:induction false} CellWritten(s: Stored, data: Bytes, pos: nat)
    requires StoredOk(s) && Same(EncodeStored(s), 0, data, pos, |EncodeStored(s)|)
    ensures ReadsAs(ReadCell(data, pos), s, pos + |EncodeStored(s)|)
  {
    var p1, p2, p3, p4 := FieldsWritten(s, data, pos);
    FlagDigits(s);
  }

  lemma {:induction false} CellWrittenEnd(s: Stored, data: Bytes, pos: nat)
    requires StoredOk(s) && Same(EncodeStored(s), 0, data, pos, |EncodeStored(s)|)
    ensures CellEnd(data, pos) == At(pos + |EncodeStored(s)|)
  {
    var p1, p2, p3, p4 := FieldsWritten(s, data, pos);
    assert Ones(data[pos]) == Bit(s.key, 1) + Bit(s.account, 1) + Bit(s.storage, 1) + Bit(s.hash, 1) by {
      FlagDigits(s);
    }
    FourFields(s, data, pos + 1, p1, p2, p3, p4);
  }

  /** A field that is read ends where the next one starts. */
  ghost predicate ReadsTo(f: Field, data: Bytes, p: nat, q: nat) {
    p <= q <= |data| && OptField(data, p, f.Present?) == FieldRead(ValueOf(f), EncodeField(f), q)
  }

  lemma {:induction false} FourFields(s: Stored, data: Bytes, p0: nat, p1: nat, p2: nat, p3: nat, p4: nat)
    requires ReadsTo(s.key, data, p0, p1) && ReadsTo(s.account, data, p1, p2) && ReadsTo(s.storage, data, p2, p3)
    requires ReadsTo(s.hash, data, p3, p4)
    ensures FieldsEnd(data, p0, Bit(s.key, 1) + Bit(s.account, 1) + Bit(s.storage, 1) + Bit(s.hash, 1)) == At(p4)
  {
    TwoFields(s.storage, s.hash, data, p2, p3, p4, 0, p4);
    TwoFields(s.key, s.account, data, p0, p1, p2, Bit(s.storage, 1) + Bit(s.hash, 1), p4);
  }

  lemma {:induction false} TwoFields(f: Field, g: Field, data: Bytes, p: nat, q: nat, r: nat, n: nat, end: nat)
    requires ReadsTo(f, data, p, q) && ReadsTo(g, data, q, r) && FieldsEnd(data, r, n) == At(end)
    ensures FieldsEnd(data, p, Bit(f, 1) + Bit(g, 1) + n) == At(end)
  {
    OneField(g, data, q, r, n, end);
    OneField(f, data, p, q, Bit(g, 1) + n, end);
  }

  lemma {:induction false} OneField(f: Field, data: Bytes, p: nat, q: nat, n: nat, end: nat)
    requires ReadsTo(f, data, p, q)
    requires FieldsEnd(data, q, n) == At(end)
    ensures FieldsEnd(data, p, Bit(f, 1) + n) == At(end)
  {}
}
