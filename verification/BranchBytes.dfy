/** The bytes of branch data: two 16-bit maps of children, then for each child that is both
    touched and present a cell, that is a byte of flags and a field for each flag. */
module BranchBytes {

  type Bytes = seq<nat>

  // ---- maps of children

  type ChildMap = m: seq<bool> | |m| == 16 witness seq(16, _ => false)

  function And(a: ChildMap, b: ChildMap): (r: ChildMap)
    ensures forall i :: 0 <= i < 16 ==> r[i] == (a[i] && b[i])
  {
    seq(16, i requires 0 <= i < 16 => a[i] && b[i])
  }

  function Or(a: ChildMap, b: ChildMap): (r: ChildMap)
    ensures forall i :: 0 <= i < 16 ==> r[i] == (a[i] || b[i])
  {
    seq(16, i requires 0 <= i < 16 => a[i] || b[i])
  }

  /** The number whose binary digits, lowest first, are the map from place i on. */
  function NumberOf(m: seq<bool>, i: nat): nat
    requires i <= |m|
    decreases |m| - i
  {
    if i == |m| then 0 else (if m[i] then 1 else 0) + 2 * NumberOf(m, i + 1)
  }

  function Digit(x: nat, i: nat): bool
    decreases i
  {
    if i == 0 then x % 2 == 1 else Digit(x / 2, i - 1)
  }

  function MapOf(x: nat): (m: ChildMap)
    ensures forall i :: 0 <= i < 16 ==> m[i] == Digit(x, i)
  {
    seq(16, i requires 0 <= i < 16 => Digit(x, i))
  }

  lemma {:induction false} DigitOfNumber(m: seq<bool>, i: nat, j: nat)
    requires i + j < |m|
    ensures Digit(NumberOf(m, i), j) == m[i + j]
    decreases j
  {
    var rest := NumberOf(m, i + 1);
    assert NumberOf(m, i) % 2 == (if m[i] then 1 else 0) && NumberOf(m, i) / 2 == rest;
    if j > 0 {
      DigitOfNumber(m, i + 1, j - 1);
    }
  }

  lemma {:induction false} MapOfNumber(m: ChildMap)
    ensures MapOf(NumberOf(m, 0)) == m
  {
    forall j | 0 <= j < 16 ensures MapOf(NumberOf(m, 0))[j] == m[j] {
      DigitOfNumber(m, 0, j);
    }
  }

  /** PutUint16, twice. */
  function Header(touch: ChildMap, after: ChildMap): (h: Bytes)
    ensures |h| == 4 && h[1] < 256 && h[3] < 256
    ensures 256 * h[0] + h[1] == NumberOf(touch, 0) && 256 * h[2] + h[3] == NumberOf(after, 0)
  {
    var t, a := NumberOf(touch, 0), NumberOf(after, 0);
    [t / 256, t % 256, a / 256, a % 256]
  }

  function TouchOf(data: Bytes): ChildMap
    requires |data| >= 4
  {
    MapOf(256 * data[0] + data[1])
  }

  function AfterOf(data: Bytes): ChildMap
    requires |data| >= 4
  {
    MapOf(256 * data[2] + data[3])
  }

  /** The children with a cell. */
  function CellsOf(data: Bytes): ChildMap
    requires |data| >= 4
  {
    And(TouchOf(data), AfterOf(data))
  }

  /** Uint16 reads back what PutUint16 wrote. */
  lemma {:induction false} HeaderRead(touch: ChildMap, after: ChildMap, data: Bytes)
    requires |data| >= 4 && forall i :: 0 <= i < 4 ==> data[i] == Header(touch, after)[i]
    ensures TouchOf(data) == touch && AfterOf(data) == after
  {
    var t, a := NumberOf(touch, 0), NumberOf(after, 0);
    assert data[0] == t / 256 && data[1] == t % 256 && data[2] == a / 256 && data[3] == a % 256;
    MapOfNumber(touch);
    MapOfNumber(after);
  }

  // ---- numbers and fields

  datatype Number = NoNumber | Number(value: nat, next: nat)

  /** binary.Uvarint at a position; i bytes of the number have been read. No number: the data
      ends too soon, or the number has more than 64 bits. */
  function Uvarint(data: Bytes, pos: nat, i: nat): (r: Number)
    ensures r.Number? ==> pos < r.next <= |data|
    decreases |data| - pos
  {
    if pos >= |data| || i == 10 then NoNumber
    else if data[pos] < 128 then (if i == 9 && data[pos] > 1 then NoNumber else Number(data[pos], pos + 1))
    else match Uvarint(data, pos + 1, i + 1)
      case NoNumber => NoNumber
      case Number(v, next) => Number(data[pos] - 128 + 128 * v, next)
  }

  /** What comes of data that cannot be read: an index out of range, or an error. */
  datatype Fault = Panic | Error

  datatype End = Bad(fault: Fault) | At(pos: nat)

  /** Where a field ends: behind its length and that many bytes. */
  function FieldEnd(data: Bytes, pos: nat): (r: End)
    ensures r.At? ==> pos < r.pos <= |data|
  {
    match Uvarint(data, pos, 0)
    case NoNumber => Bad(Error)
    case Number(len, next) => if |data| < next + len then Bad(Error) else At(next + len)
  }

  function FieldsEnd(data: Bytes, pos: nat, n: nat): (r: End)
    requires pos <= |data|
    ensures r.At? ==> pos <= r.pos <= |data|
    decreases n
  {
    if n == 0 then At(pos)
    else match FieldEnd(data, pos)
      case Bad(fault) => Bad(fault)
      case At(next) => FieldsEnd(data, next, n - 1)
  }

  /** bits.OnesCount8. */
  function Ones(flags: nat): nat { if flags == 0 then 0 else flags % 2 + Ones(flags / 2) }

  /** Where the cell at a position ends. */
  function CellEnd(data: Bytes, pos: nat): (r: End)
    ensures r.At? ==> pos < r.pos <= |data|
  {
    if pos >= |data| then Bad(Panic) else FieldsEnd(data, pos + 1, Ones(data[pos]))
  }

  /** The position behind the cells of the first n children. */
  function Scan(data: Bytes, cells: ChildMap, n: nat): (r: End)
    requires |data| >= 4 && n <= 16
    ensures r.At? ==> 4 <= r.pos <= |data|
  {
    if n == 0 then At(4)
    else match Scan(data, cells, n - 1)
      case Bad(fault) => Bad(fault)
      case At(pos) => if cells[n - 1] then CellEnd(data, pos) else At(pos)
  }

  lemma {:induction false} ScanBad(data: Bytes, cells: ChildMap, m: nat, n: nat)
    requires |data| >= 4 && m <= n <= 16 && Scan(data, cells, m).Bad?
    ensures Scan(data, cells, n) == Scan(data, cells, m)
  {
    if m < n {
      ScanBad(data, cells, m, n - 1);
    }
  }

  lemma {:induction false} ScanGood(data: Bytes, cells: ChildMap, m: nat, n: nat)
    requires |data| >= 4 && m <= n <= 16 && Scan(data, cells, n).At?
    ensures Scan(data, cells, m).At?
  {
    if Scan(data, cells, m).Bad? {
      ScanBad(data, cells, m, n);
    }
  }

  /** A piece of the data. */
  function Piece(data: Bytes, start: nat, end: nat): (r: Bytes)
    requires start <= end <= |data|
    ensures |r| == end - start && forall i :: 0 <= i < |r| ==> r[i] == data[start + i]
  {
    seq(end - start, i requires 0 <= i < end - start => data[start + i])
  }

  // ---- parsing looks at no more than what it passes

  ghost predicate Same(d: Bytes, p: nat, e: Bytes, q: nat, len: nat) {
    p + len <= |d| && q + len <= |e| && forall i {:trigger d[i]} :: p <= i < p + len ==> d[i] == e[q + (i - p)]
  }

  lemma SameRest(d: Bytes, p: nat, e: Bytes, q: nat, len: nat, k: nat)
    requires Same(d, p, e, q, len) && k <= len
    ensures Same(d, p + k, e, q + k, len - k) && Same(d, p, e, q, k)
  {
  }

  lemma {:induction false} UvarintLocal(d: Bytes, p: nat, e: Bytes, q: nat, i: nat)
    requires Uvarint(d, p, i).Number? && Same(d, p, e, q, Uvarint(d, p, i).next - p)
    ensures Uvarint(e, q, i) == Number(Uvarint(d, p, i).value, q + (Uvarint(d, p, i).next - p))
    decreases |d| - p
  {
    assert d[p] == e[q];
    if d[p] >= 128 {
      SameRest(d, p, e, q, Uvarint(d, p, i).next - p, 1);
      UvarintLocal(d, p + 1, e, q + 1, i + 1);
    }
  }

  lemma {:induction false} FieldLocal(d: Bytes, p: nat, e: Bytes, q: nat)
    requires FieldEnd(d, p).At? && Same(d, p, e, q, FieldEnd(d, p).pos - p)
    ensures FieldEnd(e, q) == At(q + (FieldEnd(d, p).pos - p))
  {
    SameRest(d, p, e, q, FieldEnd(d, p).pos - p, Uvarint(d, p, 0).next - p);
    UvarintLocal(d, p, e, q, 0);
  }

  lemma {:induction false} FieldsLocal(d: Bytes, p: nat, e: Bytes, q: nat, n: nat)
    requires p <= |d| && q <= |e| && FieldsEnd(d, p, n).At? && Same(d, p, e, q, FieldsEnd(d, p, n).pos - p)
    ensures FieldsEnd(e, q, n) == At(q + (FieldsEnd(d, p, n).pos - p))
    decreases n
  {
    if n > 0 {
      var next := FieldEnd(d, p).pos;
      SameRest(d, p, e, q, FieldsEnd(d, p, n).pos - p, next - p);
      FieldLocal(d, p, e, q);
      FieldsLocal(d, next, e, q + (next - p), n - 1);
    }
  }

  /** A cell is read the same wherever it stands. */
  lemma {:induction false} CellLocal(d: Bytes, p: nat, e: Bytes, q: nat)
    requires CellEnd(d, p).At? && Same(d, p, e, q, CellEnd(d, p).pos - p)
    ensures CellEnd(e, q) == At(q + (CellEnd(d, p).pos - p))
  {
    assert d[p] == e[q];
    SameRest(d, p, e, q, CellEnd(d, p).pos - p, 1);
    FieldsLocal(d, p + 1, e, q + 1, Ones(d[p]));
  }

  // ---- updates

  /** What branch data says: which children are touched, which are present afterwards, and
      the cells of those that are both. */
  datatype Update = Update(touch: ChildMap, after: ChildMap, cells: seq<Bytes>)

  ghost predicate IsCell(c: Bytes) { CellEnd(c, 0) == At(|c|) }

  ghost predicate UpdateOk(u: Update) {
    && |u.cells| == 16
    && forall n {:trigger u.cells[n]} :: 0 <= n < 16 ==>
        if u.touch[n] && u.after[n] then IsCell(u.cells[n]) else u.cells[n] == []
  }

  /** The bytes of the cells of the first n children. */
  function Joined(cells: seq<Bytes>, n: nat): Bytes
    requires n <= |cells|
  {
    if n == 0 then [] else Joined(cells, n - 1) + cells[n - 1]
  }

  function Encode(u: Update): Bytes
    requires |u.cells| == 16
  {
    Header(u.touch, u.after) + Joined(u.cells, 16)
  }

  ghost predicate Readable(data: Bytes) { |data| >= 4 && Scan(data, CellsOf(data), 16).At? }

  /** The cell of child n. */
  function CellAt(data: Bytes, n: nat): (c: Bytes)
    requires Readable(data) && n < 16
  {
    ScanGood(data, CellsOf(data), n, 16);
    ScanGood(data, CellsOf(data), n + 1, 16);
    Piece(data, Scan(data, CellsOf(data), n).pos, Scan(data, CellsOf(data), n + 1).pos)
  }

  function Decode(data: Bytes): (u: Update)
    requires Readable(data)
  {
    Update(TouchOf(data), AfterOf(data), seq(16, n requires 0 <= n < 16 => CellAt(data, n)))
  }

  lemma {:induction false} DecodeOk(data: Bytes)
    requires Readable(data)
    ensures UpdateOk(Decode(data))
  {
    var u := Decode(data);
    forall n {:trigger u.cells[n]} | 0 <= n < 16
      ensures if u.touch[n] && u.after[n] then IsCell(u.cells[n]) else u.cells[n] == [] {
      ScanGood(data, CellsOf(data), n, 16);
      ScanGood(data, CellsOf(data), n + 1, 16);
      if u.touch[n] && u.after[n] {
        var pos := Scan(data, CellsOf(data), n).pos;
        CellLocal(data, pos, u.cells[n], 0);
      }
    }
  }

  lemma {:induction false} JoinedPlace(cells: seq<Bytes>, m: nat, n: nat)
    requires m < n <= |cells|
    ensures |Joined(cells, m + 1)| <= |Joined(cells, n)|
    ensures Same(cells[m], 0, Joined(cells, n), |Joined(cells, m)|, |cells[m]|)
  {
    if m < n - 1 {
      JoinedPlace(cells, m, n - 1);
    }
  }

  lemma {:induction false} ScanEncoded(u: Update, n: nat)
    requires UpdateOk(u) && n <= 16
    ensures TouchOf(Encode(u)) == u.touch && AfterOf(Encode(u)) == u.after
    ensures Scan(Encode(u), CellsOf(Encode(u)), n) == At(4 + |Joined(u.cells, n)|)
  {
    var data := Encode(u);
    HeaderRead(u.touch, u.after, data);
    if n > 0 {
      ScanEncoded(u, n - 1);
      var cell, pos := u.cells[n - 1], 4 + |Joined(u.cells, n - 1)|;
      JoinedPlace(u.cells, n - 1, 16);
      if u.touch[n - 1] && u.after[n - 1] {
        assert IsCell(cell);
        InEncoded(u, cell, |Joined(u.cells, n - 1)|);
        CellLocal(cell, 0, data, pos);
      }
    }
  }

  lemma InEncoded(u: Update, cell: Bytes, q: nat)
    requires |u.cells| == 16 && Same(cell, 0, Joined(u.cells, 16), q, |cell|)
    ensures Same(cell, 0, Encode(u), 4 + q, |cell|)
  {
    var h, j := Header(u.touch, u.after), Joined(u.cells, 16);
    forall i {:trigger cell[i]} | 0 <= i < |cell| ensures cell[i] == Encode(u)[4 + q + (i - 0)] {
      assert cell[i] == j[q + i];
    }
  }

  /** Branch data is read back as it was written. */
  lemma {:induction false} DecodeEncode(u: Update)
    requires UpdateOk(u)
    ensures Readable(Encode(u)) && Decode(Encode(u)) == u
  {
    var data := Encode(u);
    ScanEncoded(u, 16);
    forall n | 0 <= n < 16 ensures CellAt(data, n) == u.cells[n] {
      CellEncoded(u, n);
    }
  }

  lemma {:induction false} CellEncoded(u: Update, n: nat)
    requires UpdateOk(u) && Readable(Encode(u)) && n < 16
    ensures CellAt(Encode(u), n) == u.cells[n]
  {
    ScanEncoded(u, n);
    ScanEncoded(u, n + 1);
    JoinedPlace(u.cells, n, 16);
    InEncoded(u, u.cells[n], |Joined(u.cells, n)|);
    PieceIs(Encode(u), 4 + |Joined(u.cells, n)|, u.cells[n]);
  }

  lemma PieceIs(data: Bytes, pos: nat, cell: Bytes)
    requires Same(cell, 0, data, pos, |cell|)
    ensures Piece(data, pos, pos + |cell|) == cell
  {
    forall i | 0 <= i < |cell| ensures Piece(data, pos, pos + |cell|)[i] == cell[i] {
      assert cell[i] == data[pos + i];
    }
  }
}
