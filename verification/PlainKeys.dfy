/** Taking the plain keys out of branch data, and putting others in their place. */
module PlainKeys {
  import opened Options
  import opened BranchBytes
  import opened BranchCells
  import opened BranchCodec
  import opened Sums

  /** The cell of child n, if there is one. */
  function ChildRead(data: Bytes, n: nat): (r: CellRead)
    requires |data| >= 4 && n < 16
    ensures r.CellRead? ==> r.key.FieldRead? && r.account.FieldRead? && r.storage.FieldRead? && r.hash.FieldRead?
  {
    var at := ReadTo(data, CellsOf(data), n);
    if at.Bad? || !CellsOf(data)[n] then NoCell else ReadCell(data, at.pos)
  }

  function AccountKey(data: Bytes, n: nat): seq<Bytes>
    requires |data| >= 4 && n < 16
  {
    var c := ChildRead(data, n);
    if c.CellRead? && Digit(c.flags, ACCOUNT_PLAIN_PART) then [c.account.value] else []
  }

  function StorageKey(data: Bytes, n: nat): seq<Bytes>
    requires |data| >= 4 && n < 16
  {
    var c := ChildRead(data, n);
    if c.CellRead? && Digit(c.flags, STORAGE_PLAIN_PART) then [c.storage.value] else []
  }

  /** The account keys in the cells of the first n children. */
  function AccountKeys(data: Bytes, n: nat): seq<Bytes>
    requires |data| >= 4 && n <= 16
  {
    if n == 0 then [] else AccountKeys(data, n - 1) + AccountKey(data, n - 1)
  }

  function StorageKeys(data: Bytes, n: nat): seq<Bytes>
    requires |data| >= 4 && n <= 16
  {
    if n == 0 then [] else StorageKeys(data, n - 1) + StorageKey(data, n - 1)
  }

  datatype Keys = NoKeys(fault: Fault) | Keys(accounts: seq<Bytes>, storages: seq<Bytes>)

  ghost predicate ExtractedTo(data: Bytes, pos: nat, accounts: seq<Bytes>, storages: seq<Bytes>, n: nat) {
    && |data| >= 4 && n <= 16 && ReadTo(data, CellsOf(data), n) == At(pos)
    && accounts == AccountKeys(data, n) && storages == StorageKeys(data, n)
  }

  /** ExtractPlainKeys: the keys in the order of their children. */
  method ExtractPlainKeys(data: Bytes) returns (r: Keys)
    ensures r.Keys? <==> ReadEnd(data).At?
    ensures r.Keys? ==> r.accounts == AccountKeys(data, 16) && r.storages == StorageKeys(data, 16)
    ensures r.NoKeys? ==> ReadEnd(data) == Bad(r.fault)
  {
    if |data| < 4 {
      return NoKeys(Panic);
    }
    var accounts: seq<Bytes>, storages: seq<Bytes>, pos: nat := [], [], 4;
    for n := 0 to 16
      invariant ExtractedTo(data, pos, accounts, storages, n)
    {
      var end;
      end, accounts, storages := ExtractChild(data, pos, accounts, storages, n);
      if end.Bad? {
        ReadToBad(data, CellsOf(data), n + 1, 16);
        return NoKeys(end.fault);
      }
      pos := end.pos;
    }
    r := Keys(accounts, storages);
  }

  /** The keys of the cell of child n, if it has one. */
  method ExtractChild(data: Bytes, pos: nat, accounts: seq<Bytes>, storages: seq<Bytes>, n: nat)
      returns (end: End, accounts': seq<Bytes>, storages': seq<Bytes>)
    requires ExtractedTo(data, pos, accounts, storages, n) && n < 16
    ensures end == ReadTo(data, CellsOf(data), n + 1)
    ensures end.At? ==> accounts' == AccountKeys(data, n + 1) && storages' == StorageKeys(data, n + 1)
  {
    end, accounts', storages' := At(pos), accounts, storages;
    if CellsOf(data)[n] {
      var c := ReadCell(data, pos);
      if c.BadCell? {
        end := Bad(c.fault);
        return;
      }
      if Digit(c.flags, ACCOUNT_PLAIN_PART) {
        accounts' := accounts + [c.account.value];
      }
      if Digit(c.flags, STORAGE_PLAIN_PART) {
        storages' := storages + [c.storage.value];
      }
      end := At(c.hash.next);
    }
  }

  /** The field for a new key. */
  function NewField(present: bool, keys: seq<Bytes>, i: nat): Bytes {
    if present && i < |keys| then EncodeField(Present(keys[i])) else []
  }

  /** A cell with the i-th account key and the j-th storage key. */
  function NewBytes(c: CellRead, accounts: seq<Bytes>, i: nat, storages: seq<Bytes>, j: nat): Bytes
    requires c.CellRead? && c.key.FieldRead? && c.hash.FieldRead?
  {
    [c.flags] + c.key.raw + NewField(Digit(c.flags, ACCOUNT_PLAIN_PART), accounts, i) +
        NewField(Digit(c.flags, STORAGE_PLAIN_PART), storages, j) + c.hash.raw
  }

  function NewCell(data: Bytes, n: nat, accounts: seq<Bytes>, i: nat, storages: seq<Bytes>, j: nat): Bytes
    requires |data| >= 4 && n < 16
  {
    var c := ChildRead(data, n);
    if c.CellRead? then NewBytes(c, accounts, i, storages, j) else []
  }

  /** The new cells of the first n children. */
  function NewCells(data: Bytes, accounts: seq<Bytes>, storages: seq<Bytes>, n: nat): Bytes
    requires |data| >= 4 && n <= 16
  {
    if n == 0 then []
    else
      var i, j := |AccountKeys(data, n - 1)|, |StorageKeys(data, n - 1)|;
      NewCells(data, accounts, storages, n - 1) + NewCell(data, n - 1, accounts, i, storages, j)
  }

  /** The data with its keys replaced; every other byte stays. */
  function Replaced(data: Bytes, accounts: seq<Bytes>, storages: seq<Bytes>): (r: Bytes)
    requires |data| >= 4
    ensures |r| >= 4
  {
    Piece(data, 0, 4) + NewCells(data, accounts, storages, 16)
  }

  /** What stops at a cell, where i account keys and j storage keys have been used: a field that cannot be read, or a
      key that is missing, whatever comes first. */
  function CellFault(data: Bytes, pos: nat, accounts: seq<Bytes>, i: nat, storages: seq<Bytes>, j: nat): Option<Fault> {
    if pos >= |data| then Some(Panic)
    else
      var hasAccount, hasStorage := Digit(data[pos], ACCOUNT_PLAIN_PART), Digit(data[pos], STORAGE_PLAIN_PART);
      var key := OptField(data, pos + 1, Digit(data[pos], HASHED_KEY_PART));
      if key.NoField? then Some(Error)
      else
        var account := OptField(data, key.next, hasAccount);
        if account.NoField? then Some(Error)
        else if hasAccount && i >= |accounts| then Some(Panic)
        else
          var storage := OptField(data, account.next, hasStorage);
          if storage.NoField? then Some(Error)
          else if hasStorage && j >= |storages| then Some(Panic)
          else if OptField(data, storage.next, Digit(data[pos], HASH_PART)).NoField? then Some(Error)
          else None
  }

  /** What stops at the cells of the first n children. */
  function ReplaceFault(data: Bytes, accounts: seq<Bytes>, storages: seq<Bytes>, n: nat): Option<Fault>
    requires |data| >= 4 && n <= 16
  {
    if n == 0 then None
    else
      var before, at := ReplaceFault(data, accounts, storages, n - 1), ReadTo(data, CellsOf(data), n - 1);
      if before.Some? || at.Bad? || !CellsOf(data)[n - 1] then before
      else CellFault(data, at.pos, accounts, |AccountKeys(data, n - 1)|, storages, |StorageKeys(data, n - 1)|)
  }

  ghost predicate Replaceable(data: Bytes, accounts: seq<Bytes>, storages: seq<Bytes>, n: nat)
    requires |data| >= 4 && n <= 16
  {
    ReadTo(data, CellsOf(data), n).At? && |AccountKeys(data, n)| <= |accounts| && |StorageKeys(data, n)| <= |storages|
  }

  lemma {:induction false} ReplaceNext(data: Bytes, accounts: seq<Bytes>, storages: seq<Bytes>, n: nat)
    requires |data| >= 4 && n < 16
    requires ReplaceFault(data, accounts, storages, n).None? <==> Replaceable(data, accounts, storages, n)
    ensures ReplaceFault(data, accounts, storages, n + 1).None? <==> Replaceable(data, accounts, storages, n + 1)
  {
    if ReplaceFault(data, accounts, storages, n).None? && CellsOf(data)[n] {
      CellFaultNone(data, ReadTo(data, CellsOf(data), n).pos, accounts, |AccountKeys(data, n)|, storages,
          |StorageKeys(data, n)|);
    }
  }

  lemma CellFaultNone(data: Bytes, pos: nat, accounts: seq<Bytes>, i: nat, storages: seq<Bytes>, j: nat)
    requires i <= |accounts| && j <= |storages|
    ensures CellFault(data, pos, accounts, i, storages, j).None? <==>
        (var c := ReadCell(data, pos);
         c.CellRead? && (Digit(c.flags, ACCOUNT_PLAIN_PART) ==> i < |accounts|)
         && (Digit(c.flags, STORAGE_PLAIN_PART) ==> j < |storages|))
  {
  }

  /** The first fault stays, and there is none exactly if the data can be read and there are enough keys. */
  lemma {:induction false} ReplaceStops(data: Bytes, accounts: seq<Bytes>, storages: seq<Bytes>, m: nat, n: nat)
    requires |data| >= 4 && m <= n <= 16
    ensures ReplaceFault(data, accounts, storages, m).Some? ==>
        ReplaceFault(data, accounts, storages, n) == ReplaceFault(data, accounts, storages, m)
    ensures ReplaceFault(data, accounts, storages, n).None? <==> Replaceable(data, accounts, storages, n)
    decreases n
  {
    if n > 0 {
      ReplaceStops(data, accounts, storages, if m < n then m else n - 1, n - 1);
      ReplaceNext(data, accounts, storages, n - 1);
    }
  }

  datatype Result = Failed(fault: Fault) | Ok(data: Bytes)

  /** What has been written when the cells of the first n children have their new keys. */
  ghost predicate ReplacedTo(data: Bytes, accounts: seq<Bytes>, storages: seq<Bytes>, out: Bytes, pos: nat, i: nat,
                             j: nat, n: nat) {
    && |data| >= 4 && n <= 16 && ReadTo(data, CellsOf(data), n) == At(pos)
    && i == |AccountKeys(data, n)| <= |accounts| && j == |StorageKeys(data, n)| <= |storages|
    && ReplaceFault(data, accounts, storages, n) == None
    && out == Piece(data, 0, 4) + NewCells(data, accounts, storages, n)
  }

  /** ReplacePlainKeys. */
  method ReplacePlainKeys(data: Bytes, accounts: seq<Bytes>, storages: seq<Bytes>) returns (r: Result)
    ensures r.Ok? <==> |data| >= 4 && Replaceable(data, accounts, storages, 16)
    ensures r.Ok? ==> r.data == Replaced(data, accounts, storages)
    ensures r.Failed? ==>
      if |data| < 4 then r.fault == Panic else ReplaceFault(data, accounts, storages, 16) == Some(r.fault)
  {
    if |data| < 4 {
      return Failed(Panic);
    }
    ReplaceStops(data, accounts, storages, 16, 16);
    var out, pos: nat, i: nat, j: nat := Piece(data, 0, 4), 4, 0, 0;
    for n := 0 to 16
      invariant ReplacedTo(data, accounts, storages, out, pos, i, j, n)
    {
      var fault;
      fault, out, pos, i, j := ReplaceChild(data, accounts, storages, out, pos, i, j, n);
      if fault.Some? {
        ReplaceStops(data, accounts, storages, n + 1, 16);
        return Failed(fault.value);
      }
    }
    r := Ok(out);
  }

  /** The cell of child n, if it has one. */
  method ReplaceChild(data: Bytes, accounts: seq<Bytes>, storages: seq<Bytes>, out: Bytes, pos: nat, i: nat, j: nat,
                      n: nat)
      returns (fault: Option<Fault>, out': Bytes, pos': nat, i': nat, j': nat)
    requires ReplacedTo(data, accounts, storages, out, pos, i, j, n) && n < 16
    ensures fault == ReplaceFault(data, accounts, storages, n + 1)
    ensures fault.None? ==> ReplacedTo(data, accounts, storages, out', pos', i', j', n + 1)
  {
    fault, out', pos', i', j' := None, out, pos, i, j;
    if CellsOf(data)[n] {
      var c;
      fault, out', c := ReplaceCell(out, data, pos, accounts, i, storages, j);
      if fault.None? {
        NextReplaced(data, accounts, storages, out, pos, i, j, n);
        i' := if Digit(c.flags, ACCOUNT_PLAIN_PART) then i + 1 else i;
        j' := if Digit(c.flags, STORAGE_PLAIN_PART) then j + 1 else j;
        pos' := c.hash.next;
      }
    } else {
      assert NewCells(data, accounts, storages, n + 1) == NewCells(data, accounts, storages, n);
    }
  }

  lemma {:induction false} NextReplaced(data: Bytes, accounts: seq<Bytes>, storages: seq<Bytes>, out: Bytes, pos: nat,
                                        i: nat, j: nat, n: nat)
    requires ReplacedTo(data, accounts, storages, out, pos, i, j, n) && n < 16 && CellsOf(data)[n]
    requires CellFault(data, pos, accounts, i, storages, j).None?
    ensures var c := ReadCell(data, pos);
      var i', j' := i + |AccountKey(data, n)|, j + |StorageKey(data, n)|;
      && c.CellRead? && ChildRead(data, n) == c
      && ReplacedTo(data, accounts, storages, out + NewBytes(c, accounts, i, storages, j), c.hash.next, i', j', n + 1)
  {
    Regroup(Piece(data, 0, 4), NewCells(data, accounts, storages, n), NewCell(data, n, accounts, i, storages, j));
  }

  /** One cell is read and written with its new keys. */
  method ReplaceCell(out: Bytes, data: Bytes, pos: nat, accounts: seq<Bytes>, i: nat, storages: seq<Bytes>, j: nat)
      returns (fault: Option<Fault>, out': Bytes, c: CellRead)
    requires i <= |accounts| && j <= |storages|
    ensures fault == CellFault(data, pos, accounts, i, storages, j)
    ensures fault.None? ==>
        c == ReadCell(data, pos) && c.CellRead? && out' == out + NewBytes(c, accounts, i, storages, j)
  {
    out', c, fault := out, NoCell, Some(Error);
    if pos >= |data| {
      return Some(Panic), out', c;
    }
    var flags := data[pos];
    var hasAccount, hasStorage := Digit(flags, ACCOUNT_PLAIN_PART), Digit(flags, STORAGE_PLAIN_PART);
    out' := out + [flags];
    var key := OptField(data, pos + 1, Digit(flags, HASHED_KEY_PART));
    if key.NoField? {
      return;
    }
    out' := out' + key.raw;
    var account := OptField(data, key.next, hasAccount);
    if account.NoField? {
      return;
    }
    if hasAccount && i == |accounts| {
      return Some(Panic), out', c;
    }
    out' := out' + NewField(hasAccount, accounts, i);
    var storage := OptField(data, account.next, hasStorage);
    if storage.NoField? {
      return;
    }
    if hasStorage && j == |storages| {
      return Some(Panic), out', c;
    }
    out' := out' + NewField(hasStorage, storages, j);
    var hash := OptField(data, storage.next, Digit(flags, HASH_PART));
    if hash.NoField? {
      return;
    }
    out' := out' + hash.raw;
    fault, c := None, CellRead(flags, key, account, storage, hash);
    RegroupFields(out, [flags], key.raw, NewField(hasAccount, accounts, i), NewField(hasStorage, storages, j),
        hash.raw);
  }

  // ---- on branch data as the encoder writes it

  function AccountOf(map16: ChildMap, ss: seq<Stored>, n: nat): seq<Bytes>
    requires |ss| == 16 && n < 16
  {
    if map16[n] && ss[n].account.Present? then [ss[n].account.bytes] else []
  }

  function StorageOf(map16: ChildMap, ss: seq<Stored>, n: nat): seq<Bytes>
    requires |ss| == 16 && n < 16
  {
    if map16[n] && ss[n].storage.Present? then [ss[n].storage.bytes] else []
  }

  /** The account keys of the first n children. */
  function AccountsOf(map16: ChildMap, ss: seq<Stored>, n: nat): seq<Bytes>
    requires |ss| == 16 && n <= 16
  {
    if n == 0 then [] else AccountsOf(map16, ss, n - 1) + AccountOf(map16, ss, n - 1)
  }

  function StoragesOf(map16: ChildMap, ss: seq<Stored>, n: nat): seq<Bytes>
    requires |ss| == 16 && n <= 16
  {
    if n == 0 then [] else StoragesOf(map16, ss, n - 1) + StorageOf(map16, ss, n - 1)
  }

  /** The bytes of branch data with the given stored cells. */
  function DataOf(touch: ChildMap, after: ChildMap, ss: seq<Stored>): (data: Bytes)
    requires |ss| == 16
    ensures |data| >= 4
  {
    Encode(Branch(touch, after, ss))
  }

  lemma {:induction false} ChildWritten(touch: ChildMap, after: ChildMap, ss: seq<Stored>, n: nat)
    requires AllOk(ss) && n < 16
    ensures if touch[n] && after[n] then ReadsAs(ChildRead(DataOf(touch, after, ss), n), ss[n],
        PlaceOf(touch, after, ss, n + 1))
      else ChildRead(DataOf(touch, after, ss), n) == NoCell
  {
    MapsWritten(touch, after, ss);
    WrittenAt(touch, after, ss, n);
    if touch[n] && after[n] {
      ReadHere(touch, after, ss, n);
    }
  }

  /** The extracted keys are those of the cells. */
  lemma {:induction false} ExtractsWritten(touch: ChildMap, after: ChildMap, ss: seq<Stored>, n: nat)
    requires AllOk(ss) && n <= 16
    ensures AccountKeys(DataOf(touch, after, ss), n) == AccountsOf(And(touch, after), ss, n)
    ensures StorageKeys(DataOf(touch, after, ss), n) == StoragesOf(And(touch, after), ss, n)
  {
    if n > 0 {
      ExtractsWritten(touch, after, ss, n - 1);
      ChildWritten(touch, after, ss, n - 1);
      FlagDigits(ss[n - 1]);
    }
  }

  /** A field with its key replaced. */
  function Exchanged(f: Field, keys: seq<Bytes>, i: nat): Field {
    if f.Present? && i < |keys| then Present(keys[i]) else f
  }

  function ExchangedCell(map16: ChildMap, ss: seq<Stored>, accounts: seq<Bytes>, storages: seq<Bytes>, n: nat): Stored
    requires |ss| == 16 && n < 16
  {
    ss[n].(account := Exchanged(ss[n].account, accounts, |AccountsOf(map16, ss, n)|),
        storage := Exchanged(ss[n].storage, storages, |StoragesOf(map16, ss, n)|))
  }

  /** The cells with their keys replaced, in order; all other fields stay. */
  function ExchangedAll(map16: ChildMap, ss: seq<Stored>, accounts: seq<Bytes>, storages: seq<Bytes>): (r: seq<Stored>)
    requires |ss| == 16
    ensures |r| == 16 && forall n :: 0 <= n < 16 ==> r[n] == ExchangedCell(map16, ss, accounts, storages, n)
  {
    seq(16, n requires 0 <= n < 16 => ExchangedCell(map16, ss, accounts, storages, n))
  }

  ghost predicate Enough(map16: ChildMap, ss: seq<Stored>, accounts: seq<Bytes>, storages: seq<Bytes>) {
    |ss| == 16 && |AccountsOf(map16, ss, 16)| <= |accounts| && |StoragesOf(map16, ss, 16)| <= |storages|
  }

  lemma {:induction false} OfGrows(map16: ChildMap, ss: seq<Stored>, m: nat, n: nat)
    requires |ss| == 16 && m <= n <= 16
    ensures |AccountsOf(map16, ss, m)| <= |AccountsOf(map16, ss, n)|
    ensures |StoragesOf(map16, ss, m)| <= |StoragesOf(map16, ss, n)|
  {
    if m < n {
      OfGrows(map16, ss, m, n - 1);
    }
  }

  lemma {:induction false} NewCellWritten(touch: ChildMap, after: ChildMap, ss: seq<Stored>, accounts: seq<Bytes>,
                                          storages: seq<Bytes>, n: nat)
    requires AllOk(ss) && n < 16 && Enough(And(touch, after), ss, accounts, storages)
    ensures NewCell(DataOf(touch, after, ss), n, accounts, |AccountsOf(And(touch, after), ss, n)|, storages,
        |StoragesOf(And(touch, after), ss, n)|) ==
      if touch[n] && after[n] then EncodeStored(ExchangedCell(And(touch, after), ss, accounts, storages, n)) else []
  {
    var map16, s := And(touch, after), ss[n];
    var i, j := |AccountsOf(map16, ss, n)|, |StoragesOf(map16, ss, n)|;
    ChildWritten(touch, after, ss, n);
    if touch[n] && after[n] {
      assert (s.account.Present? ==> i < |accounts|) && (s.storage.Present? ==> j < |storages|) by {
        OfGrows(map16, ss, n + 1, 16);
      }
      SameParts(ChildRead(DataOf(touch, after, ss), n), s, PlaceOf(touch, after, ss, n + 1), accounts, i, storages, j);
    }
  }

  lemma {:induction false} SameParts(c: CellRead, s: Stored, end: nat, accounts: seq<Bytes>, i: nat,
                                     storages: seq<Bytes>, j: nat)
    requires ReadsAs(c, s, end) && (s.account.Present? ==> i < |accounts|) && (s.storage.Present? ==> j < |storages|)
    ensures NewBytes(c, accounts, i, storages, j) ==
      EncodeStored(s.(account := Exchanged(s.account, accounts, i), storage := Exchanged(s.storage, storages, j)))
  {
    var s' := s.(account := Exchanged(s.account, accounts, i), storage := Exchanged(s.storage, storages, j));
    FlagDigits(s);
    assert FlagsOf(s') == FlagsOf(s);
    assert NewField(s.account.Present?, accounts, i) == EncodeField(s'.account);
    assert NewField(s.storage.Present?, storages, j) == EncodeField(s'.storage);
  }

  lemma {:induction false} NewCellsWritten(touch: ChildMap, after: ChildMap, ss: seq<Stored>, accounts: seq<Bytes>,
                                           storages: seq<Bytes>, n: nat)
    requires AllOk(ss) && n <= 16 && Enough(And(touch, after), ss, accounts, storages)
    ensures NewCells(DataOf(touch, after, ss), accounts, storages, n) ==
      Joined(Selected(And(touch, after), ExchangedAll(And(touch, after), ss, accounts, storages)), n)
  {
    if n > 0 {
      NewCellsWritten(touch, after, ss, accounts, storages, n - 1);
      ExtractsWritten(touch, after, ss, n - 1);
      NewCellWritten(touch, after, ss, accounts, storages, n - 1);
    }
  }

  /** Replacing keys in written branch data writes the cells with the new keys. */
  lemma {:induction false} ReplacesWritten(touch: ChildMap, after: ChildMap, ss: seq<Stored>, accounts: seq<Bytes>,
                                           storages: seq<Bytes>)
    requires AllOk(ss) && Enough(And(touch, after), ss, accounts, storages)
    ensures Replaced(DataOf(touch, after, ss), accounts, storages) ==
      DataOf(touch, after, ExchangedAll(And(touch, after), ss, accounts, storages))
  {
    NewCellsWritten(touch, after, ss, accounts, storages, 16);
    var data := DataOf(touch, after, ss);
    assert Piece(data, 0, 4) == Header(touch, after);
  }

  lemma OneMore(keys: seq<Bytes>, k: nat)
    requires k <= |keys|
    ensures k < |keys| ==> keys[..k] + [keys[k]] == keys[..k + 1]
  {
  }

  lemma {:induction false} ExchangedAccount(map16: ChildMap, ss: seq<Stored>, accounts: seq<Bytes>,
                                            storages: seq<Bytes>, n: nat)
    requires |ss| == 16 && n < 16 && (AccountOf(map16, ss, n) != [] ==> |AccountsOf(map16, ss, n)| < |accounts|)
    ensures AccountOf(map16, ExchangedAll(map16, ss, accounts, storages), n) ==
        if AccountOf(map16, ss, n) == [] then [] else [accounts[|AccountsOf(map16, ss, n)|]]
  {
  }

  lemma {:induction false} ExchangedAccounts(map16: ChildMap, ss: seq<Stored>, accounts: seq<Bytes>,
                                             storages: seq<Bytes>, n: nat)
    requires n <= 16 && Enough(map16, ss, accounts, storages)
    ensures |AccountsOf(map16, ss, n)| <= |accounts|
    ensures AccountsOf(map16, ExchangedAll(map16, ss, accounts, storages), n) == accounts[..|AccountsOf(map16, ss, n)|]
  {
    OfGrows(map16, ss, n, 16);
    if n > 0 {
      ExchangedAccounts(map16, ss, accounts, storages, n - 1);
      var k := |AccountsOf(map16, ss, n - 1)|;
      OneMore(accounts, k);
      ExchangedAccount(map16, ss, accounts, storages, n - 1);
    }
  }

  lemma {:induction false} ExchangedStorage(map16: ChildMap, ss: seq<Stored>, accounts: seq<Bytes>,
                                            storages: seq<Bytes>, n: nat)
    requires |ss| == 16 && n < 16 && (StorageOf(map16, ss, n) != [] ==> |StoragesOf(map16, ss, n)| < |storages|)
    ensures StorageOf(map16, ExchangedAll(map16, ss, accounts, storages), n) ==
        if StorageOf(map16, ss, n) == [] then [] else [storages[|StoragesOf(map16, ss, n)|]]
  {
  }

  lemma {:induction false} ExchangedStorages(map16: ChildMap, ss: seq<Stored>, accounts: seq<Bytes>,
                                             storages: seq<Bytes>, n: nat)
    requires n <= 16 && Enough(map16, ss, accounts, storages)
    ensures |StoragesOf(map16, ss, n)| <= |storages|
    ensures StoragesOf(map16, ExchangedAll(map16, ss, accounts, storages), n) == storages[..|StoragesOf(map16, ss, n)|]
  {
    OfGrows(map16, ss, n, 16);
    if n > 0 {
      ExchangedStorages(map16, ss, accounts, storages, n - 1);
      var k := |StoragesOf(map16, ss, n - 1)|;
      OneMore(storages, k);
      ExchangedStorage(map16, ss, accounts, storages, n - 1);
    }
  }

  predicate AllShort(keys: seq<Bytes>) { forall i {:trigger keys[i]} :: 0 <= i < |keys| ==> |keys[i]| < MAX_LENGTH }

  lemma {:induction false} ExchangedOk(map16: ChildMap, ss: seq<Stored>, accounts: seq<Bytes>, storages: seq<Bytes>)
    requires AllOk(ss) && AllShort(accounts) && AllShort(storages)
    ensures AllOk(ExchangedAll(map16, ss, accounts, storages))
  {
    var ss' := ExchangedAll(map16, ss, accounts, storages);
    forall n | 0 <= n < 16 ensures StoredOk(ss'[n]) {
      assert StoredOk(ss[n]);
    }
  }

  /** All of the data can be read. */
  lemma {:induction false} WrittenReads(touch: ChildMap, after: ChildMap, ss: seq<Stored>)
    requires AllOk(ss)
    ensures ReadEnd(DataOf(touch, after, ss)).At?
  {
    MapsWritten(touch, after, ss);
    WrittenAt(touch, after, ss, 16);
  }

  /** Extracting after replacing gives the new keys. */
  lemma {:induction false} ExtractReplaced(touch: ChildMap, after: ChildMap, ss: seq<Stored>, accounts: seq<Bytes>,
                                           storages: seq<Bytes>)
    requires AllOk(ss) && AllShort(accounts) && AllShort(storages)
    requires |AccountsOf(And(touch, after), ss, 16)| == |accounts|
    requires |StoragesOf(And(touch, after), ss, 16)| == |storages|
    ensures var data := Replaced(DataOf(touch, after, ss), accounts, storages);
      ReadEnd(data).At? && AccountKeys(data, 16) == accounts && StorageKeys(data, 16) == storages
  {
    var map16 := And(touch, after);
    var ss' := ExchangedAll(map16, ss, accounts, storages);
    ReplacesWritten(touch, after, ss, accounts, storages);
    ExchangedOk(map16, ss, accounts, storages);
    WrittenReads(touch, after, ss');
    ExtractsWritten(touch, after, ss', 16);
    ExchangedAccounts(map16, ss, accounts, storages, 16);
    ExchangedStorages(map16, ss, accounts, storages, 16);
  }

  lemma {:induction false} PrefixKeys(map16: ChildMap, ss: seq<Stored>, n: nat, m: nat)
    requires |ss| == 16 && n < m <= 16
    ensures map16[n] && ss[n].account.Present? ==>
      |AccountsOf(map16, ss, n)| < |AccountsOf(map16, ss, m)| &&
          AccountsOf(map16, ss, m)[|AccountsOf(map16, ss, n)|] == ss[n].account.bytes
    ensures map16[n] && ss[n].storage.Present? ==>
      |StoragesOf(map16, ss, n)| < |StoragesOf(map16, ss, m)| &&
          StoragesOf(map16, ss, m)[|StoragesOf(map16, ss, n)|] == ss[n].storage.bytes
  {
    if n < m - 1 {
      PrefixKeys(map16, ss, n, m - 1);
    }
  }

  /** Putting the extracted keys back changes nothing. */
  lemma {:induction false} ReplaceExtracted(touch: ChildMap, after: ChildMap, ss: seq<Stored>)
    requires AllOk(ss)
    ensures var data := DataOf(touch, after, ss);
      Replaced(data, AccountKeys(data, 16), StorageKeys(data, 16)) == data
  {
    var map16 := And(touch, after);
    var accounts, storages := AccountsOf(map16, ss, 16), StoragesOf(map16, ss, 16);
    ExtractsWritten(touch, after, ss, 16);
    ReplacesWritten(touch, after, ss, accounts, storages);
    var ss' := ExchangedAll(map16, ss, accounts, storages);
    forall n | 0 <= n < 16 && map16[n] ensures ss'[n] == ss[n] {
      PrefixKeys(map16, ss, n, 16);
    }
    assert Selected(map16, ss') == Selected(map16, ss);
  }
}
