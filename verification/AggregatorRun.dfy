/** Whole runs of the aggregator: whatever blocks, aggregations and background merges come in
    between, it answers like three plain maps. */
module AggregatorRun {
  import opened ByteKeys
  import opened ChangeFiles
  import opened StateDomain
  import opened StateStore
  import opened StateWriter

  type Value = seq<nat>

  datatype Kind = Accounts | Storages | Codes

  datatype Op =
    | ReadAccount(addr: Key)
    | ReadCode(addr: Key)
    | ReadStorage(addr: Key, loc: Key)
    | UpdateAccount(addr: Key, value: Value)
    | UpdateCode(addr: Key, value: Value)
    | WriteStorage(addr: Key, loc: Key, value: Value)
    | DeleteAccount(addr: Key, isNil: bool)
    | FinishTx
    | EndBlock
    | Freeze(kind: Kind)
    | PlanMerge
    | CommitMerge

  /** The plain maps; an absent key has the empty value. */
  datatype State = State(account: imap<Key, Value>, code: imap<Key, Value>, storage: imap<Key, Value>)

  /**
   * What an operation does to the plain maps, and what it returns. An account that is empty may not be found by
   * DeleteAccount, which then leaves its code and storage: see Writer.Knows and OrphanStorage.
   */
  ghost predicate Step(s: State, op: Op, result: Value, s': State) {
    match op
    case ReadAccount(addr) => s' == s && addr in s.account && result == s.account[addr]
    case ReadCode(addr) => s' == s && addr in s.code && result == s.code[addr]
    case ReadStorage(addr, loc) => s' == s && addr + loc in s.storage && result == s.storage[addr + loc]
    case UpdateAccount(addr, v) => s' == s.(account := s.account[addr := v])
    case UpdateCode(addr, v) => s' == s.(code := s.code[addr := v])
    case WriteStorage(addr, loc, v) => s' == s.(storage := s.storage[addr + loc := v])
    case DeleteAccount(addr, _) =>
      || s' == State(s.account[addr := []], s.code[addr := []],
          imap k | k in s.storage :: if HasPrefix(k, addr) then [] else s.storage[k])
      || (addr in s.account && s.account[addr] == [] && s' == s)
    case _ => s' == s
  }

  /** Addresses have their length, and locations are not empty. */
  predicate WellFormed(op: Op, addrLen: nat) {
    match op
    case ReadStorage(addr, loc) => |addr| == addrLen && |loc| > 0
    case WriteStorage(addr, loc, _) => |addr| == addrLen && |loc| > 0
    case DeleteAccount(addr, _) => |addr| == addrLen
    case _ => true
  }

  type Viewer = Key -> Value

  /** What the table and the files of a type show. */
  ghost function Shown(d: Domain): Viewer
    reads d`table, d`files
  {
    var table, files := d.table, d.files;
    k => ViewOf(table, files, k)
  }

  ghost function StateBy(a: Viewer, c: Viewer, s: Viewer, addrLen: nat): State {
    State(imap k: Key | KeyOk(k, 0) :: a(k), imap k: Key | KeyOk(k, 0) :: c(k), imap k: Key | KeyOk(k, addrLen) :: s(k))
  }

  /** What the readers of the writer see. */
  ghost function StateOf(w: Writer): State
    reads w.accounts`table, w.accounts`files, w.storage`table, w.storage`files, w.code`table, w.code`files
  {
    StateBy(Shown(w.accounts), Shown(w.code), Shown(w.storage), w.storage.prefixLen)
  }

  /** The same values make the same state. */
  lemma SameState(a: Viewer, c: Viewer, s: Viewer, a': Viewer, c': Viewer, s': Viewer, addrLen: nat)
    requires (forall k :: a'(k) == a(k)) && (forall k :: c'(k) == c(k))
    requires forall k :: KeyOk(k, addrLen) ==> s'(k) == s(k)
    ensures StateBy(a', c', s', addrLen) == StateBy(a, c, s, addrLen)
  {
    var m, m' := StateBy(a, c, s, addrLen), StateBy(a', c', s', addrLen);
    assert m'.account == m.account && m'.code == m.code && m'.storage == m.storage;
  }

  /** One value of a map changes. */
  lemma OneChange(f: Viewer, f': Viewer, addrLen: nat, key: Key, v: Value)
    requires KeyOk(key, addrLen) && forall k :: f'(k) == if k == key then v else f(k)
    ensures (imap k: Key | KeyOk(k, addrLen) :: f'(k)) == (imap k: Key | KeyOk(k, addrLen) :: f(k))[key := v]
  {}

  ghost predicate Ready(w: Writer)
    reads w, w.accounts, w.storage, w.code
  {
    forall x {:trigger x.Valid()} :: x in {w} ==> x.Valid() && x.changeFileNum != 0
  }

  method Execute(w: Writer, op: Op) returns (result: Value)
    requires Ready(w) && WellFormed(op, w.storage.prefixLen)
    modifies w, w.accounts, w.storage, w.code
    ensures Ready(w) && Step(old(StateOf(w)), op, result, StateOf(w))
  {
    if op.ReadAccount? || op.ReadCode? || op.ReadStorage? {
      result := ReadOne(w, op);
    } else if op.UpdateAccount? || op.UpdateCode? || op.WriteStorage? {
      WriteOne(w, op);
      result := [];
    } else if op.DeleteAccount? {
      DeleteOne(w, op.addr, op.isNil);
      result := [];
    } else {
      Work(w, op);
      result := [];
    }
  }

  method ReadOne(w: Writer, op: Op) returns (result: Value)
    requires Ready(w) && WellFormed(op, w.storage.prefixLen) && (op.ReadAccount? || op.ReadCode? || op.ReadStorage?)
    ensures Step(StateOf(w), op, result, StateOf(w))
  {
    match op
    case ReadAccount(addr) => result := w.ReadAccountData(addr);
    case ReadCode(addr) => result := w.ReadAccountCode(addr);
    case ReadStorage(addr, loc) => result := w.ReadAccountStorage(addr, loc);
  }

  method WriteOne(w: Writer, op: Op)
    requires Ready(w) && WellFormed(op, w.storage.prefixLen)
    requires (op.UpdateAccount? || op.UpdateCode? || op.WriteStorage?)
    modifies w.accounts, w.storage, w.code
    ensures Ready(w) && Step(old(StateOf(w)), op, [], StateOf(w))
  {
    match op
    case UpdateAccount(addr, v) => AccountOne(w, addr, v);
    case UpdateCode(addr, v) => CodeOne(w, addr, v);
    case WriteStorage(addr, loc, v) => StorageOne(w, addr, loc, v);
  }

  method AccountOne(w: Writer, addr: Key, v: Value)
    requires Ready(w)
    modifies w.accounts
    ensures Ready(w) && Step(old(StateOf(w)), UpdateAccount(addr, v), [], StateOf(w))
  {
    ghost var a := Shown(w.accounts);
    w.UpdateAccountData(addr, v);
    ghost var a' := Shown(w.accounts);
    forall k ensures a'(k) == if k == addr then v else a(k) {
      assert w.Account(k) == if k == addr then v else old(w.Account(k));
    }
    OneChange(a, a', 0, addr, v);
  }

  method CodeOne(w: Writer, addr: Key, v: Value)
    requires Ready(w)
    modifies w.code
    ensures Ready(w) && Step(old(StateOf(w)), UpdateCode(addr, v), [], StateOf(w))
  {
    ghost var c := Shown(w.code);
    w.UpdateAccountCode(addr, v);
    ghost var c' := Shown(w.code);
    forall k ensures c'(k) == if k == addr then v else c(k) {
      assert w.Code(k) == if k == addr then v else old(w.Code(k));
    }
    OneChange(c, c', 0, addr, v);
  }

  method StorageOne(w: Writer, addr: Key, loc: Key, v: Value)
    requires Ready(w) && |addr| == w.storage.prefixLen && |loc| > 0
    modifies w.storage
    ensures Ready(w) && Step(old(StateOf(w)), WriteStorage(addr, loc, v), [], StateOf(w))
  {
    ghost var s := Shown(w.storage);
    w.WriteAccountStorage(addr, loc, v);
    ghost var s' := Shown(w.storage);
    forall k ensures s'(k) == if k == addr + loc then v else s(k) {
      assert w.Storage(k) == if k == addr + loc then v else old(w.Storage(k));
    }
    OneChange(s, s', w.storage.prefixLen, addr + loc, v);
  }

  method DeleteOne(w: Writer, addr: Key, isNil: bool)
    requires Ready(w) && |addr| == w.storage.prefixLen
    modifies w.accounts, w.storage, w.code
    ensures Ready(w) && Step(old(StateOf(w)), DeleteAccount(addr, isNil), [], StateOf(w))
  {
    ghost var a, c, s := Shown(w.accounts), Shown(w.code), Shown(w.storage);
    var deleted := w.DeleteAccount(addr, isNil);
    ghost var a', c', s' := Shown(w.accounts), Shown(w.code), Shown(w.storage);
    forall k ensures a'(k) == (if k == addr then [] else a(k)) &&
        c'(k) == (if deleted && k == addr then [] else c(k)) &&
      (KeyOk(k, |addr|) ==> s'(k) == if deleted && HasPrefix(k, addr) then [] else s(k)) {
      assert w.Account(k) == if k == addr then [] else old(w.Account(k));
      assert w.Code(k) == if deleted && k == addr then [] else old(w.Code(k));
      assert KeyOk(k, |addr|) ==> w.Storage(k) == if deleted && HasPrefix(k, addr) then [] else old(w.Storage(k));
    }
    DeleteStep(a, c, s, a', c', s', addr, isNil, deleted);
  }

  lemma DeleteStep(a: Viewer, c: Viewer, s: Viewer, a': Viewer, c': Viewer, s': Viewer, addr: Key, isNil: bool,
                   deleted: bool)
    requires a(addr) != [] ==> deleted
    requires forall k :: a'(k) == if k == addr then [] else a(k)
    requires forall k :: c'(k) == if deleted && k == addr then [] else c(k)
    requires forall k :: KeyOk(k, |addr|) ==> s'(k) == if deleted && HasPrefix(k, addr) then [] else s(k)
    ensures Step(StateBy(a, c, s, |addr|), DeleteAccount(addr, isNil), [], StateBy(a', c', s', |addr|))
  {
    var m, m' := StateBy(a, c, s, |addr|), StateBy(a', c', s', |addr|);
    if deleted {
      OneChange(a, a', 0, addr, []);
      OneChange(c, c', 0, addr, []);
      assert m'.storage == imap k | k in m.storage :: if HasPrefix(k, addr) then [] else m.storage[k];
    } else {
      SameState(a, c, s, a', c', s', |addr|);
    }
  }

  /** Nothing of the other operations is seen. */
  method Work(w: Writer, op: Op)
    requires Ready(w)
    modifies w, w.accounts, w.storage, w.code
    ensures Ready(w) && StateOf(w) == old(StateOf(w))
  {
    match op
    case FinishTx => EndOfTx(w);
    case EndBlock => EndOfBlock(w);
    case Freeze(kind) => FreezeOne(w, kind);
    case PlanMerge => Plan(w);
    case CommitMerge => Commit(w);
    case _ =>
  }

  method EndOfTx(w: Writer)
    requires Ready(w)
    modifies w.accounts, w.storage, w.code
    ensures Ready(w) && StateOf(w) == old(StateOf(w)) && w.accounts.words == [] && w.storage.words == []
    ensures w.code.words == []
  {
    w.FinishTx();
  }

  method EndOfBlock(w: Writer)
    requires Ready(w)
    modifies w, w.accounts, w.storage, w.code
    ensures Ready(w) && StateOf(w) == old(StateOf(w))
  {
    EndOfTx(w);
    DueAggregation(w);
    ToNextBlock(w);
  }

  method ToNextBlock(w: Writer)
    requires Ready(w) && w.aggregated && w.accounts.words == [] && w.storage.words == [] && w.code.words == []
    modifies w, w.accounts`chunks, w.storage`chunks, w.code`chunks
    ensures Ready(w) && StateOf(w) == old(StateOf(w))
  {
    var _ := w.Reset(w.blockNum + 1);
  }

  lemma Same(w: Writer, a: Viewer, c: Viewer, s: Viewer)
    requires (forall k :: w.Account(k) == a(k)) && (forall k :: w.Code(k) == c(k))
    requires forall k :: KeyOk(k, w.storage.prefixLen) ==> w.Storage(k) == s(k)
    ensures StateOf(w) == StateBy(a, c, s, w.storage.prefixLen)
  {
    var a', c', s' := Shown(w.accounts), Shown(w.code), Shown(w.storage);
    forall k ensures a'(k) == a(k) && c'(k) == c(k) && (KeyOk(k, w.storage.prefixLen) ==> s'(k) == s(k)) {
      assert w.Account(k) == a(k) && w.Code(k) == c(k) && (KeyOk(k, w.storage.prefixLen) ==> w.Storage(k) == s(k));
    }
    SameState(a, c, s, a', c', s', w.storage.prefixLen);
  }

  method DueAggregation(w: Writer)
    requires Ready(w)
    modifies w`closed, w`aggregated
    modifies w.accounts`table, w.accounts`chunks, w.accounts`files, w.accounts`arch
    modifies w.storage`table, w.storage`chunks, w.storage`files, w.storage`arch
    modifies w.code`table, w.code`chunks, w.code`files, w.code`arch
    ensures Ready(w) && StateOf(w) == old(StateOf(w)) && w.aggregated
  {
    ghost var a, c, s := Shown(w.accounts), Shown(w.code), Shown(w.storage);
    var _ := w.Aggregate();
    Same(w, a, c, s);
  }

  method FreezeOne(w: Writer, kind: Kind)
    requires Ready(w)
    modifies w, w.accounts, w.storage, w.code
    ensures Ready(w) && StateOf(w) == old(StateOf(w))
  {
    match kind
    case Accounts => if w.accounts.frozen < |w.accounts.files| { w.Freeze(w.accounts); }
    case Storages => if w.storage.frozen < w.accounts.frozen { w.Freeze(w.storage); }
    case Codes => if w.code.frozen < w.storage.frozen { w.Freeze(w.code); }
  }

  method Commit(w: Writer)
    requires Ready(w)
    modifies w, w.accounts, w.storage, w.code
    ensures Ready(w) && StateOf(w) == old(StateOf(w))
  {
    if w.code.task.Merging? {
      ghost var a, c, s := Shown(w.accounts), Shown(w.code), Shown(w.storage);
      w.CommitMerge();
      Same(w, a, c, s);
    }
  }

  method Plan(w: Writer)
    requires Ready(w)
    modifies w, w.accounts, w.storage, w.code
    ensures Ready(w) && StateOf(w) == old(StateOf(w))
  {
    if w.code.task.Idle? && w.blockNum < MAX_BLOCK {
      var _, _ := w.PlanMerge();
    }
  }

  ghost predicate StepAt(states: seq<State>, ops: seq<Op>, results: seq<Value>, i: nat)
    requires i < |results| <= |ops| && i + 1 < |states|
  {
    Step(states[i], ops[i], results[i], states[i + 1])
  }

  /** The states and results of a run of the first operations, step by step. */
  ghost predicate Trace(states: seq<State>, ops: seq<Op>, results: seq<Value>) {
    && |results| <= |ops| && |states| == |results| + 1
    && forall i {:trigger StepAt(states, ops, results, i)} :: 0 <= i < |results| ==> StepAt(states, ops, results, i)
  }

  lemma Longer(states: seq<State>, ops: seq<Op>, results: seq<Value>, result: Value, s': State)
    requires Trace(states, ops, results) && |results| < |ops| && Step(states[|results|], ops[|results|], result, s')
    ensures Trace(states + [s'], ops, results + [result])
  {
    var states', results' := states + [s'], results + [result];
    forall i | 0 <= i < |results'| ensures StepAt(states', ops, results', i) {
      if i < |results| {
        assert StepAt(states, ops, results, i);
      }
    }
  }

  /** Every run is a run of the plain maps with the same results. */
  method Run(w: Writer, ops: seq<Op>) returns (results: seq<Value>, ghost states: seq<State>)
    requires Ready(w) && forall i :: 0 <= i < |ops| ==> WellFormed(ops[i], w.storage.prefixLen)
    modifies w, w.accounts, w.storage, w.code
    ensures Ready(w) && Trace(states, ops, results) && |results| == |ops|
    ensures states[0] == old(StateOf(w)) && states[|ops|] == StateOf(w)
  {
    results, states := [], [StateOf(w)];
    for n := 0 to |ops|
      invariant Ready(w) && Trace(states, ops, results) && |results| == n && states[0] == old(StateOf(w))
      invariant states[n] == StateOf(w)
    {
      var result := Execute(w, ops[n]);
      Longer(states, ops, results, result, StateOf(w));
      results, states := results + [result], states + [StateOf(w)];
    }
  }

  /** A whole life from block 0 on: the maps start empty. */
  method Life(step: nat, unwindLimit: nat, addrLen: nat, hash: Key -> nat, minArch: nat, ops: seq<Op>)
      returns (results: seq<Value>, ghost states: seq<State>)
    requires step > 1 && addrLen > 0 && forall i :: 0 <= i < |ops| ==> WellFormed(ops[i], addrLen)
    ensures Trace(states, ops, results) && |results| == |ops|
    ensures states[0] == StateBy(k => [], k => [], k => [], addrLen)
  {
    var w := Start(step, unwindLimit, addrLen, hash, minArch);
    results, states := Run(w, ops);
  }

  method Start(step: nat, unwindLimit: nat, addrLen: nat, hash: Key -> nat, minArch: nat) returns (w: Writer)
    requires step > 1 && addrLen > 0
    ensures fresh(w) && fresh(w.accounts) && fresh(w.storage) && fresh(w.code) && w.storage.prefixLen == addrLen
    ensures Ready(w)
    ensures StateOf(w) == StateBy(k => [], k => [], k => [], addrLen) && w.accounts.table == map[]
    ensures w.accounts.files == []
  {
    w := new Writer(step, unwindLimit, addrLen, hash, minArch);
    Same(w, k => [], k => [], k => []);
    var _ := w.Reset(0);
  }

  /**
   * Storage without an account: a value is written below an address that has no account. DeleteAccount of the address
   * does not find it and leaves the value, whatever it is.
   */
  method OrphanStorage(step: nat, unwindLimit: nat, addrLen: nat, hash: Key -> nat, minArch: nat, addr: Key, loc: Key,
                       v: Value, isNil: bool)
      returns (deleted: bool, value: Value)
    requires step > 1 && |addr| == addrLen > 0 && |loc| > 0
    ensures !deleted && value == v
  {
    var w := Start(step, unwindLimit, addrLen, hash, minArch);
    w.WriteAccountStorage(addr, loc, v);
    deleted := w.DeleteAccount(addr, isNil);
    value := w.ReadAccountStorage(addr, loc);
  }
}
