/** The ring of dynamic-programming cells: a deque in a circular array that doubles when
    it is full. Its length is a power of two, so masking an index is taking it modulo the
    length; indices reach at most twice the length. */
module Ring {

  /** The best cover of the input from some position on. */
  datatype Cell = Cell(optimStart: int, coverStart: int, compression: int, score: nat, patternIdx: nat)

  function Wrap(x: nat, n: nat): nat { if x < n then x else x - n }

  /** The cells from head on, around the end of the array. */
  function Around(s: seq<Cell>, head: nat, count: nat): (r: seq<Cell>)
    requires head < |s| && count <= |s|
    ensures |r| == count && forall i :: 0 <= i < count ==> r[i] == s[Wrap(head + i, |s|)]
  {
    seq(count, i requires 0 <= i < count => s[Wrap(head + i, |s|)])
  }

  lemma AroundFront(s: seq<Cell>, head: nat, count: nat, c: Cell)
    requires head < |s| && count < |s|
    ensures var h := if head == 0 then |s| - 1 else head - 1;
      Around(s[h := c], h, count + 1) == [c] + Around(s, head, count)
  {
    var h := if head == 0 then |s| - 1 else head - 1;
    var r := Around(s[h := c], h, count + 1);
    forall i | 0 <= i < count ensures r[i + 1] == Around(s, head, count)[i] {
      assert Wrap(h + (i + 1), |s|) == Wrap(head + i, |s|) != h;
    }
  }

  lemma AroundBack(s: seq<Cell>, head: nat, count: nat, c: Cell)
    requires head < |s| && count < |s|
    ensures Around(s[Wrap(head + count, |s|) := c], head, count + 1) == Around(s, head, count) + [c]
  {
    var t := Wrap(head + count, |s|);
    var r := Around(s[t := c], head, count + 1);
    forall i | 0 <= i < count ensures r[i] == Around(s, head, count)[i] {
      assert Wrap(head + i, |s|) != t;
    }
  }

  class Ring {
    var cells: array<Cell>
    var head: nat
    var tail: nat
    var count: nat

    ghost predicate Valid()
      reads this
    {
      && 0 < cells.Length && head < cells.Length && count <= cells.Length && tail <= cells.Length
      && (tail == head + count || tail + cells.Length == head + count)
    }

    /** The cells in order. */
    ghost function Contents(): (r: seq<Cell>)
      reads this, cells
      requires Valid()
      ensures |r| == count
    {
      Around(cells[..], head, count)
    }

    constructor ()
      ensures Valid() && Contents() == [] && fresh(cells)
    {
      cells := new Cell[16](i => Cell(0, 0, 0, 0, 0));
      head, tail, count := 0, 0, 0;
    }

    method Reset()
      requires Valid()
      modifies this
      ensures Valid() && Contents() == [] && cells == old(cells)
    {
      count, head, tail := 0, 0, 0;
    }

    method EnsureSize()
      requires Valid()
      modifies this
      ensures Valid() && count < cells.Length && Contents() == old(Contents()) && (cells == old(cells) || fresh(cells))
    {
      if count < cells.Length {
        return;
      }
      var newcells := new Cell[count * 2](i => Cell(0, 0, 0, 0, 0));
      var n := cells.Length - head;
      if tail > head {
        forall i | 0 <= i < tail - head {
          newcells[i] := cells[head + i];
        }
      } else {
        forall i | 0 <= i < n {
          newcells[i] := cells[head + i];
        }
        forall i | 0 <= i < tail {
          newcells[n + i] := cells[i];
        }
      }
      assert forall i :: 0 <= i < count ==> newcells[i] == cells[Wrap(head + i, cells.Length)];
      assert Around(newcells[..], 0, count) == Contents();
      head, tail, cells := 0, count, newcells;
    }

    method PushFront(c: Cell)
      requires Valid()
      modifies this, cells
      ensures Valid() && Contents() == [c] + old(Contents()) && (cells == old(cells) || fresh(cells))
    {
      EnsureSize();
      AroundFront(cells[..], head, count, c);
      ghost var s := cells[..];
      if head == 0 {
        head := cells.Length;
      }
      head := head - 1;
      count := count + 1;
      cells[head] := c;
      assert cells[..] == s[head := c];
    }

    method PushBack(c: Cell)
      requires Valid()
      modifies this, cells
      ensures Valid() && Contents() == old(Contents()) + [c] && (cells == old(cells) || fresh(cells))
    {
      EnsureSize();
      AroundBack(cells[..], head, count, c);
      ghost var s := cells[..];
      if tail == cells.Length {
        tail := 0;
      }
      cells[tail] := c;
      assert cells[..] == s[tail := c];
      tail := tail + 1;
      count := count + 1;
    }

    method Get(i: nat) returns (c: Cell)
      requires Valid() && i < count
      ensures c == Contents()[i]
    {
      c := cells[Wrap(head + i, cells.Length)];
    }

    /** Removes all items starting from i. */
    method Truncate(i: nat)
      requires Valid() && i <= count
      modifies this
      ensures Valid() && Contents() == old(Contents())[..i] && cells == old(cells)
    {
      count := i;
      tail := Wrap(head + i, cells.Length);
      assert Contents() == old(Contents())[..i];
    }
  }
}
