/** The eight compass offsets and the iterator that walks from a square in one
    of them (crates/othello_game/src/direction.rs; src/game.rs:197-224 holds a
    textually identical copy that this module stands for as well). */
module Direction {
  import opened Core

  /** `DIRECTIONS`, in the source's order. */
  const DIRECTIONS: seq<(int, int)> :=
    [(-1, -1), (-1, 0), (-1, 1), (0, -1), (0, 1), (1, -1), (1, 0), (1, 1)]

  /** A non-zero offset with both components in {-1, 0, 1}. */
  predicate IsUnit(dy: int, dx: int)
  {
    -1 <= dy <= 1 && -1 <= dx <= 1 && (dy != 0 || dx != 0)
  }

  lemma DirectionsAreTheUnitOffsets()
    ensures |DIRECTIONS| == 8
    ensures forall i, j :: 0 <= i < j < |DIRECTIONS| ==> DIRECTIONS[i] != DIRECTIONS[j]
    ensures forall i :: 0 <= i < |DIRECTIONS| ==> IsUnit(DIRECTIONS[i].0, DIRECTIONS[i].1)
    ensures forall dy, dx :: IsUnit(dy, dx) ==> (dy, dx) in DIRECTIONS
    ensures forall i :: 0 <= i < |DIRECTIONS| ==> (DIRECTIONS[i].1, DIRECTIONS[i].0) in DIRECTIONS
  {
  }

  /** How many more steps in the row direction dy (or, when dy is 0, in the
      column direction dx) stay on an 8-wide board; decreases by one per step. */
  function Room(row: int, col: int, dy: int, dx: int): int
  {
    if dy > 0 then 8 - row
    else if dy < 0 then row + 1
    else if dx > 0 then 8 - col
    else col + 1
  }

  /** The squares the iterator yields from (row, col) stepping by (dy, dx):
      it steps first and stops at the first square off the board. */
  function Walk(row: int, col: int, dy: int, dx: int): (w: seq<(int, int)>)
    requires IsUnit(dy, dx)
    ensures forall k :: 0 <= k < |w| ==> OnBoard(w[k].0, w[k].1)
    ensures w != [] ==> w[0] == (row + dy, col + dx)
    decreases Room(row, col, dy, dx)
  {
    if !OnBoard(row + dy, col + dx) then []
    else [(row + dy, col + dx)] + Walk(row + dy, col + dx, dy, dx)
  }

  /** The k-th item is k+1 steps away: the starting square is never yielded. */
  lemma {:induction false} WalkItem(row: int, col: int, dy: int, dx: int, k: nat)
    requires IsUnit(dy, dx)
    requires k < |Walk(row, col, dy, dx)|
    ensures Walk(row, col, dy, dx)[k] == (row + (k + 1) * dy, col + (k + 1) * dx)
    decreases k
  {
    if k > 0 {
      WalkItem(row + dy, col + dx, dy, dx, k - 1);
      assert (k + 1) * dy == k * dy + dy && (k + 1) * dx == k * dx + dx;
    }
  }

  /** From any square at most Room - 1 squares are yielded. */
  lemma {:induction false} WalkLength(row: int, col: int, dy: int, dx: int)
    requires IsUnit(dy, dx)
    ensures |Walk(row, col, dy, dx)| <= if Room(row, col, dy, dx) > 0 then Room(row, col, dy, dx) - 1 else 0
    decreases Room(row, col, dy, dx)
  {
    if OnBoard(row + dy, col + dx) {
      WalkLength(row + dy, col + dx, dy, dx);
    }
  }

  /** From an on-board square at most 7 squares are yielded. */
  lemma WalkAtMostSeven(row: int, col: int, dy: int, dx: int)
    requires IsUnit(dy, dx) && OnBoard(row, col)
    ensures |Walk(row, col, dy, dx)| <= 7
  {
    WalkLength(row, col, dy, dx);
  }

  /** Each step uses up one unit of room. */
  lemma {:induction false} WalkRoom(row: int, col: int, dy: int, dx: int, k: nat)
    requires IsUnit(dy, dx) && k < |Walk(row, col, dy, dx)|
    ensures Room(Walk(row, col, dy, dx)[k].0, Walk(row, col, dy, dx)[k].1, dy, dx) == Room(row, col, dy, dx) - (k + 1)
    decreases k
  {
    if k > 0 {
      WalkRoom(row + dy, col + dx, dy, dx, k - 1);
    }
  }

  /** A walk never visits a square twice. */
  lemma WalkDistinct(row: int, col: int, dy: int, dx: int, i: nat, j: nat)
    requires IsUnit(dy, dx) && i < j < |Walk(row, col, dy, dx)|
    ensures Walk(row, col, dy, dx)[i] != Walk(row, col, dy, dx)[j]
  {
    WalkRoom(row, col, dy, dx, i);
    WalkRoom(row, col, dy, dx, j);
  }

  /** Multiplying by a component of a unit offset. */
  lemma UnitScale(a: int, d: int)
    requires -1 <= d <= 1
    ensures a * d == if d == 1 then a else if d == -1 then -a else 0
  {
  }

  /** Walks from one square in two different directions share no square. */
  lemma WalksDisjoint(row: int, col: int, dy1: int, dx1: int, dy2: int, dx2: int, i: nat, j: nat)
    requires IsUnit(dy1, dx1) && IsUnit(dy2, dx2) && (dy1, dx1) != (dy2, dx2)
    requires i < |Walk(row, col, dy1, dx1)| && j < |Walk(row, col, dy2, dx2)|
    ensures Walk(row, col, dy1, dx1)[i] != Walk(row, col, dy2, dx2)[j]
  {
    WalkItem(row, col, dy1, dx1, i);
    WalkItem(row, col, dy2, dx2, j);
    UnitScale(i + 1, dy1);
    UnitScale(i + 1, dx1);
    UnitScale(j + 1, dy2);
    UnitScale(j + 1, dx2);
  }

  /** `DirectionIterator`: the offsets and the last position reached. */
  class DirectionIterator {
    var dx: int
    var dy: int
    var row: int
    var col: int

    /** `iterate_from` on the pair `d`: its FIRST component is stored as dx
        (the column step) and its SECOND as dy (the row step). */
    constructor IterateFrom(d: (int, int), row: int, col: int)
      ensures dx == d.0 && dy == d.1
      ensures this.row == row && this.col == col
    {
      dx := d.0;
      dy := d.1;
      this.row := row;
      this.col := col;
    }

    /** The items still to come. */
    ghost function Remaining(): seq<(int, int)>
      reads this
      requires IsUnit(dy, dx)
    {
      Walk(row, col, dy, dx)
    }

    /** `next`: step, then report the square, or None once off the board. */
    method Next() returns (item: Option<(int, int)>)
      requires IsI8(row + dy) && IsI8(col + dx)
      modifies this
      ensures dx == old(dx) && dy == old(dy)
      ensures row == old(row) + dy && col == old(col) + dx
      ensures item == if OnBoard(row, col) then Some((row, col)) else None
      ensures IsUnit(dy, dx) ==>
        (if old(Remaining()) == [] then item == None
         else item == Some(old(Remaining())[0]) && Remaining() == old(Remaining())[1..])
    {
      row := row + dy;
      col := col + dx;
      OutOfRangeIff(row, col);
      if OutOfRange(row, col) {
        return None;
      }
      return Some((row, col));
    }
  }
}
