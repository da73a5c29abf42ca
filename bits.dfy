/** The `u64` arithmetic under crates/othello_game/src/bitboard.rs: square
    (row, col) is bit row * 8 + col, a shift moves every disc one square in a
    compass direction, and the lowest set bit names the first square in
    row-major order.  The `BitBoard` newtype itself is in module Bitboard. */
module Bits {
  import opened Core

  /** `ShiftDir`: the eight compass directions of the bit-parallel board. */
  datatype ShiftDir = Up | Down | Left | Right | UpLeft | UpRight | DownLeft | DownRight
  {
    /** `shift`: the bit distance of one step; a shift by it moves every disc
        DRow() rows and DCol() columns. */
    function Shift(): (s: int)
      ensures s == 8 * DRow() + DCol()
      ensures s != 0 && -9 <= s <= 9
    {
      match this
      case Up => -8
      case Down => 8
      case Left => -1
      case Right => 1
      case UpLeft => -9
      case UpRight => -7
      case DownLeft => 7
      case DownRight => 9
    }

    /** `reverse`: the opposite direction. */
    function Reverse(): (d: ShiftDir)
      ensures d.DRow() == -DRow() && d.DCol() == -DCol()
      ensures d != this
    {
      match this
      case Up => Down
      case Down => Up
      case Left => Right
      case Right => Left
      case UpLeft => DownRight
      case UpRight => DownLeft
      case DownLeft => UpRight
      case DownRight => UpLeft
    }

    /** The row a disc moves by under this shift. */
    function DRow(): int
    {
      match this
      case Up => -1
      case Down => 1
      case Left => 0
      case Right => 0
      case UpLeft => -1
      case UpRight => -1
      case DownLeft => 1
      case DownRight => 1
    }

    /** The column a disc moves by under this shift. */
    function DCol(): int
    {
      match this
      case Up => 0
      case Down => 0
      case Left => -1
      case Right => 1
      case UpLeft => -1
      case UpRight => 1
      case DownLeft => -1
      case DownRight => 1
    }
  }

  lemma ReverseInvolution(d: ShiftDir)
    ensures d.Reverse().Reverse() == d
    ensures d.Reverse().Shift() == -d.Shift()
  {
  }

  /** `SHIFT_DIRS`, in the source's order. */
  const SHIFT_DIRS: seq<ShiftDir> := [Up, Down, Left, Right, UpLeft, UpRight, DownLeft, DownRight]

  lemma ShiftDirsAreAll()
    ensures |SHIFT_DIRS| == 8
    ensures forall d: ShiftDir :: d in SHIFT_DIRS
    ensures forall i, j :: 0 <= i < j < |SHIFT_DIRS| ==> SHIFT_DIRS[i] != SHIFT_DIRS[j]
  {
    forall d: ShiftDir
      ensures d in SHIFT_DIRS
    {
      match d
      case Up => assert SHIFT_DIRS[0] == d;
      case Down => assert SHIFT_DIRS[1] == d;
      case Left => assert SHIFT_DIRS[2] == d;
      case Right => assert SHIFT_DIRS[3] == d;
      case UpLeft => assert SHIFT_DIRS[4] == d;
      case UpRight => assert SHIFT_DIRS[5] == d;
      case DownLeft => assert SHIFT_DIRS[6] == d;
      case DownRight => assert SHIFT_DIRS[7] == d;
    }
  }

  /** The `u64` inside the source's `BitBoard` newtype. */
  type Word = bv64

  /** The empty mask. */
  const EMPTY: Word := 0

  predicate IsEmpty(x: Word)
  {
    x == 0
  }

  // ---------------------------------------------------------------------
  // Bit indices of squares.

  /** The numbers 0..7 as bit indices (a table, so that no integer-to-vector
      conversion is needed). */
  function Lane(n: int): (b: bv8)
    requires 0 <= n < 8
    ensures b < 8
  {
    if n == 0 then 0 else if n == 1 then 1 else if n == 2 then 2 else if n == 3 then 3
    else if n == 4 then 4 else if n == 5 then 5 else if n == 6 then 6 else 7
  }

  /** The inverse table, extended with 8. */
  function Unlane(b: bv8): (n: int)
    requires b <= 8
    ensures 0 <= n <= 8
    ensures n < 8 ==> Lane(n) == b
    ensures n == 8 <==> b == 8
  {
    if b == 0 then 0 else if b == 1 then 1 else if b == 2 then 2 else if b == 3 then 3
    else if b == 4 then 4 else if b == 5 then 5 else if b == 6 then 6 else if b == 7 then 7 else 8
  }

  /** The bit index row * 8 + col of an on-board square. */
  function Index(row: int, col: int): (i: bv8)
    requires OnBoard(row, col)
    ensures i < 64
  {
    Lane(row) * 8 + Lane(col)
  }

  /** The square of a bit index: (i >> 3, i & 7). */
  function SquareOf(i: bv8): (p: (int, int))
    requires i < 64
    ensures OnBoard(p.0, p.1) && Index(p.0, p.1) == i
  {
    (Unlane(i >> 3), Unlane(i & 7))
  }

  lemma LaneFacts(n: int)
    requires 0 <= n < 8
    ensures n < 7 ==> Lane(n + 1) == Lane(n) + 1
    ensures Lane(n) == 7 <==> n == 7
    ensures Lane(n) == 0 <==> n == 0
  {
  }

  lemma IndexParts(row: int, col: int)
    requires OnBoard(row, col)
    ensures Index(row, col) >> 3 == Lane(row) && Index(row, col) & 7 == Lane(col)
  {
  }

  lemma IndexInjective(r1: int, c1: int, r2: int, c2: int)
    requires OnBoard(r1, c1) && OnBoard(r2, c2)
    ensures Index(r1, c1) == Index(r2, c2) <==> (r1 == r2 && c1 == c2)
  {
    assert Index(r1, c1) >> 3 == Lane(r1) && Index(r1, c1) & 7 == Lane(c1);
    assert Index(r2, c2) >> 3 == Lane(r2) && Index(r2, c2) & 7 == Lane(c2);
  }

  /** Bit indices follow the row-major order of squares. */
  lemma IndexOrder(r1: int, c1: int, r2: int, c2: int)
    requires OnBoard(r1, c1) && OnBoard(r2, c2)
    ensures Index(r1, c1) < Index(r2, c2) <==> r1 * 8 + c1 < r2 * 8 + c2
  {
  }

  /** The index of square number k (0..63) in row-major order. */
  function BitIndex(k: int): (i: bv8)
    requires 0 <= k < 64
    ensures i < 64
    ensures (k < 8 ==> i < 8) && (k < 16 ==> i < 16) && (k < 24 ==> i < 24) && (k < 32 ==> i < 32)
    ensures (k < 40 ==> i < 40) && (k < 48 ==> i < 48) && (k < 56 ==> i < 56)
    decreases k
  {
    if k < 8 then Lane(k) else BitIndex(k - 8) + 8
  }

  lemma {:induction false} BitIndexOfSquare(row: int, col: int)
    requires OnBoard(row, col)
    ensures 0 <= row * 8 + col < 64 && BitIndex(row * 8 + col) == Index(row, col)
    decreases row
  {
    if row > 0 {
      BitIndexOfSquare(row - 1, col);
      assert row * 8 + col - 8 == (row - 1) * 8 + col;
      assert BitIndex(row * 8 + col) == BitIndex((row - 1) * 8 + col) + 8;
      assert Lane(row) == Lane(row - 1) + 1;
    }
  }

  predicate BitAt(x: Word, i: bv8)
    requires i < 64
  {
    (x >> i) & 1 != 0
  }

  /** `bit`: whether the square holds a disc of this mask. */
  predicate Bit(x: Word, row: int, col: int)
    requires OnBoard(row, col)
  {
    BitAt(x, Index(row, col))
  }

  /** The bit ops of the newtype act square by square. */
  lemma BitAnd(x: Word, y: Word, row: int, col: int)
    requires OnBoard(row, col)
    ensures Bit(x & y, row, col) == (Bit(x, row, col) && Bit(y, row, col))
  {
    BitAtAnd(x, y, Index(row, col));
  }

  lemma BitOr(x: Word, y: Word, row: int, col: int)
    requires OnBoard(row, col)
    ensures Bit(x | y, row, col) == (Bit(x, row, col) || Bit(y, row, col))
  {
    BitAtOr(x, y, Index(row, col));
  }

  lemma BitNot(x: Word, row: int, col: int)
    requires OnBoard(row, col)
    ensures Bit(!x, row, col) == !Bit(x, row, col)
    ensures !Bit(EMPTY, row, col)
  {
    BitAtNot(x, Index(row, col));
  }

  lemma BitAtAnd(x: Word, y: Word, i: bv8)
    requires i < 64
    ensures BitAt(x & y, i) == (BitAt(x, i) && BitAt(y, i))
  {
  }

  lemma BitAtOr(x: Word, y: Word, i: bv8)
    requires i < 64
    ensures BitAt(x | y, i) == (BitAt(x, i) || BitAt(y, i))
  {
  }

  lemma BitAtNot(x: Word, i: bv8)
    requires i < 64
    ensures BitAt(!x, i) == !BitAt(x, i)
    ensures !BitAt(EMPTY, i)
  {
  }

  // ---------------------------------------------------------------------
  // Masks of the bits below an index.

  /** The bits below index i. */
  function LowMask(i: bv8): Word
    requires i <= 64
  {
    ((1 as bv64) << i) - 1
  }

  lemma LowMaskEnds(x: Word)
    ensures x & LowMask(0) == 0
    ensures x & LowMask(64) == x
  {
  }

  lemma LowMaskGrowAgree(x: Word, y: Word, i: bv8)
    requires 0 < i <= 64
    requires x & LowMask(i - 1) == y & LowMask(i - 1) && BitAt(x, i - 1) == BitAt(y, i - 1)
    ensures x & LowMask(i) == y & LowMask(i)
  {
  }

  lemma LowMaskGrowClear(x: Word, i: bv8)
    requires 0 < i <= 64
    requires x & LowMask(i - 1) == 0 && !BitAt(x, i - 1)
    ensures x & LowMask(i) == 0
  {
  }

  lemma LowMaskBelow(x: Word, i: bv8, j: bv8)
    requires j < i <= 64
    requires x & LowMask(i) == 0
    ensures !BitAt(x, j)
  {
  }

  /** x and y agree on the bits below i. */
  ghost predicate AgreeBelow(x: Word, y: Word, i: bv8)
    requires i <= 64
  {
    forall j: bv8 :: j < i ==> BitAt(x, j) == BitAt(y, j)
  }

  lemma AgreeBelowTop(x: Word, y: Word, i: bv8)
    requires 0 < i <= 64 && AgreeBelow(x, y, i)
    ensures AgreeBelow(x, y, i - 1) && BitAt(x, i - 1) == BitAt(y, i - 1)
  {
  }

  lemma {:induction false} AgreeBelowMask(x: Word, y: Word, i: bv8)
    requires i <= 64 && AgreeBelow(x, y, i)
    ensures x & LowMask(i) == y & LowMask(i)
    decreases i
  {
    if i == 0 {
      LowMaskEnds(x);
      LowMaskEnds(y);
    } else {
      AgreeBelowTop(x, y, i);
      AgreeBelowMask(x, y, i - 1);
      LowMaskGrowAgree(x, y, i);
    }
  }

  /** A mask is determined by its 64 squares. */
  lemma Extensionality(x: Word, y: Word)
    requires forall r, c :: OnBoard(r, c) ==> Bit(x, r, c) == Bit(y, r, c)
    ensures x == y
  {
    forall j: bv8 | j < 64
      ensures BitAt(x, j) == BitAt(y, j)
    {
      var p := SquareOf(j);
      assert Bit(x, p.0, p.1) == Bit(y, p.0, p.1);
    }
    assert AgreeBelow(x, y, 64);
    AgreeBelowMask(x, y, 64);
    LowMaskEnds(x);
    LowMaskEnds(y);
  }

  /** No bit of x from i up to (not including) k is set. */
  ghost predicate ClearBetween(x: Word, i: bv8, k: bv8)
    requires k <= 64
  {
    forall j: bv8 :: i <= j < k ==> !BitAt(x, j)
  }

  lemma ClearBetweenGrow(x: Word, i: bv8, k: bv8)
    requires i < k <= 64
    requires !BitAt(x, i) && ClearBetween(x, i + 1, k)
    ensures ClearBetween(x, i, k)
  {
  }

  lemma ClearBetweenTop(x: Word, k: bv8)
    requires 0 < k <= 64 && ClearBetween(x, 0, k)
    ensures ClearBetween(x, 0, k - 1) && !BitAt(x, k - 1)
  {
  }

  lemma {:induction false} ClearBelowMask(x: Word, k: bv8)
    requires k <= 64 && ClearBetween(x, 0, k)
    ensures x & LowMask(k) == 0
    decreases k
  {
    if k == 0 {
      LowMaskEnds(x);
    } else {
      ClearBetweenTop(x, k);
      ClearBelowMask(x, k - 1);
      LowMaskGrowClear(x, k);
    }
  }

  lemma MaskClearBelow(x: Word, k: bv8)
    requires k <= 64 && x & LowMask(k) == 0
    ensures ClearBetween(x, 0, k)
  {
    forall j: bv8 | j < k
      ensures !BitAt(x, j)
    {
      LowMaskBelow(x, k, j);
    }
  }

  /** Only the empty mask has no set bit. */
  lemma ClearIsEmpty(x: Word)
    ensures ClearBetween(x, 0, 64) <==> x == EMPTY
  {
    if ClearBetween(x, 0, 64) {
      ClearBelowMask(x, 64);
      LowMaskEnds(x);
    } else {
      var j: bv8 :| j < 64 && BitAt(x, j);
      BitAtNot(x, j);
    }
  }
  // ---------------------------------------------------------------------
  // Shifts.

  /** `shift`: a logical shift by the distance, then clearing of the edge
      column that a diagonal or horizontal step would wrap into.  Shifting by
      64 or more overflows in the source, hence the precondition. */
  function Shift(x: Word, shift: int): Word
    requires -64 < shift < 64
  {
    var y := if shift < 0 then x >> BitIndex(-shift) else x << BitIndex(shift);
    if shift == -1 || shift == 7 || shift == -9 then y & 0x7F7F_7F7F_7F7F_7F7F
    else if shift == 1 || shift == -7 || shift == 9 then y & 0xFEFE_FEFE_FEFE_FEFE
    else y
  }

  lemma UpAt(x: Word, i: bv8)
    requires i < 64
    ensures BitAt(Shift(x, -8), i) == (i >> 3 != 7 && BitAt(x, i + 8))
  {
    assert BitIndex(8) == 8;
  }

  lemma DownAt(x: Word, i: bv8)
    requires i < 64
    ensures BitAt(Shift(x, 8), i) == (i >> 3 != 0 && BitAt(x, i - 8))
  {
    assert BitIndex(8) == 8;
  }

  lemma LeftAt(x: Word, i: bv8)
    requires i < 64
    ensures BitAt(Shift(x, -1), i) == (i & 7 != 7 && BitAt(x, i + 1))
  {
    assert BitIndex(1) == 1;
  }

  lemma RightAt(x: Word, i: bv8)
    requires i < 64
    ensures BitAt(Shift(x, 1), i) == (i & 7 != 0 && BitAt(x, i - 1))
  {
    assert BitIndex(1) == 1;
  }

  lemma UpLeftAt(x: Word, i: bv8)
    requires i < 64
    ensures BitAt(Shift(x, -9), i) == (i & 7 != 7 && i >> 3 != 7 && BitAt(x, i + 9))
  {
    assert BitIndex(9) == 9;
  }

  lemma UpRightAt(x: Word, i: bv8)
    requires i < 64
    ensures BitAt(Shift(x, -7), i) == (i & 7 != 0 && i >> 3 != 7 && BitAt(x, i + 7))
  {
    assert BitIndex(7) == 7;
  }

  lemma DownLeftAt(x: Word, i: bv8)
    requires i < 64
    ensures BitAt(Shift(x, 7), i) == (i & 7 != 7 && i >> 3 != 0 && BitAt(x, i - 7))
  {
    assert BitIndex(7) == 7;
  }

  lemma DownRightAt(x: Word, i: bv8)
    requires i < 64
    ensures BitAt(Shift(x, 9), i) == (i & 7 != 0 && i >> 3 != 0 && BitAt(x, i - 9))
  {
    assert BitIndex(9) == 9;
  }

  lemma UpBit(x: Word, d: ShiftDir, row: int, col: int)
    requires OnBoard(row, col) && d == Up
    ensures Bit(Shift(x, d.Shift()), row, col) ==
      (OnBoard(row - d.DRow(), col - d.DCol()) && Bit(x, row - d.DRow(), col - d.DCol()))
  {
    IndexParts(row, col);
    LaneFacts(row);
    LaneFacts(col);
    UpAt(x, Index(row, col));
    if OnBoard(row + 1, col) {
      assert Index(row + 1, col) == Index(row, col) + 8;
    }
  }

  lemma DownBit(x: Word, d: ShiftDir, row: int, col: int)
    requires OnBoard(row, col) && d == Down
    ensures Bit(Shift(x, d.Shift()), row, col) ==
      (OnBoard(row - d.DRow(), col - d.DCol()) && Bit(x, row - d.DRow(), col - d.DCol()))
  {
    IndexParts(row, col);
    LaneFacts(row);
    LaneFacts(col);
    DownAt(x, Index(row, col));
    if OnBoard(row - 1, col) {
      assert Index(row - 1, col) == Index(row, col) - 8;
    }
  }

  lemma LeftBit(x: Word, d: ShiftDir, row: int, col: int)
    requires OnBoard(row, col) && d == Left
    ensures Bit(Shift(x, d.Shift()), row, col) ==
      (OnBoard(row - d.DRow(), col - d.DCol()) && Bit(x, row - d.DRow(), col - d.DCol()))
  {
    IndexParts(row, col);
    LaneFacts(row);
    LaneFacts(col);
    LeftAt(x, Index(row, col));
    if OnBoard(row, col + 1) {
      assert Index(row, col + 1) == Index(row, col) + 1;
    }
  }

  lemma RightBit(x: Word, d: ShiftDir, row: int, col: int)
    requires OnBoard(row, col) && d == Right
    ensures Bit(Shift(x, d.Shift()), row, col) ==
      (OnBoard(row - d.DRow(), col - d.DCol()) && Bit(x, row - d.DRow(), col - d.DCol()))
  {
    IndexParts(row, col);
    LaneFacts(row);
    LaneFacts(col);
    RightAt(x, Index(row, col));
    if OnBoard(row, col - 1) {
      assert Index(row, col - 1) == Index(row, col) - 1;
    }
  }

  lemma UpLeftBit(x: Word, d: ShiftDir, row: int, col: int)
    requires OnBoard(row, col) && d == UpLeft
    ensures Bit(Shift(x, d.Shift()), row, col) ==
      (OnBoard(row - d.DRow(), col - d.DCol()) && Bit(x, row - d.DRow(), col - d.DCol()))
  {
    IndexParts(row, col);
    LaneFacts(row);
    LaneFacts(col);
    UpLeftAt(x, Index(row, col));
    if OnBoard(row + 1, col + 1) {
      assert Index(row + 1, col + 1) == Index(row, col) + 9;
    }
  }

  lemma UpRightBit(x: Word, d: ShiftDir, row: int, col: int)
    requires OnBoard(row, col) && d == UpRight
    ensures Bit(Shift(x, d.Shift()), row, col) ==
      (OnBoard(row - d.DRow(), col - d.DCol()) && Bit(x, row - d.DRow(), col - d.DCol()))
  {
    IndexParts(row, col);
    LaneFacts(row);
    LaneFacts(col);
    UpRightAt(x, Index(row, col));
    if OnBoard(row + 1, col - 1) {
      assert Index(row + 1, col - 1) == Index(row, col) + 7;
    }
  }

  lemma DownLeftBit(x: Word, d: ShiftDir, row: int, col: int)
    requires OnBoard(row, col) && d == DownLeft
    ensures Bit(Shift(x, d.Shift()), row, col) ==
      (OnBoard(row - d.DRow(), col - d.DCol()) && Bit(x, row - d.DRow(), col - d.DCol()))
  {
    IndexParts(row, col);
    LaneFacts(row);
    LaneFacts(col);
    DownLeftAt(x, Index(row, col));
    if OnBoard(row - 1, col + 1) {
      assert Index(row - 1, col + 1) == Index(row, col) - 7;
    }
  }

  lemma DownRightBit(x: Word, d: ShiftDir, row: int, col: int)
    requires OnBoard(row, col) && d == DownRight
    ensures Bit(Shift(x, d.Shift()), row, col) ==
      (OnBoard(row - d.DRow(), col - d.DCol()) && Bit(x, row - d.DRow(), col - d.DCol()))
  {
    IndexParts(row, col);
    LaneFacts(row);
    LaneFacts(col);
    DownRightAt(x, Index(row, col));
    if OnBoard(row - 1, col - 1) {
      assert Index(row - 1, col - 1) == Index(row, col) - 9;
    }
  }

  /** Square (row, col) of the shifted mask holds what square
      (row - DRow, col - DCol) held, and nothing when that is off the board:
      no disc wraps round an edge. */
  lemma ShiftBit(x: Word, d: ShiftDir, row: int, col: int)
    requires OnBoard(row, col)
    ensures Bit(Shift(x, d.Shift()), row, col) ==
      (OnBoard(row - d.DRow(), col - d.DCol()) && Bit(x, row - d.DRow(), col - d.DCol()))
  {
    match d
    case Up => UpBit(x, d, row, col);
    case Down => DownBit(x, d, row, col);
    case Left => LeftBit(x, d, row, col);
    case Right => RightBit(x, d, row, col);
    case UpLeft => UpLeftBit(x, d, row, col);
    case UpRight => UpRightBit(x, d, row, col);
    case DownLeft => DownLeftBit(x, d, row, col);
    case DownRight => DownRightBit(x, d, row, col);
  }

  /** The masks of `shift`: a step with a leftward column component never
      leaves a disc in column 7, one with a rightward component never leaves
      one in column 0. */
  lemma ShiftClearsWrappedColumn(x: Word, d: ShiftDir, row: int)
    requires 0 <= row < 8
    ensures d.DCol() == -1 ==> !Bit(Shift(x, d.Shift()), row, 7)
    ensures d.DCol() == 1 ==> !Bit(Shift(x, d.Shift()), row, 0)
  {
    ShiftBit(x, d, row, 7);
    ShiftBit(x, d, row, 0);
  }

  // ---------------------------------------------------------------------
  // Single squares.

  /** `From<(i8, i8)>`: the mask `1 << (row * 8 + col)`.  The `i8` product
      must not overflow and the shift must stay below 64; a column of 8 or
      more is not rejected and lands in a later row. */
  function FromSquare(row: int, col: int): (b: Word)
    requires IsI8(row * 8) && 0 <= row * 8 + col < 64
  {
    (1 as bv64) << BitIndex(row * 8 + col)
  }

  lemma SingleBitAt(i: bv8, j: bv8)
    requires i < 64 && j < 64
    ensures BitAt((1 as bv64) << i, j) <==> i == j
  {
  }

  /** The mask holds square (row, col) and no other. */
  ghost predicate OnlySquare(b: Word, row: int, col: int)
  {
    forall r, c :: OnBoard(r, c) ==> (Bit(b, r, c) <==> r == row && c == col)
  }

  /** The mask holds no square. */
  ghost predicate NoSquare(b: Word)
  {
    forall r, c :: OnBoard(r, c) ==> !Bit(b, r, c)
  }

  lemma OnlySquareUnique(b: Word, t: Word, row: int, col: int)
    requires OnlySquare(b, row, col) && OnlySquare(t, row, col)
    ensures b == t
  {
    forall r, c | OnBoard(r, c)
      ensures Bit(b, r, c) == Bit(t, r, c)
    {
    }
    Extensionality(b, t);
  }

  lemma NoSquareEmpty(b: Word)
    requires NoSquare(b)
    ensures b == EMPTY
  {
    forall r, c | OnBoard(r, c)
      ensures Bit(b, r, c) == Bit(EMPTY, r, c)
    {
      BitNot(EMPTY, r, c);
    }
    Extensionality(b, EMPTY);
  }

  /** The mask of an on-board square holds that square and no other. */
  lemma FromSquareBits(row: int, col: int)
    requires OnBoard(row, col)
    ensures FromSquare(row, col) == (1 as bv64) << Index(row, col)
    ensures OnlySquare(FromSquare(row, col), row, col)
  {
    BitIndexOfSquare(row, col);
    forall r, c | OnBoard(r, c)
      ensures Bit(FromSquare(row, col), r, c) <==> r == row && c == col
    {
      IndexInjective(r, c, row, col);
      SingleBitAt(Index(row, col), Index(r, c));
    }
  }

  /** A single square shifted one step lands on the neighbouring square, or
      vanishes at the edge. */
  lemma ShiftSingleBits(d: ShiftDir, row: int, col: int)
    requires OnBoard(row, col)
    ensures OnBoard(row + d.DRow(), col + d.DCol()) ==>
      OnlySquare(Shift(FromSquare(row, col), d.Shift()), row + d.DRow(), col + d.DCol())
    ensures !OnBoard(row + d.DRow(), col + d.DCol()) ==> NoSquare(Shift(FromSquare(row, col), d.Shift()))
  {
    var b := FromSquare(row, col);
    FromSquareBits(row, col);
    forall r, c | OnBoard(r, c)
      ensures Bit(Shift(b, d.Shift()), r, c) <==> r == row + d.DRow() && c == col + d.DCol()
    {
      ShiftBit(b, d, r, c);
      if OnBoard(r - d.DRow(), c - d.DCol()) {
        assert Bit(b, r - d.DRow(), c - d.DCol()) <==> r - d.DRow() == row && c - d.DCol() == col;
      }
    }
  }

  lemma ShiftSingle(d: ShiftDir, row: int, col: int)
    requires OnBoard(row, col)
    ensures Shift(FromSquare(row, col), d.Shift()) ==
      if OnBoard(row + d.DRow(), col + d.DCol()) then FromSquare(row + d.DRow(), col + d.DCol()) else EMPTY
  {
    ShiftSingleBits(d, row, col);
    if OnBoard(row + d.DRow(), col + d.DCol()) {
      FromSquareBits(row + d.DRow(), col + d.DCol());
      OnlySquareUnique(Shift(FromSquare(row, col), d.Shift()), FromSquare(row + d.DRow(), col + d.DCol()),
        row + d.DRow(), col + d.DCol());
    } else {
      NoSquareEmpty(Shift(FromSquare(row, col), d.Shift()));
    }
  }

  // ---------------------------------------------------------------------
  // Counting.

  /** The number of set bits from index i upwards. */
  function CountFrom(x: Word, i: bv8): (k: nat)
    requires i <= 64
    decreases 64 - i, x
  {
    if i == 64 then 0 else (if BitAt(x, i) then 1 else 0) + CountFrom(x, i + 1)
  }

  /** `count` (`count_ones`). */
  function Count(x: Word): nat
  {
    CountFrom(x, 0)
  }

  lemma ClearBetweenBottom(x: Word, i: bv8)
    requires i < 64 && ClearBetween(x, i, 64)
    ensures !BitAt(x, i) && ClearBetween(x, i + 1, 64)
  {
  }

  lemma {:induction false} CountFromZero(x: Word, i: bv8)
    requires i <= 64 && CountFrom(x, i) == 0
    ensures ClearBetween(x, i, 64)
    decreases 64 - i
  {
    if i < 64 {
      CountFromZero(x, i + 1);
      ClearBetweenGrow(x, i, 64);
    }
  }

  lemma {:induction false} CountFromClear(x: Word, i: bv8)
    requires i <= 64 && ClearBetween(x, i, 64)
    ensures CountFrom(x, i) == 0
    decreases 64 - i
  {
    if i < 64 {
      ClearBetweenBottom(x, i);
      CountFromClear(x, i + 1);
    }
  }

  /** Only the empty mask counts 0. */
  lemma CountZero(x: Word)
    ensures Count(x) == 0 <==> x == EMPTY
  {
    ClearIsEmpty(x);
    if Count(x) == 0 {
      CountFromZero(x, 0);
    } else if x == EMPTY {
      CountFromClear(x, 0);
    }
  }

  lemma DisjointBitAt(x: Word, y: Word, i: bv8)
    requires i < 64 && x & y == EMPTY
    ensures (if BitAt(x | y, i) then 1 else 0) == (if BitAt(x, i) then 1 else 0) + (if BitAt(y, i) then 1 else 0)
  {
    BitAtOr(x, y, i);
    BitAtAnd(x, y, i);
    BitAtNot(EMPTY, i);
  }

  lemma {:induction false} CountFromUnion(x: Word, y: Word, i: bv8)
    requires i <= 64 && x & y == EMPTY
    ensures CountFrom(x | y, i) == CountFrom(x, i) + CountFrom(y, i)
    decreases 64 - i
  {
    if i < 64 {
      CountFromUnion(x, y, i + 1);
      DisjointBitAt(x, y, i);
    }
  }

  /** The counts of disjoint masks add up. */
  lemma CountUnion(x: Word, y: Word)
    requires x & y == EMPTY
    ensures Count(x | y) == Count(x) + Count(y)
  {
    CountFromUnion(x, y, 0);
  }

  lemma {:induction false} CountFromSingle(k: bv8, i: bv8)
    requires k < 64 && i <= 64
    ensures CountFrom((1 as bv64) << k, i) == if i <= k then 1 else 0
    decreases 64 - i
  {
    if i < 64 {
      CountFromSingle(k, i + 1);
      SingleBitAt(k, i);
    }
  }

  /** `From<(i8, i8)>` sets one square, which `bit` reports. */
  lemma FromSquareCount(row: int, col: int)
    requires OnBoard(row, col)
    ensures Count(FromSquare(row, col)) == 1
    ensures Bit(FromSquare(row, col), row, col)
  {
    FromSquareBits(row, col);
    CountFromSingle(Index(row, col), 0);
  }

  // ---------------------------------------------------------------------
  // The lowest set bit.

  /** The lowest set bit at index i or above, or 64 when there is none. */
  function LowestFrom(x: Word, i: bv8): (k: bv8)
    requires i <= 64
    ensures i <= k <= 64
    ensures k < 64 ==> BitAt(x, k)
    decreases 64 - i, x
  {
    if i == 64 then 64 else if BitAt(x, i) then i else LowestFrom(x, i + 1)
  }

  lemma {:induction false} LowestFromSkips(x: Word, i: bv8)
    requires i <= 64
    ensures ClearBetween(x, i, LowestFrom(x, i))
    decreases 64 - i
  {
    if i < 64 && !BitAt(x, i) {
      LowestFromSkips(x, i + 1);
      ClearBetweenGrow(x, i, LowestFrom(x, i));
    }
  }

  /** `trailing_zeros`: the index of the lowest set bit, 64 for the empty mask. */
  function TrailingZeros(x: Word): (k: bv8)
    ensures k <= 64
  {
    LowestFrom(x, 0)
  }

  lemma TrailingZerosIsLowest(x: Word)
    ensures TrailingZeros(x) == 64 <==> x == EMPTY
    ensures x != EMPTY ==> BitAt(x, TrailingZeros(x)) && x & LowMask(TrailingZeros(x)) == 0
  {
    var k := TrailingZeros(x);
    LowestFromSkips(x, 0);
    ClearBelowMask(x, k);
    ClearIsEmpty(x);
    if x == EMPTY && k < 64 {
      BitAtNot(x, k);
    }
  }

  /** The mask without its lowest set bit (`x & (x - 1)`). */
  function DropLowest(x: Word): Word
  {
    x & (x - 1)
  }

  /** `next_bit`: the lowest set bit, or the empty mask unchanged. */
  function NextBit(x: Word): Word
  {
    if x == 0 then x else x - DropLowest(x)
  }

  lemma NextBitForm(x: Word)
    requires x != 0
    ensures DropLowest(x) == x & (x - 1)
    ensures NextBit(x) == x - (x & (x - 1))
  {
  }

  lemma LowestBitForm(x: Word)
    ensures x - DropLowest(x) == x & !(x - 1)
  {
  }

  lemma LowestBitKept(x: Word, i: bv8)
    requires i < 64
    requires BitAt(x, i) && x & LowMask(i) == 0
    ensures BitAt(x & !(x - 1), i)
  {
  }

  lemma LowestBitOnly(x: Word, i: bv8)
    requires i < 64
    requires BitAt(x & !(x - 1), i)
    ensures BitAt(x, i)
    ensures x & LowMask(i) == 0
  {
  }

  lemma LowestBitAt(x: Word, i: bv8, j: bv8)
    requires i < 64 && BitAt(x, i) && x & LowMask(i) == 0
    requires j < 64
    ensures BitAt(x & !(x - 1), j) == BitAt((1 as bv64) << i, j)
  {
    SingleBitAt(i, j);
    if j == i {
      LowestBitKept(x, i);
    } else if BitAt(x & !(x - 1), j) {
      LowestBitOnly(x, j);
      if j < i {
        LowMaskBelow(x, i, j);
      } else {
        LowMaskBelow(x, j, i);
      }
    }
  }

  /** Bitwise extensionality. */
  lemma SameBits(x: Word, y: Word)
    requires AgreeBelow(x, y, 64)
    ensures x == y
  {
    AgreeBelowMask(x, y, 64);
    LowMaskEnds(x);
    LowMaskEnds(y);
  }

  lemma LowestBit(x: Word, i: bv8)
    requires i < 64 && BitAt(x, i) && x & LowMask(i) == 0
    ensures NextBit(x) == (1 as bv64) << i
  {
    BitAtNot(x, i);
    LowestBitForm(x);
    var b, t := x & !(x - 1), (1 as bv64) << i;
    forall j: bv8 | j < 64
      ensures BitAt(b, j) == BitAt(t, j)
    {
      LowestBitAt(x, i, j);
    }
    SameBits(b, t);
  }

  /** `next_bit` is the lowest set bit. */
  lemma NextBitIsLowest(x: Word)
    ensures x == EMPTY ==> NextBit(x) == EMPTY
    ensures x != EMPTY ==> NextBit(x) == (1 as bv64) << TrailingZeros(x)
  {
    if x != EMPTY {
      NonEmptyNextBit(x);
    }
  }

  lemma NonEmptyNextBit(x: Word)
    requires x != EMPTY
    ensures NextBit(x) == (1 as bv64) << TrailingZeros(x)
  {
    TrailingZerosIsLowest(x);
    LowestBit(x, TrailingZeros(x));
  }

  /** The lowest bit and the rest split the mask: together they give it back
      and they share no bit. */
  lemma NextBitSplits(x: Word)
    ensures DropLowest(x) | NextBit(x) == x
    ensures DropLowest(x) & NextBit(x) == EMPTY
  {
  }

  /** `to_bit_pos`: (bit_num >> 3, bit_num & 7) for the trailing-zero count. */
  function ToBitPos(x: Word): (p: (int, int))
  {
    var bitNum := TrailingZeros(x);
    (Unlane(bitNum >> 3), Unlane(bitNum & 7))
  }

  /** `to_bit_pos` of a non-empty mask is its first square in row-major
      order; of the empty mask it is (8, 0). */
  lemma ToBitPosLowest(x: Word)
    ensures x == EMPTY ==> ToBitPos(x) == (8, 0)
    ensures x != EMPTY ==> OnBoard(ToBitPos(x).0, ToBitPos(x).1)
    ensures x != EMPTY ==> Bit(x, ToBitPos(x).0, ToBitPos(x).1)
    ensures x != EMPTY ==> forall r, c :: OnBoard(r, c) && r * 8 + c < ToBitPos(x).0 * 8 + ToBitPos(x).1 ==> !Bit(x, r, c)
  {
    TrailingZerosIsLowest(x);
    var k := TrailingZeros(x);
    if x != EMPTY {
      var p := SquareOf(k);
      assert ToBitPos(x) == p;
      forall r, c | OnBoard(r, c) && r * 8 + c < p.0 * 8 + p.1
        ensures !Bit(x, r, c)
      {
        IndexOrder(r, c, p.0, p.1);
        LowMaskBelow(x, k, Index(r, c));
      }
    }
  }

  /** `next_bit` of a non-empty mask is the mask of its `to_bit_pos` square. */
  lemma NextBitIsFirstSquare(x: Word)
    requires x != EMPTY
    ensures OnBoard(ToBitPos(x).0, ToBitPos(x).1)
    ensures NextBit(x) == FromSquare(ToBitPos(x).0, ToBitPos(x).1)
  {
    NextBitIsLowest(x);
    ToBitPosLowest(x);
    var p := SquareOf(TrailingZeros(x));
    assert ToBitPos(x) == p;
    FromSquareBits(p.0, p.1);
  }

  lemma TrailingZerosSingle(i: bv8)
    requires i < 64
    ensures TrailingZeros((1 as bv64) << i) == i
  {
    var b := (1 as bv64) << i;
    SingleBitAt(i, i);
    TrailingZerosIsLowest(b);
    SingleBitAt(i, TrailingZeros(b));
  }

  /** `to_bit_pos` inverts `From<(i8, i8)>` on the board. */
  lemma ToBitPosFromSquare(row: int, col: int)
    requires OnBoard(row, col)
    ensures ToBitPos(FromSquare(row, col)) == (row, col)
  {
    FromSquareBits(row, col);
    TrailingZerosSingle(Index(row, col));
    var p := SquareOf(Index(row, col));
    assert ToBitPos(FromSquare(row, col)) == p;
    IndexInjective(p.0, p.1, row, col);
  }
}
