/** Worked positions from the repository's tests and the bit board's own
    unit tests (crates/othello_game/src/bitboardgame.rs, the two
    test_game.rs files and the two test_minimax.rs files), stated on the
    model: the opening moves of both colours on either board and through
    the older iterator, the score after every opening move, the move that
    captures a whole ring, the corner move on one row that once flipped the
    wrong discs, a row with no legal move, the static evaluation of a
    one-row position, and the three texts `try_from` rejects.

    The fills are evaluated on the fixed masks a few steps at a time: once
    a fill step finds nothing, every later step finds nothing, so a fill
    that stops after one or two steps is the union of those steps. */
module Fixtures {
  import opened Core
  import opened Bitboard
  import Bits
  import BG = BitboardGame
  import DB = DefaultBoard
  import Agreement
  import Boards
  import Games
  import Legacy
  import AI
  import Minimax

  // ---------------------------------------------------------------------
  // Evaluating the fills on fixed masks.

  lemma ShiftNothing(shift: int)
    requires -64 < shift < 64
    ensures Shift(EMPTY, shift) == EMPTY
  {
    assert Bits.Shift(0, shift) == 0;
  }

  lemma AndNothing(a: BitBoard, b: BitBoard)
    requires a == EMPTY
    ensures And(a, b) == EMPTY
  {
  }

  lemma OrNothing(a: BitBoard, b: BitBoard)
    requires b == EMPTY
    ensures Or(a, b) == a
  {
  }

  lemma OrFromNothing(a: BitBoard, b: BitBoard)
    requires a == EMPTY
    ensures Or(a, b) == b
  {
  }

  /** A fill step that finds nothing is followed by one that finds nothing. */
  lemma NextEmpty(gen: BitBoard, pro: BitBoard, shift: int, j: nat)
    requires -64 < shift < 64 && FillGen(gen, pro, shift, j) == EMPTY
    ensures FillGen(gen, pro, shift, j + 1) == EMPTY
  {
    ShiftNothing(shift);
    AndNothing(Shift(FillGen(gen, pro, shift, j), shift), pro);
  }

  /** And so by every later one. */
  lemma {:induction false} GenStaysEmpty(gen: BitBoard, pro: BitBoard, shift: int, n: nat, k: nat)
    requires -64 < shift < 64 && n < k && FillGen(gen, pro, shift, n + 1) == EMPTY
    ensures FillGen(gen, pro, shift, k) == EMPTY
    decreases k
  {
    if k > n + 1 {
      GenStaysEmpty(gen, pro, shift, n, k - 1);
      NextEmpty(gen, pro, shift, k - 1);
    }
  }

  /** So the flood after k steps is the flood after the last step that found
      something. */
  lemma {:induction false} FloodStops(start: BitBoard, gen: BitBoard, pro: BitBoard, shift: int, n: nat, k: nat)
    requires -64 < shift < 64 && n <= k && FillGen(gen, pro, shift, n + 1) == EMPTY
    ensures Flood(start, gen, pro, shift, k) == Flood(start, gen, pro, shift, n)
    decreases k
  {
    if k > n {
      FloodStops(start, gen, pro, shift, n, k - 1);
      GenStaysEmpty(gen, pro, shift, n, k);
      OrNothing(Flood(start, gen, pro, shift, k - 1), FillGen(gen, pro, shift, k));
    }
  }

  /** The moves in a direction whose first fill step finds no opponent disc:
      none. */
  lemma QuietMoves(m: BitBoard, t: BitBoard, d: Bits.ShiftDir)
    requires FillGen(m, t, d.Shift(), 1) == EMPTY
    ensures BG.DirMoves(m, t, d) == EMPTY
  {
    FloodStops(EMPTY, m, t, d.Shift(), 0, FILL_STEPS);
    ShiftNothing(d.Shift());
  }

  /** The moves in a direction whose fill stops after one step: the squares
      one step beyond the opponent discs next to the player's. */
  lemma OneStepMoves(m: BitBoard, t: BitBoard, d: Bits.ShiftDir, first: BitBoard)
    requires FillGen(m, t, d.Shift(), 1) == first && FillGen(m, t, d.Shift(), 2) == EMPTY
    ensures BG.DirMoves(m, t, d) == Shift(first, d.Shift())
  {
    FloodStops(EMPTY, m, t, d.Shift(), 1, FILL_STEPS);
    FirstFlood(m, t, d.Shift(), first);
  }

  lemma FirstFlood(m: BitBoard, t: BitBoard, shift: int, first: BitBoard)
    requires -64 < shift < 64 && FillGen(m, t, shift, 1) == first
    ensures Flood(EMPTY, m, t, shift, 1) == first
  {
    assert Flood(EMPTY, m, t, shift, 1) == Or(EMPTY, first);
  }

  /** The union of the first k masks of a list, folded from the left. */
  function OrUpTo(vals: seq<BitBoard>, k: nat): BitBoard
    requires k <= |vals|
  {
    if k == 0 then EMPTY else Or(OrUpTo(vals, k - 1), vals[k - 1])
  }

  /** The union over a list of directions is the union of their moves. */
  lemma {:induction false} UnionOf(m: BitBoard, t: BitBoard, ds: seq<Bits.ShiftDir>, vals: seq<BitBoard>)
    requires |ds| <= |vals|
    requires forall i :: 0 <= i < |ds| ==> BG.DirMoves(m, t, ds[i]) == vals[i]
    ensures BG.DirUnion(m, t, ds) == OrUpTo(vals, |ds|)
    decreases |ds|
  {
    if |ds| > 0 {
      UnionOf(m, t, ds[..|ds| - 1], vals);
    }
  }

  /** A fill that stops after one step: the generator and that step. */
  lemma FillShort(gen: BitBoard, pro: BitBoard, shift: int, first: BitBoard)
    requires -64 < shift < 64
    requires FillGen(gen, pro, shift, 1) == first && FillGen(gen, pro, shift, 2) == EMPTY
    ensures Fill(gen, pro, shift) == Or(gen, first)
  {
    FloodStops(gen, gen, pro, shift, 1, FILL_STEPS);
  }

  /** No disc flips in a direction in which the move's square has no
      opponent neighbour behind it. */
  lemma QuietFlips(m: BitBoard, t: BitBoard, mv: BitBoard, d: Bits.ShiftDir)
    requires FillGen(mv, t, d.Reverse().Shift(), 1) == EMPTY && And(mv, Or(m, t)) == EMPTY
    ensures BG.DirFlips(m, t, mv, d) == EMPTY
  {
    FloodStops(mv, mv, t, d.Reverse().Shift(), 0, FILL_STEPS);
    FillBounds(m, t, d.Shift());
    ApartWithin(Fill(m, t, d.Shift()), Or(m, t), mv);
  }

  /** A board within x shares no square with a board apart from x. */
  lemma ApartWithin(a: BitBoard, x: BitBoard, mv: BitBoard)
    requires Within(a, x) && And(mv, x) == EMPTY
    ensures And(a, mv) == EMPTY
  {
    forall r, c | OnBoard(r, c)
      ensures !Bit(And(a, mv), r, c)
    {
      AndCell(a, mv, r, c);
      AndCell(mv, x, r, c);
      EmptyCell(r, c);
    }
    IsEmptyIff(And(a, mv));
  }

  /** The discs that flip in a direction in which both fills stop after one
      step. */
  lemma ShortFlips(m: BitBoard, t: BitBoard, mv: BitBoard, d: Bits.ShiftDir, f1: BitBoard, g1: BitBoard)
    requires FillGen(m, t, d.Shift(), 1) == f1 && FillGen(m, t, d.Shift(), 2) == EMPTY
    requires FillGen(mv, t, d.Reverse().Shift(), 1) == g1 && FillGen(mv, t, d.Reverse().Shift(), 2) == EMPTY
    ensures BG.DirFlips(m, t, mv, d) == And(Or(m, f1), Or(mv, g1))
  {
    FillShort(m, t, d.Shift(), f1);
    FillShort(mv, t, d.Reverse().Shift(), g1);
  }

  /** The union of the flips over a list of directions. */
  lemma {:induction false} FlipUnionOf(m: BitBoard, t: BitBoard, mv: BitBoard, ds: seq<Bits.ShiftDir>, vals: seq<BitBoard>)
    requires |ds| <= |vals|
    requires forall i :: 0 <= i < |ds| ==> BG.DirFlips(m, t, mv, ds[i]) == vals[i]
    ensures BG.FlipUnion(m, t, mv, ds) == OrUpTo(vals, |ds|)
    decreases |ds|
  {
    if |ds| > 0 {
      FlipUnionOf(m, t, mv, ds[..|ds| - 1], vals);
    }
  }

  /** Eight masks, all empty but the k-th. */
  function Only(k: int, f: BitBoard): (vals: seq<BitBoard>)
    ensures |vals| == 8
  {
    seq(8, i => if i == k then f else EMPTY)
  }

  lemma {:induction false} OrUpToOnly(k: int, f: BitBoard, n: nat)
    requires n <= 8
    ensures OrUpTo(Only(k, f), n) == if 0 <= k < n then f else EMPTY
  {
    if n > 0 {
      OrUpToOnly(k, f, n - 1);
      var prev, v := OrUpTo(Only(k, f), n - 1), Only(k, f)[n - 1];
      assert OrUpTo(Only(k, f), n) == Or(prev, v);
      if n - 1 == k {
        assert prev == EMPTY && v == f;
        OrFromNothing(prev, v);
      } else {
        assert v == EMPTY;
        OrNothing(prev, v);
      }
    }
  }

  /** Flips in one direction only are the flips of the move. */
  lemma FlipsOnly(m: BitBoard, t: BitBoard, mv: BitBoard, ds: seq<Bits.ShiftDir>, k: int, f: BitBoard)
    requires 0 <= k < 8 && |ds| == 8
    requires forall i :: 0 <= i < |ds| ==> BG.DirFlips(m, t, mv, ds[i]) == Only(k, f)[i]
    ensures BG.FlipUnion(m, t, mv, ds) == f
  {
    FlipUnionOf(m, t, mv, ds, Only(k, f));
    OrUpToOnly(k, f, 8);
  }

  /** The lowest set bit of a word is the one with no set bit below it. */
  lemma TrailingAt(x: Bits.Word, k: bv8)
    requires k < 64 && Bits.BitAt(x, k) && x & Bits.LowMask(k) == 0
    ensures x != 0 && Bits.TrailingZeros(x) == k
  {
    Bits.TrailingZerosIsLowest(x);
    var t := Bits.TrailingZeros(x);
    if x == 0 {
      Bits.BitAtNot(x, k);
    } else if t < k {
      Bits.LowMaskBelow(x, k, t);
    } else if t > k {
      Bits.LowMaskBelow(x, t, k);
    }
  }

  /** A mask whose lowest set bit is k lists the square of bit k first. */
  lemma FirstSquare(m: BitBoard, k: bv8)
    requires k < 64 && Bits.BitAt(m.bits, k) && m.bits & Bits.LowMask(k) == 0
    ensures !IsEmpty(m) && ToBitPos(m) == (Bits.Unlane(k >> 3), Bits.Unlane(k & 7))
    ensures BG.SquareList(m) == [ToBitPos(m)] + BG.SquareList(DropNext(m))
  {
    TrailingAt(m.bits, k);
  }

  // ---------------------------------------------------------------------
  // The opening position.

  const START_BLACK: BitBoard := BitBoard(0x0000_0010_0800_0000)
  const START_WHITE: BitBoard := BitBoard(0x0000_0008_1000_0000)

  /** Black's moves from the start, direction by direction in the order of
      SHIFT_DIRS: up from (4,4) over (3,4), down from (3,3) over (4,3), left
      from (4,4) over (4,3), right from (3,3) over (3,4). */
  const BLACK_DIR_MOVES: seq<BitBoard> := [BitBoard(0x10_0000), BitBoard(0x800_0000_0000),
    BitBoard(0x4_0000_0000), BitBoard(0x2000_0000), EMPTY, EMPTY, EMPTY, EMPTY]

  /** White's, likewise: up from (4,3) over (3,3), down from (3,4) over
      (4,4), left from (3,4) over (3,3), right from (4,3) over (4,4). */
  const WHITE_DIR_MOVES: seq<BitBoard> := [BitBoard(0x8_0000), BitBoard(0x1000_0000_0000),
    BitBoard(0x400_0000), BitBoard(0x20_0000_0000), EMPTY, EMPTY, EMPTY, EMPTY]

  lemma BlackUp()
    ensures BG.DirMoves(START_BLACK, START_WHITE, Bits.Up) == BitBoard(0x10_0000)
  {
    OneStepMoves(START_BLACK, START_WHITE, Bits.Up, BitBoard(0x1000_0000));
  }

  lemma BlackDown()
    ensures BG.DirMoves(START_BLACK, START_WHITE, Bits.Down) == BitBoard(0x800_0000_0000)
  {
    OneStepMoves(START_BLACK, START_WHITE, Bits.Down, BitBoard(0x8_0000_0000));
  }

  lemma BlackLeft()
    ensures BG.DirMoves(START_BLACK, START_WHITE, Bits.Left) == BitBoard(0x4_0000_0000)
  {
    OneStepMoves(START_BLACK, START_WHITE, Bits.Left, BitBoard(0x8_0000_0000));
  }

  lemma BlackRight()
    ensures BG.DirMoves(START_BLACK, START_WHITE, Bits.Right) == BitBoard(0x2000_0000)
  {
    OneStepMoves(START_BLACK, START_WHITE, Bits.Right, BitBoard(0x1000_0000));
  }

  lemma BlackDir(i: int)
    requires 0 <= i < |Bits.SHIFT_DIRS|
    ensures BG.DirMoves(START_BLACK, START_WHITE, Bits.SHIFT_DIRS[i]) == BLACK_DIR_MOVES[i]
  {
    if i == 0 { assert Bits.SHIFT_DIRS[i] == Bits.Up; BlackUp(); }
    else if i == 1 { assert Bits.SHIFT_DIRS[i] == Bits.Down; BlackDown(); }
    else if i == 2 { assert Bits.SHIFT_DIRS[i] == Bits.Left; BlackLeft(); }
    else if i == 3 { assert Bits.SHIFT_DIRS[i] == Bits.Right; BlackRight(); }
    else if i == 4 { assert Bits.SHIFT_DIRS[i] == Bits.UpLeft; QuietMoves(START_BLACK, START_WHITE, Bits.UpLeft); }
    else if i == 5 { assert Bits.SHIFT_DIRS[i] == Bits.UpRight; QuietMoves(START_BLACK, START_WHITE, Bits.UpRight); }
    else if i == 6 { assert Bits.SHIFT_DIRS[i] == Bits.DownLeft; QuietMoves(START_BLACK, START_WHITE, Bits.DownLeft); }
    else { assert Bits.SHIFT_DIRS[i] == Bits.DownRight; QuietMoves(START_BLACK, START_WHITE, Bits.DownRight); }
  }

  lemma WhiteUp()
    ensures BG.DirMoves(START_WHITE, START_BLACK, Bits.Up) == BitBoard(0x8_0000)
  {
    OneStepMoves(START_WHITE, START_BLACK, Bits.Up, BitBoard(0x800_0000));
  }

  lemma WhiteDown()
    ensures BG.DirMoves(START_WHITE, START_BLACK, Bits.Down) == BitBoard(0x1000_0000_0000)
  {
    OneStepMoves(START_WHITE, START_BLACK, Bits.Down, BitBoard(0x10_0000_0000));
  }

  lemma WhiteLeft()
    ensures BG.DirMoves(START_WHITE, START_BLACK, Bits.Left) == BitBoard(0x400_0000)
  {
    OneStepMoves(START_WHITE, START_BLACK, Bits.Left, BitBoard(0x800_0000));
  }

  lemma WhiteRight()
    ensures BG.DirMoves(START_WHITE, START_BLACK, Bits.Right) == BitBoard(0x20_0000_0000)
  {
    OneStepMoves(START_WHITE, START_BLACK, Bits.Right, BitBoard(0x10_0000_0000));
  }

  lemma WhiteDir(i: int)
    requires 0 <= i < |Bits.SHIFT_DIRS|
    ensures BG.DirMoves(START_WHITE, START_BLACK, Bits.SHIFT_DIRS[i]) == WHITE_DIR_MOVES[i]
  {
    if i == 0 { assert Bits.SHIFT_DIRS[i] == Bits.Up; WhiteUp(); }
    else if i == 1 { assert Bits.SHIFT_DIRS[i] == Bits.Down; WhiteDown(); }
    else if i == 2 { assert Bits.SHIFT_DIRS[i] == Bits.Left; WhiteLeft(); }
    else if i == 3 { assert Bits.SHIFT_DIRS[i] == Bits.Right; WhiteRight(); }
    else if i == 4 { assert Bits.SHIFT_DIRS[i] == Bits.UpLeft; QuietMoves(START_WHITE, START_BLACK, Bits.UpLeft); }
    else if i == 5 { assert Bits.SHIFT_DIRS[i] == Bits.UpRight; QuietMoves(START_WHITE, START_BLACK, Bits.UpRight); }
    else if i == 6 { assert Bits.SHIFT_DIRS[i] == Bits.DownLeft; QuietMoves(START_WHITE, START_BLACK, Bits.DownLeft); }
    else { assert Bits.SHIFT_DIRS[i] == Bits.DownRight; QuietMoves(START_WHITE, START_BLACK, Bits.DownRight); }
  }

  lemma BlackFold()
    ensures OrUpTo(BLACK_DIR_MOVES, 8) == BitBoard(0x0000_0804_2010_0000)
  {
    var v := BLACK_DIR_MOVES;
    assert OrUpTo(v, 1) == BitBoard(0x10_0000);
    assert OrUpTo(v, 2) == BitBoard(0x800_0010_0000);
    assert OrUpTo(v, 3) == BitBoard(0x804_0010_0000);
    assert OrUpTo(v, 4) == BitBoard(0x804_2010_0000);
    assert OrUpTo(v, 5) == OrUpTo(v, 4);
    assert OrUpTo(v, 6) == OrUpTo(v, 4);
    assert OrUpTo(v, 7) == OrUpTo(v, 4);
  }

  /** The union of Black's moves from the start over the eight directions. */
  lemma BlackUnion()
    ensures BG.DirUnion(START_BLACK, START_WHITE, Bits.SHIFT_DIRS) == BitBoard(0x0000_0804_2010_0000)
  {
    forall i | 0 <= i < |Bits.SHIFT_DIRS|
      ensures BG.DirMoves(START_BLACK, START_WHITE, Bits.SHIFT_DIRS[i]) == BLACK_DIR_MOVES[i]
    {
      BlackDir(i);
    }
    UnionOf(START_BLACK, START_WHITE, Bits.SHIFT_DIRS, BLACK_DIR_MOVES);
    BlackFold();
  }

  /** `moves` for Black on the starting bit board. */
  lemma BlackMoveMask()
    ensures BG.MoveMask(BG.New(), Black) == BitBoard(0x0000_0804_2010_0000)
  {
    BG.NewMasks();
    BlackUnion();
  }

  /** The squares of that mask, lowest bit first. */
  lemma BlackSquares()
    ensures BG.SquareList(BitBoard(0x0000_0804_2010_0000)) == [(2, 4), (3, 5), (4, 2), (5, 3)]
  {
    FirstSquare(BitBoard(0x0000_0804_2010_0000), 20);
    assert DropNext(BitBoard(0x0000_0804_2010_0000)) == BitBoard(0x0000_0804_2000_0000);
    FirstSquare(BitBoard(0x0000_0804_2000_0000), 29);
    assert DropNext(BitBoard(0x0000_0804_2000_0000)) == BitBoard(0x0000_0804_0000_0000);
    FirstSquare(BitBoard(0x0000_0804_0000_0000), 34);
    assert DropNext(BitBoard(0x0000_0804_0000_0000)) == BitBoard(0x0000_0800_0000_0000);
    FirstSquare(BitBoard(0x0000_0800_0000_0000), 43);
    assert DropNext(BitBoard(0x0000_0800_0000_0000)) == EMPTY;
  }

  lemma WhiteFold()
    ensures OrUpTo(WHITE_DIR_MOVES, 8) == BitBoard(0x0000_1020_0408_0000)
  {
    var v := WHITE_DIR_MOVES;
    assert OrUpTo(v, 1) == BitBoard(0x8_0000);
    assert OrUpTo(v, 2) == BitBoard(0x1000_0008_0000);
    assert OrUpTo(v, 3) == BitBoard(0x1000_0408_0000);
    assert OrUpTo(v, 4) == BitBoard(0x1020_0408_0000);
    assert OrUpTo(v, 5) == OrUpTo(v, 4);
    assert OrUpTo(v, 6) == OrUpTo(v, 4);
    assert OrUpTo(v, 7) == OrUpTo(v, 4);
  }

  /** The union of White's moves from the start over the eight directions. */
  lemma WhiteUnion()
    ensures BG.DirUnion(START_WHITE, START_BLACK, Bits.SHIFT_DIRS) == BitBoard(0x0000_1020_0408_0000)
  {
    forall i | 0 <= i < |Bits.SHIFT_DIRS|
      ensures BG.DirMoves(START_WHITE, START_BLACK, Bits.SHIFT_DIRS[i]) == WHITE_DIR_MOVES[i]
    {
      WhiteDir(i);
    }
    UnionOf(START_WHITE, START_BLACK, Bits.SHIFT_DIRS, WHITE_DIR_MOVES);
    WhiteFold();
  }

  /** `moves` for White on the starting bit board. */
  lemma WhiteMoveMask()
    ensures BG.MoveMask(BG.New(), White) == BitBoard(0x0000_1020_0408_0000)
  {
    BG.NewMasks();
    WhiteUnion();
  }

  /** The squares of that mask, lowest bit first. */
  lemma WhiteSquares()
    ensures BG.SquareList(BitBoard(0x0000_1020_0408_0000)) == [(2, 3), (3, 2), (4, 5), (5, 4)]
  {
    FirstSquare(BitBoard(0x0000_1020_0408_0000), 19);
    assert DropNext(BitBoard(0x0000_1020_0408_0000)) == BitBoard(0x0000_1020_0400_0000);
    FirstSquare(BitBoard(0x0000_1020_0400_0000), 26);
    assert DropNext(BitBoard(0x0000_1020_0400_0000)) == BitBoard(0x0000_1020_0000_0000);
    FirstSquare(BitBoard(0x0000_1020_0000_0000), 37);
    assert DropNext(BitBoard(0x0000_1020_0000_0000)) == BitBoard(0x0000_1000_0000_0000);
    FirstSquare(BitBoard(0x0000_1000_0000_0000), 44);
    assert DropNext(BitBoard(0x0000_1000_0000_0000)) == EMPTY;
  }

  // ---------------------------------------------------------------------
  // The opening moves.

  /** Black's four opening moves, in row-major order. */
  const BLACK_START_MOVES: seq<Move> := [Move(Black, 2, 4), Move(Black, 3, 5), Move(Black, 4, 2), Move(Black, 5, 3)]

  /** White's four moves on the starting board, in row-major order. */
  const WHITE_START_MOVES: seq<Move> := [Move(White, 2, 3), Move(White, 3, 2), Move(White, 4, 5), Move(White, 5, 4)]

  /** The moves listed from a mask are its squares, as moves. */
  lemma ListedFrom(bb: BG.BitBoardBoard, player: Colour, mask: BitBoard, squares: seq<(int, int)>)
    requires BG.MoveMask(bb, player) == mask && BG.SquareList(mask) == squares
    ensures Agreement.MaskMoves(bb, player) == BG.AsMoves(player, squares)
  {
  }

  lemma BlackAsMoves()
    ensures BG.AsMoves(Black, [(2, 4), (3, 5), (4, 2), (5, 3)]) == BLACK_START_MOVES
  {
    var ms := BG.AsMoves(Black, [(2, 4), (3, 5), (4, 2), (5, 3)]);
    assert |ms| == 4 && ms[0] == BLACK_START_MOVES[0] && ms[1] == BLACK_START_MOVES[1] && ms[2] == BLACK_START_MOVES[2] && ms[3] == BLACK_START_MOVES[3];
  }

  /** The bit board's `moves` iterator on the starting board, for Black. */
  lemma BlackStartMoves()
    ensures Agreement.MaskMoves(BG.New(), Black) == BLACK_START_MOVES
  {
    BlackMoveMask();
    BlackSquares();
    BlackAsMoves();
    ListedFrom(BG.New(), Black, BitBoard(0x0000_0804_2010_0000), [(2, 4), (3, 5), (4, 2), (5, 3)]);
  }

  lemma WhiteAsMoves()
    ensures BG.AsMoves(White, [(2, 3), (3, 2), (4, 5), (5, 4)]) == WHITE_START_MOVES
  {
    var ms := BG.AsMoves(White, [(2, 3), (3, 2), (4, 5), (5, 4)]);
    assert |ms| == 4 && ms[0] == WHITE_START_MOVES[0] && ms[1] == WHITE_START_MOVES[1] && ms[2] == WHITE_START_MOVES[2] && ms[3] == WHITE_START_MOVES[3];
  }

  /** And for White. */
  lemma WhiteStartMoves()
    ensures Agreement.MaskMoves(BG.New(), White) == WHITE_START_MOVES
  {
    WhiteMoveMask();
    WhiteSquares();
    WhiteAsMoves();
    ListedFrom(BG.New(), White, BitBoard(0x0000_1020_0408_0000), [(2, 3), (3, 2), (4, 5), (5, 4)]);
  }

  /** The default board's move list on the starting board. */
  lemma DefaultStartMoves()
    ensures DB.Moves(DB.New(), Black) == BLACK_START_MOVES
    ensures DB.Moves(DB.New(), White) == WHITE_START_MOVES
  {
    BlackStartMoves();
    WhiteStartMoves();
    Agreement.NewAgree();
    Agreement.MovesAgree(BG.New(), DB.New(), Black);
    Agreement.MovesAgree(BG.New(), DB.New(), White);
  }

  /** Either kind of starting board holds the default board's start. */
  lemma StartDense(kind: Boards.Kind)
    ensures Boards.DenseOf(Boards.New(kind)) == DB.New()
  {
    Boards.NewCells(kind);
    forall r, c | OnBoard(r, c)
      ensures DB.Get(Boards.DenseOf(Boards.New(kind)), r, c) == DB.Get(DB.New(), r, c)
    {
      DB.NewCells(r, c);
    }
    DB.Extensionality(Boards.DenseOf(Boards.New(kind)), DB.New());
  }

  /** `valid_moves` on a new game, of either kind of board: Black may move to
      (2,4), (3,5), (4,2) and (5,3), in that order, and White, were it to
      move, to (2,3), (3,2), (4,5) and (5,4). */
  lemma InitialMoves(kind: Boards.Kind)
    ensures Games.ValidMoves(Games.New(kind), Black) == BLACK_START_MOVES
    ensures Games.ValidMoves(Games.New(kind), White) == WHITE_START_MOVES
  {
    Boards.NewCells(kind);
    Boards.MovesReference(Boards.New(kind), Black);
    Boards.MovesReference(Boards.New(kind), White);
    StartDense(kind);
    DefaultStartMoves();
  }

  /** The older game's iterator on a new game yields Black's four opening
      moves in order, then None. */
  method LegacyInitialMoves() returns (items: seq<Option<Move>>)
    ensures items == [Some(Move(Black, 2, 4)), Some(Move(Black, 3, 5)), Some(Move(Black, 4, 2)), Some(Move(Black, 5, 3)), None]
  {
    DefaultStartMoves();
    var it := new Legacy.ValidMoveIterator(Legacy.New());
    var a := it.Next();
    var b := it.Next();
    var c := it.Next();
    var d := it.Next();
    var e := it.Next();
    items := [a, b, c, d, e];
  }

  // ---------------------------------------------------------------------
  // The opening moves applied.

  /** Both colours start with two discs on a valid board. */
  lemma StartFacts()
    ensures BG.Valid(BG.New())
    ensures Count(START_BLACK) == 2 && Count(START_WHITE) == 2
  {
    BG.NewMasks();
    Bits.FromSquareCount(3, 3);
    Bits.FromSquareCount(4, 4);
    Bits.FromSquareCount(3, 4);
    Bits.FromSquareCount(4, 3);
    assert Bits.FromSquare(3, 3) == 0x800_0000 && Bits.FromSquare(4, 4) == 0x10_0000_0000;
    assert Bits.FromSquare(3, 4) == 0x1000_0000 && Bits.FromSquare(4, 3) == 0x8_0000_0000;
    Bits.CountUnion(Bits.FromSquare(3, 3), Bits.FromSquare(4, 4));
    Bits.CountUnion(Bits.FromSquare(3, 4), Bits.FromSquare(4, 3));
    forall r, c | OnBoard(r, c)
      ensures !(Bit(START_BLACK, r, c) && Bit(START_WHITE, r, c))
    {
      AndCell(START_BLACK, START_WHITE, r, c);
      EmptyCell(r, c);
    }
  }

  /** A move that flips one disc on a board where each side has two leaves
      the mover four and the opponent one. */
  lemma OneFlip(b: BG.BitBoardBoard, mov: Move)
    requires BG.Valid(b) && OnBoard(mov.row, mov.col) && BG.Get(b, mov.row, mov.col) == None
    requires Count(b.blacks) == 2 && Count(b.whites) == 2 && Count(BG.Flips(b, mov)) == 1
    ensures BG.Scores(BG.Applied(b, mov)) == if mov.player == Black then (4, 1) else (1, 4)
  {
    BG.ApplyScores(b, mov);
  }

  lemma BlackFlips24Dir(m: BitBoard, t: BitBoard, mv: BitBoard, i: int)
    requires m.bits == 0x0000_0010_0800_0000 && t.bits == 0x0000_0008_1000_0000 && mv.bits == 0x10_0000
    requires 0 <= i < |Bits.SHIFT_DIRS|
    ensures BG.DirFlips(m, t, mv, Bits.SHIFT_DIRS[i]) == Only(0, BitBoard(0x1000_0000))[i]
  {
    if i == 0 { assert Bits.SHIFT_DIRS[i] == Bits.Up; ShortFlips(m, t, mv, Bits.Up, BitBoard(0x1000_0000), BitBoard(0x1000_0000)); }
    else if i == 1 { assert Bits.SHIFT_DIRS[i] == Bits.Down; QuietFlips(m, t, mv, Bits.Down); }
    else if i == 2 { assert Bits.SHIFT_DIRS[i] == Bits.Left; QuietFlips(m, t, mv, Bits.Left); }
    else if i == 3 { assert Bits.SHIFT_DIRS[i] == Bits.Right; QuietFlips(m, t, mv, Bits.Right); }
    else if i == 4 { assert Bits.SHIFT_DIRS[i] == Bits.UpLeft; QuietFlips(m, t, mv, Bits.UpLeft); }
    else if i == 5 { assert Bits.SHIFT_DIRS[i] == Bits.UpRight; QuietFlips(m, t, mv, Bits.UpRight); }
    else if i == 6 { assert Bits.SHIFT_DIRS[i] == Bits.DownLeft; QuietFlips(m, t, mv, Bits.DownLeft); }
    else { assert Bits.SHIFT_DIRS[i] == Bits.DownRight; QuietFlips(m, t, mv, Bits.DownRight); }
  }

  lemma BlackFlips24Union(m: BitBoard, t: BitBoard, mv: BitBoard)
    requires m.bits == 0x0000_0010_0800_0000 && t.bits == 0x0000_0008_1000_0000 && mv.bits == 0x10_0000
    ensures BG.FlipUnion(m, t, mv, Bits.SHIFT_DIRS) == BitBoard(0x1000_0000)
  {
    forall i | 0 <= i < |Bits.SHIFT_DIRS|
      ensures BG.DirFlips(m, t, mv, Bits.SHIFT_DIRS[i]) == Only(0, BitBoard(0x1000_0000))[i]
    {
      BlackFlips24Dir(m, t, mv, i);
    }
    FlipsOnly(m, t, mv, Bits.SHIFT_DIRS, 0, BitBoard(0x1000_0000));
  }

  /** Black at (2,4) on the starting board flips (3,4) alone. */
  lemma BlackFlips24(b: BG.BitBoardBoard)
    requires b.blacks.bits == 0x0000_0010_0800_0000 && b.whites.bits == 0x0000_0008_1000_0000
    ensures BG.Flips(b, Move(Black, 2, 4)) == FromSquare(3, 4)
  {
    assert FromSquare(2, 4) == BitBoard(0x10_0000);
    assert FromSquare(3, 4) == BitBoard(0x1000_0000);
    BlackFlips24Union(b.blacks, b.whites, FromSquare(2, 4));
  }

  /** And so leaves the scores at (4, 1). */
  lemma BlackOpening24(b: BG.BitBoardBoard)
    requires b.blacks == START_BLACK && b.whites == START_WHITE
    ensures BG.Placeable(BLACK_START_MOVES[0].row, BLACK_START_MOVES[0].col) && BG.Scores(BG.Applied(b, BLACK_START_MOVES[0])) == (4, 1)
  {
    assert BLACK_START_MOVES[0] == Move(Black, 2, 4);
    BG.NewMasks();
    assert b == BG.New();
    BlackFlips24(b);
    StartFacts();
    Agreement.NewAgree();
    DB.NewCells(2, 4);
    FromSquareOnly(3, 4);
    OneFlip(b, Move(Black, 2, 4));
  }

  lemma BlackFlips35Dir(m: BitBoard, t: BitBoard, mv: BitBoard, i: int)
    requires m.bits == 0x0000_0010_0800_0000 && t.bits == 0x0000_0008_1000_0000 && mv.bits == 0x2000_0000
    requires 0 <= i < |Bits.SHIFT_DIRS|
    ensures BG.DirFlips(m, t, mv, Bits.SHIFT_DIRS[i]) == Only(3, BitBoard(0x1000_0000))[i]
  {
    if i == 0 { assert Bits.SHIFT_DIRS[i] == Bits.Up; QuietFlips(m, t, mv, Bits.Up); }
    else if i == 1 { assert Bits.SHIFT_DIRS[i] == Bits.Down; QuietFlips(m, t, mv, Bits.Down); }
    else if i == 2 { assert Bits.SHIFT_DIRS[i] == Bits.Left; QuietFlips(m, t, mv, Bits.Left); }
    else if i == 3 { assert Bits.SHIFT_DIRS[i] == Bits.Right; ShortFlips(m, t, mv, Bits.Right, BitBoard(0x1000_0000), BitBoard(0x1000_0000)); }
    else if i == 4 { assert Bits.SHIFT_DIRS[i] == Bits.UpLeft; QuietFlips(m, t, mv, Bits.UpLeft); }
    else if i == 5 { assert Bits.SHIFT_DIRS[i] == Bits.UpRight; QuietFlips(m, t, mv, Bits.UpRight); }
    else if i == 6 { assert Bits.SHIFT_DIRS[i] == Bits.DownLeft; QuietFlips(m, t, mv, Bits.DownLeft); }
    else { assert Bits.SHIFT_DIRS[i] == Bits.DownRight; QuietFlips(m, t, mv, Bits.DownRight); }
  }

  lemma BlackFlips35Union(m: BitBoard, t: BitBoard, mv: BitBoard)
    requires m.bits == 0x0000_0010_0800_0000 && t.bits == 0x0000_0008_1000_0000 && mv.bits == 0x2000_0000
    ensures BG.FlipUnion(m, t, mv, Bits.SHIFT_DIRS) == BitBoard(0x1000_0000)
  {
    forall i | 0 <= i < |Bits.SHIFT_DIRS|
      ensures BG.DirFlips(m, t, mv, Bits.SHIFT_DIRS[i]) == Only(3, BitBoard(0x1000_0000))[i]
    {
      BlackFlips35Dir(m, t, mv, i);
    }
    FlipsOnly(m, t, mv, Bits.SHIFT_DIRS, 3, BitBoard(0x1000_0000));
  }

  /** Black at (3,5) on the starting board flips (3,4) alone. */
  lemma BlackFlips35(b: BG.BitBoardBoard)
    requires b.blacks.bits == 0x0000_0010_0800_0000 && b.whites.bits == 0x0000_0008_1000_0000
    ensures BG.Flips(b, Move(Black, 3, 5)) == FromSquare(3, 4)
  {
    assert FromSquare(3, 5) == BitBoard(0x2000_0000);
    assert FromSquare(3, 4) == BitBoard(0x1000_0000);
    BlackFlips35Union(b.blacks, b.whites, FromSquare(3, 5));
  }

  /** And so leaves the scores at (4, 1). */
  lemma BlackOpening35(b: BG.BitBoardBoard)
    requires b.blacks == START_BLACK && b.whites == START_WHITE
    ensures BG.Placeable(BLACK_START_MOVES[1].row, BLACK_START_MOVES[1].col) && BG.Scores(BG.Applied(b, BLACK_START_MOVES[1])) == (4, 1)
  {
    assert BLACK_START_MOVES[1] == Move(Black, 3, 5);
    BG.NewMasks();
    assert b == BG.New();
    BlackFlips35(b);
    StartFacts();
    Agreement.NewAgree();
    DB.NewCells(3, 5);
    FromSquareOnly(3, 4);
    OneFlip(b, Move(Black, 3, 5));
  }

  lemma BlackFlips42Dir(m: BitBoard, t: BitBoard, mv: BitBoard, i: int)
    requires m.bits == 0x0000_0010_0800_0000 && t.bits == 0x0000_0008_1000_0000 && mv.bits == 0x4_0000_0000
    requires 0 <= i < |Bits.SHIFT_DIRS|
    ensures BG.DirFlips(m, t, mv, Bits.SHIFT_DIRS[i]) == Only(2, BitBoard(0x8_0000_0000))[i]
  {
    if i == 0 { assert Bits.SHIFT_DIRS[i] == Bits.Up; QuietFlips(m, t, mv, Bits.Up); }
    else if i == 1 { assert Bits.SHIFT_DIRS[i] == Bits.Down; QuietFlips(m, t, mv, Bits.Down); }
    else if i == 2 { assert Bits.SHIFT_DIRS[i] == Bits.Left; ShortFlips(m, t, mv, Bits.Left, BitBoard(0x8_0000_0000), BitBoard(0x8_0000_0000)); }
    else if i == 3 { assert Bits.SHIFT_DIRS[i] == Bits.Right; QuietFlips(m, t, mv, Bits.Right); }
    else if i == 4 { assert Bits.SHIFT_DIRS[i] == Bits.UpLeft; QuietFlips(m, t, mv, Bits.UpLeft); }
    else if i == 5 { assert Bits.SHIFT_DIRS[i] == Bits.UpRight; QuietFlips(m, t, mv, Bits.UpRight); }
    else if i == 6 { assert Bits.SHIFT_DIRS[i] == Bits.DownLeft; QuietFlips(m, t, mv, Bits.DownLeft); }
    else { assert Bits.SHIFT_DIRS[i] == Bits.DownRight; QuietFlips(m, t, mv, Bits.DownRight); }
  }

  lemma BlackFlips42Union(m: BitBoard, t: BitBoard, mv: BitBoard)
    requires m.bits == 0x0000_0010_0800_0000 && t.bits == 0x0000_0008_1000_0000 && mv.bits == 0x4_0000_0000
    ensures BG.FlipUnion(m, t, mv, Bits.SHIFT_DIRS) == BitBoard(0x8_0000_0000)
  {
    forall i | 0 <= i < |Bits.SHIFT_DIRS|
      ensures BG.DirFlips(m, t, mv, Bits.SHIFT_DIRS[i]) == Only(2, BitBoard(0x8_0000_0000))[i]
    {
      BlackFlips42Dir(m, t, mv, i);
    }
    FlipsOnly(m, t, mv, Bits.SHIFT_DIRS, 2, BitBoard(0x8_0000_0000));
  }

  /** Black at (4,2) on the starting board flips (4,3) alone. */
  lemma BlackFlips42(b: BG.BitBoardBoard)
    requires b.blacks.bits == 0x0000_0010_0800_0000 && b.whites.bits == 0x0000_0008_1000_0000
    ensures BG.Flips(b, Move(Black, 4, 2)) == FromSquare(4, 3)
  {
    assert FromSquare(4, 2) == BitBoard(0x4_0000_0000);
    assert FromSquare(4, 3) == BitBoard(0x8_0000_0000);
    BlackFlips42Union(b.blacks, b.whites, FromSquare(4, 2));
  }

  /** And so leaves the scores at (4, 1). */
  lemma BlackOpening42(b: BG.BitBoardBoard)
    requires b.blacks == START_BLACK && b.whites == START_WHITE
    ensures BG.Placeable(BLACK_START_MOVES[2].row, BLACK_START_MOVES[2].col) && BG.Scores(BG.Applied(b, BLACK_START_MOVES[2])) == (4, 1)
  {
    assert BLACK_START_MOVES[2] == Move(Black, 4, 2);
    BG.NewMasks();
    assert b == BG.New();
    BlackFlips42(b);
    StartFacts();
    Agreement.NewAgree();
    DB.NewCells(4, 2);
    FromSquareOnly(4, 3);
    OneFlip(b, Move(Black, 4, 2));
  }

  lemma BlackFlips53Dir(m: BitBoard, t: BitBoard, mv: BitBoard, i: int)
    requires m.bits == 0x0000_0010_0800_0000 && t.bits == 0x0000_0008_1000_0000 && mv.bits == 0x800_0000_0000
    requires 0 <= i < |Bits.SHIFT_DIRS|
    ensures BG.DirFlips(m, t, mv, Bits.SHIFT_DIRS[i]) == Only(1, BitBoard(0x8_0000_0000))[i]
  {
    if i == 0 { assert Bits.SHIFT_DIRS[i] == Bits.Up; QuietFlips(m, t, mv, Bits.Up); }
    else if i == 1 { assert Bits.SHIFT_DIRS[i] == Bits.Down; ShortFlips(m, t, mv, Bits.Down, BitBoard(0x8_0000_0000), BitBoard(0x8_0000_0000)); }
    else if i == 2 { assert Bits.SHIFT_DIRS[i] == Bits.Left; QuietFlips(m, t, mv, Bits.Left); }
    else if i == 3 { assert Bits.SHIFT_DIRS[i] == Bits.Right; QuietFlips(m, t, mv, Bits.Right); }
    else if i == 4 { assert Bits.SHIFT_DIRS[i] == Bits.UpLeft; QuietFlips(m, t, mv, Bits.UpLeft); }
    else if i == 5 { assert Bits.SHIFT_DIRS[i] == Bits.UpRight; QuietFlips(m, t, mv, Bits.UpRight); }
    else if i == 6 { assert Bits.SHIFT_DIRS[i] == Bits.DownLeft; QuietFlips(m, t, mv, Bits.DownLeft); }
    else { assert Bits.SHIFT_DIRS[i] == Bits.DownRight; QuietFlips(m, t, mv, Bits.DownRight); }
  }

  lemma BlackFlips53Union(m: BitBoard, t: BitBoard, mv: BitBoard)
    requires m.bits == 0x0000_0010_0800_0000 && t.bits == 0x0000_0008_1000_0000 && mv.bits == 0x800_0000_0000
    ensures BG.FlipUnion(m, t, mv, Bits.SHIFT_DIRS) == BitBoard(0x8_0000_0000)
  {
    forall i | 0 <= i < |Bits.SHIFT_DIRS|
      ensures BG.DirFlips(m, t, mv, Bits.SHIFT_DIRS[i]) == Only(1, BitBoard(0x8_0000_0000))[i]
    {
      BlackFlips53Dir(m, t, mv, i);
    }
    FlipsOnly(m, t, mv, Bits.SHIFT_DIRS, 1, BitBoard(0x8_0000_0000));
  }

  /** Black at (5,3) on the starting board flips (4,3) alone. */
  lemma BlackFlips53(b: BG.BitBoardBoard)
    requires b.blacks.bits == 0x0000_0010_0800_0000 && b.whites.bits == 0x0000_0008_1000_0000
    ensures BG.Flips(b, Move(Black, 5, 3)) == FromSquare(4, 3)
  {
    assert FromSquare(5, 3) == BitBoard(0x800_0000_0000);
    assert FromSquare(4, 3) == BitBoard(0x8_0000_0000);
    BlackFlips53Union(b.blacks, b.whites, FromSquare(5, 3));
  }

  /** And so leaves the scores at (4, 1). */
  lemma BlackOpening53(b: BG.BitBoardBoard)
    requires b.blacks == START_BLACK && b.whites == START_WHITE
    ensures BG.Placeable(BLACK_START_MOVES[3].row, BLACK_START_MOVES[3].col) && BG.Scores(BG.Applied(b, BLACK_START_MOVES[3])) == (4, 1)
  {
    assert BLACK_START_MOVES[3] == Move(Black, 5, 3);
    BG.NewMasks();
    assert b == BG.New();
    BlackFlips53(b);
    StartFacts();
    Agreement.NewAgree();
    DB.NewCells(5, 3);
    FromSquareOnly(4, 3);
    OneFlip(b, Move(Black, 5, 3));
  }

  lemma WhiteFlips23Dir(m: BitBoard, t: BitBoard, mv: BitBoard, i: int)
    requires m.bits == 0x0000_0008_1000_0000 && t.bits == 0x0000_0010_0800_0000 && mv.bits == 0x8_0000
    requires 0 <= i < |Bits.SHIFT_DIRS|
    ensures BG.DirFlips(m, t, mv, Bits.SHIFT_DIRS[i]) == Only(0, BitBoard(0x800_0000))[i]
  {
    if i == 0 { assert Bits.SHIFT_DIRS[i] == Bits.Up; ShortFlips(m, t, mv, Bits.Up, BitBoard(0x800_0000), BitBoard(0x800_0000)); }
    else if i == 1 { assert Bits.SHIFT_DIRS[i] == Bits.Down; QuietFlips(m, t, mv, Bits.Down); }
    else if i == 2 { assert Bits.SHIFT_DIRS[i] == Bits.Left; QuietFlips(m, t, mv, Bits.Left); }
    else if i == 3 { assert Bits.SHIFT_DIRS[i] == Bits.Right; QuietFlips(m, t, mv, Bits.Right); }
    else if i == 4 { assert Bits.SHIFT_DIRS[i] == Bits.UpLeft; QuietFlips(m, t, mv, Bits.UpLeft); }
    else if i == 5 { assert Bits.SHIFT_DIRS[i] == Bits.UpRight; QuietFlips(m, t, mv, Bits.UpRight); }
    else if i == 6 { assert Bits.SHIFT_DIRS[i] == Bits.DownLeft; QuietFlips(m, t, mv, Bits.DownLeft); }
    else { assert Bits.SHIFT_DIRS[i] == Bits.DownRight; QuietFlips(m, t, mv, Bits.DownRight); }
  }

  lemma WhiteFlips23Union(m: BitBoard, t: BitBoard, mv: BitBoard)
    requires m.bits == 0x0000_0008_1000_0000 && t.bits == 0x0000_0010_0800_0000 && mv.bits == 0x8_0000
    ensures BG.FlipUnion(m, t, mv, Bits.SHIFT_DIRS) == BitBoard(0x800_0000)
  {
    forall i | 0 <= i < |Bits.SHIFT_DIRS|
      ensures BG.DirFlips(m, t, mv, Bits.SHIFT_DIRS[i]) == Only(0, BitBoard(0x800_0000))[i]
    {
      WhiteFlips23Dir(m, t, mv, i);
    }
    FlipsOnly(m, t, mv, Bits.SHIFT_DIRS, 0, BitBoard(0x800_0000));
  }

  /** White at (2,3) on the starting board flips (3,3) alone. */
  lemma WhiteFlips23(b: BG.BitBoardBoard)
    requires b.blacks.bits == 0x0000_0010_0800_0000 && b.whites.bits == 0x0000_0008_1000_0000
    ensures BG.Flips(b, Move(White, 2, 3)) == FromSquare(3, 3)
  {
    assert FromSquare(2, 3) == BitBoard(0x8_0000);
    assert FromSquare(3, 3) == BitBoard(0x800_0000);
    WhiteFlips23Union(b.whites, b.blacks, FromSquare(2, 3));
  }

  /** And so leaves the scores at (1, 4). */
  lemma WhiteOpening23(b: BG.BitBoardBoard)
    requires b.blacks == START_BLACK && b.whites == START_WHITE
    ensures BG.Placeable(WHITE_START_MOVES[0].row, WHITE_START_MOVES[0].col) && BG.Scores(BG.Applied(b, WHITE_START_MOVES[0])) == (1, 4)
  {
    assert WHITE_START_MOVES[0] == Move(White, 2, 3);
    BG.NewMasks();
    assert b == BG.New();
    WhiteFlips23(b);
    StartFacts();
    Agreement.NewAgree();
    DB.NewCells(2, 3);
    FromSquareOnly(3, 3);
    OneFlip(b, Move(White, 2, 3));
  }

  lemma WhiteFlips32Dir(m: BitBoard, t: BitBoard, mv: BitBoard, i: int)
    requires m.bits == 0x0000_0008_1000_0000 && t.bits == 0x0000_0010_0800_0000 && mv.bits == 0x400_0000
    requires 0 <= i < |Bits.SHIFT_DIRS|
    ensures BG.DirFlips(m, t, mv, Bits.SHIFT_DIRS[i]) == Only(2, BitBoard(0x800_0000))[i]
  {
    if i == 0 { assert Bits.SHIFT_DIRS[i] == Bits.Up; QuietFlips(m, t, mv, Bits.Up); }
    else if i == 1 { assert Bits.SHIFT_DIRS[i] == Bits.Down; QuietFlips(m, t, mv, Bits.Down); }
    else if i == 2 { assert Bits.SHIFT_DIRS[i] == Bits.Left; ShortFlips(m, t, mv, Bits.Left, BitBoard(0x800_0000), BitBoard(0x800_0000)); }
    else if i == 3 { assert Bits.SHIFT_DIRS[i] == Bits.Right; QuietFlips(m, t, mv, Bits.Right); }
    else if i == 4 { assert Bits.SHIFT_DIRS[i] == Bits.UpLeft; QuietFlips(m, t, mv, Bits.UpLeft); }
    else if i == 5 { assert Bits.SHIFT_DIRS[i] == Bits.UpRight; QuietFlips(m, t, mv, Bits.UpRight); }
    else if i == 6 { assert Bits.SHIFT_DIRS[i] == Bits.DownLeft; QuietFlips(m, t, mv, Bits.DownLeft); }
    else { assert Bits.SHIFT_DIRS[i] == Bits.DownRight; QuietFlips(m, t, mv, Bits.DownRight); }
  }

  lemma WhiteFlips32Union(m: BitBoard, t: BitBoard, mv: BitBoard)
    requires m.bits == 0x0000_0008_1000_0000 && t.bits == 0x0000_0010_0800_0000 && mv.bits == 0x400_0000
    ensures BG.FlipUnion(m, t, mv, Bits.SHIFT_DIRS) == BitBoard(0x800_0000)
  {
    forall i | 0 <= i < |Bits.SHIFT_DIRS|
      ensures BG.DirFlips(m, t, mv, Bits.SHIFT_DIRS[i]) == Only(2, BitBoard(0x800_0000))[i]
    {
      WhiteFlips32Dir(m, t, mv, i);
    }
    FlipsOnly(m, t, mv, Bits.SHIFT_DIRS, 2, BitBoard(0x800_0000));
  }

  /** White at (3,2) on the starting board flips (3,3) alone. */
  lemma WhiteFlips32(b: BG.BitBoardBoard)
    requires b.blacks.bits == 0x0000_0010_0800_0000 && b.whites.bits == 0x0000_0008_1000_0000
    ensures BG.Flips(b, Move(White, 3, 2)) == FromSquare(3, 3)
  {
    assert FromSquare(3, 2) == BitBoard(0x400_0000);
    assert FromSquare(3, 3) == BitBoard(0x800_0000);
    WhiteFlips32Union(b.whites, b.blacks, FromSquare(3, 2));
  }

  /** And so leaves the scores at (1, 4). */
  lemma WhiteOpening32(b: BG.BitBoardBoard)
    requires b.blacks == START_BLACK && b.whites == START_WHITE
    ensures BG.Placeable(WHITE_START_MOVES[1].row, WHITE_START_MOVES[1].col) && BG.Scores(BG.Applied(b, WHITE_START_MOVES[1])) == (1, 4)
  {
    assert WHITE_START_MOVES[1] == Move(White, 3, 2);
    BG.NewMasks();
    assert b == BG.New();
    WhiteFlips32(b);
    StartFacts();
    Agreement.NewAgree();
    DB.NewCells(3, 2);
    FromSquareOnly(3, 3);
    OneFlip(b, Move(White, 3, 2));
  }

  lemma WhiteFlips45Dir(m: BitBoard, t: BitBoard, mv: BitBoard, i: int)
    requires m.bits == 0x0000_0008_1000_0000 && t.bits == 0x0000_0010_0800_0000 && mv.bits == 0x20_0000_0000
    requires 0 <= i < |Bits.SHIFT_DIRS|
    ensures BG.DirFlips(m, t, mv, Bits.SHIFT_DIRS[i]) == Only(3, BitBoard(0x10_0000_0000))[i]
  {
    if i == 0 { assert Bits.SHIFT_DIRS[i] == Bits.Up; QuietFlips(m, t, mv, Bits.Up); }
    else if i == 1 { assert Bits.SHIFT_DIRS[i] == Bits.Down; QuietFlips(m, t, mv, Bits.Down); }
    else if i == 2 { assert Bits.SHIFT_DIRS[i] == Bits.Left; QuietFlips(m, t, mv, Bits.Left); }
    else if i == 3 { assert Bits.SHIFT_DIRS[i] == Bits.Right; ShortFlips(m, t, mv, Bits.Right, BitBoard(0x10_0000_0000), BitBoard(0x10_0000_0000)); }
    else if i == 4 { assert Bits.SHIFT_DIRS[i] == Bits.UpLeft; QuietFlips(m, t, mv, Bits.UpLeft); }
    else if i == 5 { assert Bits.SHIFT_DIRS[i] == Bits.UpRight; QuietFlips(m, t, mv, Bits.UpRight); }
    else if i == 6 { assert Bits.SHIFT_DIRS[i] == Bits.DownLeft; QuietFlips(m, t, mv, Bits.DownLeft); }
    else { assert Bits.SHIFT_DIRS[i] == Bits.DownRight; QuietFlips(m, t, mv, Bits.DownRight); }
  }

  lemma WhiteFlips45Union(m: BitBoard, t: BitBoard, mv: BitBoard)
    requires m.bits == 0x0000_0008_1000_0000 && t.bits == 0x0000_0010_0800_0000 && mv.bits == 0x20_0000_0000
    ensures BG.FlipUnion(m, t, mv, Bits.SHIFT_DIRS) == BitBoard(0x10_0000_0000)
  {
    forall i | 0 <= i < |Bits.SHIFT_DIRS|
      ensures BG.DirFlips(m, t, mv, Bits.SHIFT_DIRS[i]) == Only(3, BitBoard(0x10_0000_0000))[i]
    {
      WhiteFlips45Dir(m, t, mv, i);
    }
    FlipsOnly(m, t, mv, Bits.SHIFT_DIRS, 3, BitBoard(0x10_0000_0000));
  }

  /** White at (4,5) on the starting board flips (4,4) alone. */
  lemma WhiteFlips45(b: BG.BitBoardBoard)
    requires b.blacks.bits == 0x0000_0010_0800_0000 && b.whites.bits == 0x0000_0008_1000_0000
    ensures BG.Flips(b, Move(White, 4, 5)) == FromSquare(4, 4)
  {
    assert FromSquare(4, 5) == BitBoard(0x20_0000_0000);
    assert FromSquare(4, 4) == BitBoard(0x10_0000_0000);
    WhiteFlips45Union(b.whites, b.blacks, FromSquare(4, 5));
  }

  /** And so leaves the scores at (1, 4). */
  lemma WhiteOpening45(b: BG.BitBoardBoard)
    requires b.blacks == START_BLACK && b.whites == START_WHITE
    ensures BG.Placeable(WHITE_START_MOVES[2].row, WHITE_START_MOVES[2].col) && BG.Scores(BG.Applied(b, WHITE_START_MOVES[2])) == (1, 4)
  {
    assert WHITE_START_MOVES[2] == Move(White, 4, 5);
    BG.NewMasks();
    assert b == BG.New();
    WhiteFlips45(b);
    StartFacts();
    Agreement.NewAgree();
    DB.NewCells(4, 5);
    FromSquareOnly(4, 4);
    OneFlip(b, Move(White, 4, 5));
  }

  lemma WhiteFlips54Dir(m: BitBoard, t: BitBoard, mv: BitBoard, i: int)
    requires m.bits == 0x0000_0008_1000_0000 && t.bits == 0x0000_0010_0800_0000 && mv.bits == 0x1000_0000_0000
    requires 0 <= i < |Bits.SHIFT_DIRS|
    ensures BG.DirFlips(m, t, mv, Bits.SHIFT_DIRS[i]) == Only(1, BitBoard(0x10_0000_0000))[i]
  {
    if i == 0 { assert Bits.SHIFT_DIRS[i] == Bits.Up; QuietFlips(m, t, mv, Bits.Up); }
    else if i == 1 { assert Bits.SHIFT_DIRS[i] == Bits.Down; ShortFlips(m, t, mv, Bits.Down, BitBoard(0x10_0000_0000), BitBoard(0x10_0000_0000)); }
    else if i == 2 { assert Bits.SHIFT_DIRS[i] == Bits.Left; QuietFlips(m, t, mv, Bits.Left); }
    else if i == 3 { assert Bits.SHIFT_DIRS[i] == Bits.Right; QuietFlips(m, t, mv, Bits.Right); }
    else if i == 4 { assert Bits.SHIFT_DIRS[i] == Bits.UpLeft; QuietFlips(m, t, mv, Bits.UpLeft); }
    else if i == 5 { assert Bits.SHIFT_DIRS[i] == Bits.UpRight; QuietFlips(m, t, mv, Bits.UpRight); }
    else if i == 6 { assert Bits.SHIFT_DIRS[i] == Bits.DownLeft; QuietFlips(m, t, mv, Bits.DownLeft); }
    else { assert Bits.SHIFT_DIRS[i] == Bits.DownRight; QuietFlips(m, t, mv, Bits.DownRight); }
  }

  lemma WhiteFlips54Union(m: BitBoard, t: BitBoard, mv: BitBoard)
    requires m.bits == 0x0000_0008_1000_0000 && t.bits == 0x0000_0010_0800_0000 && mv.bits == 0x1000_0000_0000
    ensures BG.FlipUnion(m, t, mv, Bits.SHIFT_DIRS) == BitBoard(0x10_0000_0000)
  {
    forall i | 0 <= i < |Bits.SHIFT_DIRS|
      ensures BG.DirFlips(m, t, mv, Bits.SHIFT_DIRS[i]) == Only(1, BitBoard(0x10_0000_0000))[i]
    {
      WhiteFlips54Dir(m, t, mv, i);
    }
    FlipsOnly(m, t, mv, Bits.SHIFT_DIRS, 1, BitBoard(0x10_0000_0000));
  }

  /** White at (5,4) on the starting board flips (4,4) alone. */
  lemma WhiteFlips54(b: BG.BitBoardBoard)
    requires b.blacks.bits == 0x0000_0010_0800_0000 && b.whites.bits == 0x0000_0008_1000_0000
    ensures BG.Flips(b, Move(White, 5, 4)) == FromSquare(4, 4)
  {
    assert FromSquare(5, 4) == BitBoard(0x1000_0000_0000);
    assert FromSquare(4, 4) == BitBoard(0x10_0000_0000);
    WhiteFlips54Union(b.whites, b.blacks, FromSquare(5, 4));
  }

  /** And so leaves the scores at (1, 4). */
  lemma WhiteOpening54(b: BG.BitBoardBoard)
    requires b.blacks == START_BLACK && b.whites == START_WHITE
    ensures BG.Placeable(WHITE_START_MOVES[3].row, WHITE_START_MOVES[3].col) && BG.Scores(BG.Applied(b, WHITE_START_MOVES[3])) == (1, 4)
  {
    assert WHITE_START_MOVES[3] == Move(White, 5, 4);
    BG.NewMasks();
    assert b == BG.New();
    WhiteFlips54(b);
    StartFacts();
    Agreement.NewAgree();
    DB.NewCells(5, 4);
    FromSquareOnly(4, 4);
    OneFlip(b, Move(White, 5, 4));
  }

  /** `scores` after every opening move on the starting bit board (whose
      masks NewMasks gives): (4, 1) after each of Black's. */
  lemma BlackOpeningScores(b: BG.BitBoardBoard)
    requires b.blacks == START_BLACK && b.whites == START_WHITE
    ensures forall k :: 0 <= k < |BLACK_START_MOVES| ==>
      BG.Placeable(BLACK_START_MOVES[k].row, BLACK_START_MOVES[k].col) && BG.Scores(BG.Applied(b, BLACK_START_MOVES[k])) == (4, 1)
  {
    forall k | 0 <= k < |BLACK_START_MOVES|
      ensures BG.Placeable(BLACK_START_MOVES[k].row, BLACK_START_MOVES[k].col) && BG.Scores(BG.Applied(b, BLACK_START_MOVES[k])) == (4, 1)
    {
      if k == 0 { BlackOpening24(b); }
      else if k == 1 { BlackOpening35(b); }
      else if k == 2 { BlackOpening42(b); }
      else { BlackOpening53(b); }
    }
  }

  /** And (1, 4) after each of White's. */
  lemma WhiteOpeningScores(b: BG.BitBoardBoard)
    requires b.blacks == START_BLACK && b.whites == START_WHITE
    ensures forall k :: 0 <= k < |WHITE_START_MOVES| ==>
      BG.Placeable(WHITE_START_MOVES[k].row, WHITE_START_MOVES[k].col) && BG.Scores(BG.Applied(b, WHITE_START_MOVES[k])) == (1, 4)
  {
    forall k | 0 <= k < |WHITE_START_MOVES|
      ensures BG.Placeable(WHITE_START_MOVES[k].row, WHITE_START_MOVES[k].col) && BG.Scores(BG.Applied(b, WHITE_START_MOVES[k])) == (1, 4)
    {
      if k == 0 { WhiteOpening23(b); }
      else if k == 1 { WhiteOpening32(b); }
      else if k == 2 { WhiteOpening45(b); }
      else { WhiteOpening54(b); }
    }
  }

  // ---------------------------------------------------------------------
  // A row with no legal move.

  /** "○●●●●●●●" and a newline: Black in the corner, White on the rest of the
      first row. */
  const NO_MOVES_ROW: string := "\U{25CB}\U{25CF}\U{25CF}\U{25CF}\U{25CF}\U{25CF}\U{25CF}\U{25CF}"
  const NO_MOVES_TEXT: string := "\U{25CB}\U{25CF}\U{25CF}\U{25CF}\U{25CF}\U{25CF}\U{25CF}\U{25CF}\n"

  /** One more fill step, and one more flood step. */
  lemma GenStep(gen: BitBoard, pro: BitBoard, shift: int, k: nat, prev: BitBoard, next: BitBoard)
    requires -64 < shift < 64 && k > 0
    requires FillGen(gen, pro, shift, k - 1) == prev && And(Shift(prev, shift), pro) == next
    ensures FillGen(gen, pro, shift, k) == next
  {
  }

  lemma FloodStep(start: BitBoard, gen: BitBoard, pro: BitBoard, shift: int, k: nat, prev: BitBoard, g: BitBoard)
    requires -64 < shift < 64 && k > 0
    requires Flood(start, gen, pro, shift, k - 1) == prev && FillGen(gen, pro, shift, k) == g
    ensures Flood(start, gen, pro, shift, k) == Or(prev, g)
  {
  }

  /** To the right of a Black corner on a row of White discs the occluded
      fill covers columns 1 to 6, so the moves are columns 2 to 7. */
  lemma RowRight(m: BitBoard, t: BitBoard)
    requires m.bits == 0x1 && t.bits == 0xFE
    ensures BG.DirMoves(m, t, Bits.Right) == BitBoard(0xFC)
  {
    GenStep(m, t, 1, 1, m, BitBoard(0x2));
    GenStep(m, t, 1, 2, BitBoard(0x2), BitBoard(0x4));
    GenStep(m, t, 1, 3, BitBoard(0x4), BitBoard(0x8));
    GenStep(m, t, 1, 4, BitBoard(0x8), BitBoard(0x10));
    GenStep(m, t, 1, 5, BitBoard(0x10), BitBoard(0x20));
    GenStep(m, t, 1, 6, BitBoard(0x20), BitBoard(0x40));
    FloodStep(EMPTY, m, t, 1, 1, EMPTY, BitBoard(0x2));
    FloodStep(EMPTY, m, t, 1, 2, BitBoard(0x2), BitBoard(0x4));
    FloodStep(EMPTY, m, t, 1, 3, BitBoard(0x6), BitBoard(0x8));
    FloodStep(EMPTY, m, t, 1, 4, BitBoard(0xE), BitBoard(0x10));
    FloodStep(EMPTY, m, t, 1, 5, BitBoard(0x1E), BitBoard(0x20));
    FloodStep(EMPTY, m, t, 1, 6, BitBoard(0x3E), BitBoard(0x40));
  }

  /** Only the ray to the right meets White discs, and it runs off the board
      over occupied squares. */
  lemma RowDir(m: BitBoard, t: BitBoard, i: int)
    requires m.bits == 0x1 && t.bits == 0xFE && 0 <= i < |Bits.SHIFT_DIRS|
    ensures BG.DirMoves(m, t, Bits.SHIFT_DIRS[i]) == Only(3, BitBoard(0xFC))[i]
  {
    if i == 0 { assert Bits.SHIFT_DIRS[i] == Bits.Up; QuietMoves(m, t, Bits.Up); }
    else if i == 1 { assert Bits.SHIFT_DIRS[i] == Bits.Down; QuietMoves(m, t, Bits.Down); }
    else if i == 2 { assert Bits.SHIFT_DIRS[i] == Bits.Left; QuietMoves(m, t, Bits.Left); }
    else if i == 3 { assert Bits.SHIFT_DIRS[i] == Bits.Right; RowRight(m, t); }
    else if i == 4 { assert Bits.SHIFT_DIRS[i] == Bits.UpLeft; QuietMoves(m, t, Bits.UpLeft); }
    else if i == 5 { assert Bits.SHIFT_DIRS[i] == Bits.UpRight; QuietMoves(m, t, Bits.UpRight); }
    else if i == 6 { assert Bits.SHIFT_DIRS[i] == Bits.DownLeft; QuietMoves(m, t, Bits.DownLeft); }
    else { assert Bits.SHIFT_DIRS[i] == Bits.DownRight; QuietMoves(m, t, Bits.DownRight); }
  }

  /** So Black's move mask on that row is empty. */
  lemma RowMoveMask(b: BG.BitBoardBoard)
    requires b.blacks.bits == 0x1 && b.whites.bits == 0xFE
    ensures BG.MoveMask(b, Black) == EMPTY
  {
    forall i | 0 <= i < |Bits.SHIFT_DIRS|
      ensures BG.DirMoves(b.blacks, b.whites, Bits.SHIFT_DIRS[i]) == Only(3, BitBoard(0xFC))[i]
    {
      RowDir(b.blacks, b.whites, i);
    }
    UnionOf(b.blacks, b.whites, Bits.SHIFT_DIRS, Only(3, BitBoard(0xFC)));
    OrUpToOnly(3, BitBoard(0xFC), 8);
  }

  /** The disc on each square of that position. */
  function RowPiece(r: int, c: int): Piece
  {
    if r == 0 && c == 0 then Some(Black) else if r == 0 then Some(White) else None
  }

  lemma RowBits(b: BG.BitBoardBoard, r: int, c: int)
    requires b.blacks.bits == 0x1 && b.whites.bits == 0xFE && OnBoard(r, c)
    ensures Bit(b.blacks, r, c) <==> r == 0 && c == 0
    ensures Bit(b.whites, r, c) <==> r == 0 && c != 0
  {
  }

  /** A bit board holding that position. */
  lemma RowBoard() returns (b: BG.BitBoardBoard)
    ensures b.blacks.bits == 0x1 && b.whites.bits == 0xFE
  {
    b := BG.BitBoardBoard(BitBoard(0x1), BitBoard(0xFE));
  }

  /** The text is one line. */
  lemma NoMovesLines()
    ensures SplitTerminator(NO_MOVES_TEXT, '\n') == [NO_MOVES_ROW]
  {
    assert [NO_MOVES_ROW, ""][1..] == [""];
    assert Join([NO_MOVES_ROW, ""], '\n') == NO_MOVES_TEXT;
    SplitJoin([NO_MOVES_ROW, ""], '\n');
  }

  /** Every character of the line is a glyph, read as that position's row. */
  lemma RowFits()
    ensures |NO_MOVES_ROW| == 8 && Games.AllFit([NO_MOVES_ROW])
    ensures forall c :: 0 <= c < 8 ==> Games.PieceOf(NO_MOVES_ROW[c]) == RowPiece(0, c)
  {
  }

  /** It parses, on either kind of board, to that position. */
  lemma NoMovesParsed(kind: Boards.Kind)
    ensures Games.Parse(NO_MOVES_TEXT, kind).Ok?
    ensures var g := Games.Parse(NO_MOVES_TEXT, kind).value;
      Games.Valid(g) && forall r, c :: OnBoard(r, c) ==> Games.GetPiece(g, r, c) == RowPiece(r, c)
  {
    NoMovesLines();
    RowFits();
    Games.ParseOkIff(NO_MOVES_TEXT, kind);
  }

  /** `valid_moves` for Black on "○●●●●●●●", on either kind of board, is
      empty. */
  lemma NoMoves(kind: Boards.Kind)
    ensures Games.Parse(NO_MOVES_TEXT, kind).Ok?
    ensures Games.ValidMoves(Games.Parse(NO_MOVES_TEXT, kind).value, Black) == []
  {
    NoMovesParsed(kind);
    var g := Games.Parse(NO_MOVES_TEXT, kind).value;
    var b := RowBoard();
    forall r, c | OnBoard(r, c)
      ensures !(Bit(b.blacks, r, c) && Bit(b.whites, r, c))
      ensures Boards.Get(g.board, r, c) == Boards.Get(Boards.Bits(b), r, c)
    {
      RowBits(b, r, c);
    }
    RowMoveMask(b);
    Boards.Interchangeable(g.board, Boards.Bits(b), Black);
  }

  // ---------------------------------------------------------------------
  // The static evaluation of a one-row position.

  /** "●○○○": White in the corner, then three Black discs. */
  const FOUR_TEXT: string := "\U{25CF}\U{25CB}\U{25CB}\U{25CB}"

  function FourPiece(r: int, c: int): Piece
  {
    if r == 0 && c == 0 then Some(White) else if r == 0 && c < 4 then Some(Black) else None
  }

  lemma FourLines()
    ensures SplitTerminator(FOUR_TEXT, '\n') == [FOUR_TEXT]
  {
    SplitJoin([FOUR_TEXT], '\n');
  }

  lemma FourFits()
    ensures |FOUR_TEXT| == 4 && Games.AllFit([FOUR_TEXT])
    ensures forall c :: 0 <= c < 4 ==> Games.PieceOf(FOUR_TEXT[c]) == FourPiece(0, c)
  {
  }

  /** It parses, on either kind of board, to that position. */
  lemma FourParsed(kind: Boards.Kind)
    ensures Games.Parse(FOUR_TEXT, kind).Ok?
    ensures var g := Games.Parse(FOUR_TEXT, kind).value;
      Games.Valid(g) && forall r, c :: OnBoard(r, c) ==> Games.GetPiece(g, r, c) == FourPiece(r, c)
  {
    FourLines();
    FourFits();
    Games.ParseOkIff(FOUR_TEXT, kind);
  }

  lemma FourBits(b: BG.BitBoardBoard, r: int, c: int)
    requires b.blacks.bits == 0xE && b.whites.bits == 0x1 && OnBoard(r, c)
    ensures Bit(b.blacks, r, c) <==> r == 0 && 0 < c < 4
    ensures Bit(b.whites, r, c) <==> r == 0 && c == 0
  {
  }

  /** A bit board holding that position, with three Black discs and one
      White. */
  lemma FourBoard() returns (b: BG.BitBoardBoard)
    ensures b.blacks.bits == 0xE && b.whites.bits == 0x1
    ensures BG.Scores(b) == (3, 1)
  {
    b := BG.BitBoardBoard(BitBoard(0xE), BitBoard(0x1));
    Bits.CountFromSingle(0, 0);
    Bits.CountFromSingle(1, 0);
    Bits.CountFromSingle(2, 0);
    Bits.CountFromSingle(3, 0);
    Bits.CountUnion(0x2, 0x4);
    Bits.CountUnion(0x6, 0x8);
    assert (1 as bv64) << 0 == 0x1 && (1 as bv64) << 1 == 0x2 && (1 as bv64) << 2 == 0x4 && (1 as bv64) << 3 == 0x8;
  }

  /** `evaluate_to_depth` at depth 0 on "●○○○", on either kind of board: 2
      for Black and -2 for White. */
  lemma DepthZero(kind: Boards.Kind)
    ensures Games.Parse(FOUR_TEXT, kind).Ok? && Games.Valid(Games.Parse(FOUR_TEXT, kind).value)
    ensures Minimax.Value(Games.Parse(FOUR_TEXT, kind).value, Black, 0) == 2
    ensures Minimax.Value(Games.Parse(FOUR_TEXT, kind).value, White, 0) == -2
  {
    FourParsed(kind);
    var g := Games.Parse(FOUR_TEXT, kind).value;
    var b := FourBoard();
    forall r, c | OnBoard(r, c)
      ensures !(Bit(b.blacks, r, c) && Bit(b.whites, r, c))
      ensures Boards.Get(g.board, r, c) == Boards.Get(Boards.Bits(b), r, c)
    {
      FourBits(b, r, c);
    }
    Boards.Interchangeable(g.board, Boards.Bits(b), Black);
  }

  // ---------------------------------------------------------------------
  // A move at the end of a row on the bit board.

  /** "○○○●○●●·": Black, Black, Black, White, Black, White, White, and the
      corner empty. */
  const BUG1_TEXT: string := "\U{25CB}\U{25CB}\U{25CB}\U{25CF}\U{25CB}\U{25CF}\U{25CF}\U{00B7}"
  /** "○○○●○○○○": the same row once Black has played the corner. */
  const BUG1_AFTER: string := "\U{25CB}\U{25CB}\U{25CB}\U{25CF}\U{25CB}\U{25CB}\U{25CB}\U{25CB}"

  /** The piece read for a square of a parsed bit-board game is that of the
      two masks, so those masks are the board. */
  lemma ParsedBoard(g: Games.GameRepr, blacks: BitBoard, whites: BitBoard)
    requires g.board.Bits? && Games.Valid(g)
    requires forall r, c :: OnBoard(r, c) ==> Games.GetPiece(g, r, c) == BG.Get(BG.BitBoardBoard(blacks, whites), r, c)
    requires forall r, c :: OnBoard(r, c) ==> !(Bit(blacks, r, c) && Bit(whites, r, c))
    ensures g.board.bb == BG.BitBoardBoard(blacks, whites)
  {
    var bb := g.board.bb;
    forall r, c | OnBoard(r, c)
      ensures Bit(bb.blacks, r, c) == Bit(blacks, r, c) && Bit(bb.whites, r, c) == Bit(whites, r, c)
    {
      assert Games.GetPiece(g, r, c) == BG.Get(bb, r, c);
      assert !(Bit(bb.blacks, r, c) && Bit(bb.whites, r, c));
    }
    Extensionality(bb.blacks, blacks);
    Extensionality(bb.whites, whites);
  }

  /** A text whose lines all fit parses to the bit board of the two masks,
      given the piece each glyph stands for and no disc beyond the lines. */
  lemma TextParsed(text: string, lines: seq<string>, blacks: BitBoard, whites: BitBoard)
    requires SplitTerminator(text, '\n') == lines && Games.AllFit(lines)
    requires forall r, c :: OnBoard(r, c) ==>
      BG.Get(BG.BitBoardBoard(blacks, whites), r, c) == if r < |lines| && c < |lines[r]| then Games.PieceOf(lines[r][c]) else None
    requires forall r, c :: OnBoard(r, c) ==> !(Bit(blacks, r, c) && Bit(whites, r, c))
    ensures Games.Parse(text, Boards.BitBoardKind).Ok?
    ensures Games.Parse(text, Boards.BitBoardKind).value == Games.GameRepr(Black, Boards.Bits(BG.BitBoardBoard(blacks, whites)))
  {
    Games.ParseOkIff(text, Boards.BitBoardKind);
    var g := Games.Parse(text, Boards.BitBoardKind).value;
    ParsedBoard(g, blacks, whites);
  }

  /** The disc on each square of the first row, before and after. */
  function Bug1Piece(c: int): Piece
  {
    if c == 3 || c == 5 || c == 6 then Some(White) else if c == 7 then None else Some(Black)
  }

  function Bug1AfterPiece(c: int): Piece
  {
    if c == 3 then Some(White) else Some(Black)
  }

  lemma Bug1RowLines()
    ensures SplitTerminator(BUG1_TEXT, '\n') == [BUG1_TEXT]
  {
    SplitJoin([BUG1_TEXT], '\n');
  }

  lemma Bug1Row()
    ensures |BUG1_TEXT| == 8 && Games.AllFit([BUG1_TEXT])
    ensures forall c :: 0 <= c < 8 ==> Games.PieceOf(BUG1_TEXT[c]) == Bug1Piece(c)
  {
  }

  lemma Bug1AfterRowLines()
    ensures SplitTerminator(BUG1_AFTER, '\n') == [BUG1_AFTER]
  {
    SplitJoin([BUG1_AFTER], '\n');
  }

  lemma Bug1AfterRow()
    ensures |BUG1_AFTER| == 8 && Games.AllFit([BUG1_AFTER])
    ensures forall c :: 0 <= c < 8 ==> Games.PieceOf(BUG1_AFTER[c]) == Bug1AfterPiece(c)
  {
  }

  /** The squares of the masks 0x17 (Black) and 0x68 (White). */
  lemma Bug1Bits(b: BG.BitBoardBoard, r: int, c: int)
    requires b.blacks.bits == 0x17 && b.whites.bits == 0x68 && OnBoard(r, c)
    ensures Bit(b.blacks, r, c) <==> r == 0 && (c == 0 || c == 1 || c == 2 || c == 4)
    ensures Bit(b.whites, r, c) <==> r == 0 && (c == 3 || c == 5 || c == 6)
  {
  }

  /** The squares of the masks 0xF7 (Black) and 0x08 (White). */
  lemma Bug1AfterBits(b: BG.BitBoardBoard, r: int, c: int)
    requires b.blacks.bits == 0xF7 && b.whites.bits == 0x08 && OnBoard(r, c)
    ensures Bit(b.blacks, r, c) <==> r == 0 && c != 3
    ensures Bit(b.whites, r, c) <==> r == 0 && c == 3
  {
  }

  lemma Bug1Board() returns (b: BG.BitBoardBoard)
    ensures b.blacks.bits == 0x17 && b.whites.bits == 0x68
  {
    b := BG.BitBoardBoard(BitBoard(0x17), BitBoard(0x68));
  }

  lemma Bug1AfterBoard() returns (b: BG.BitBoardBoard)
    ensures b.blacks.bits == 0xF7 && b.whites.bits == 0x08
  {
    b := BG.BitBoardBoard(BitBoard(0xF7), BitBoard(0x08));
  }

  /** "○○○●○●●·" parses to the masks 0x17 and 0x68. */
  lemma Bug1Parsed() returns (b: BG.BitBoardBoard)
    ensures b.blacks.bits == 0x17 && b.whites.bits == 0x68
    ensures Games.Parse(BUG1_TEXT, Boards.BitBoardKind).Ok?
    ensures Games.Parse(BUG1_TEXT, Boards.BitBoardKind).value == Games.GameRepr(Black, Boards.Bits(b))
  {
    b := Bug1Board();
    Bug1RowLines();
    Bug1Row();
    var lines := [BUG1_TEXT];
    forall r, c | OnBoard(r, c)
      ensures !(Bit(b.blacks, r, c) && Bit(b.whites, r, c))
      ensures BG.Get(b, r, c) == if r < |lines| && c < |lines[r]| then Games.PieceOf(lines[r][c]) else None
    {
      Bug1Bits(b, r, c);
    }
    TextParsed(BUG1_TEXT, lines, b.blacks, b.whites);
  }

  /** "○○○●○○○○" parses to the masks 0xF7 and 0x08. */
  lemma Bug1AfterParsed() returns (b: BG.BitBoardBoard)
    ensures b.blacks.bits == 0xF7 && b.whites.bits == 0x08
    ensures Games.Parse(BUG1_AFTER, Boards.BitBoardKind).Ok?
    ensures Games.Parse(BUG1_AFTER, Boards.BitBoardKind).value == Games.GameRepr(Black, Boards.Bits(b))
  {
    b := Bug1AfterBoard();
    Bug1AfterRowLines();
    Bug1AfterRow();
    var lines := [BUG1_AFTER];
    forall r, c | OnBoard(r, c)
      ensures !(Bit(b.blacks, r, c) && Bit(b.whites, r, c))
      ensures BG.Get(b, r, c) == if r < |lines| && c < |lines[r]| then Games.PieceOf(lines[r][c]) else None
    {
      Bug1AfterBits(b, r, c);
    }
    TextParsed(BUG1_AFTER, lines, b.blacks, b.whites);
  }

  /** To the right of Black's discs the fill takes in the White discs of
      columns 3, 5 and 6; to the left of the corner it takes in those of
      columns 6 and 5; what both cover, columns 5 and 6, flips. */
  lemma Bug1Right(m: BitBoard, t: BitBoard, mv: BitBoard)
    requires m.bits == 0x17 && t.bits == 0x68 && mv.bits == 0x80
    ensures BG.DirFlips(m, t, mv, Bits.Right) == BitBoard(0x60)
  {
    GenStep(m, t, 1, 1, m, BitBoard(0x28));
    GenStep(m, t, 1, 2, BitBoard(0x28), BitBoard(0x40));
    GenStep(m, t, 1, 3, BitBoard(0x40), EMPTY);
    FloodStops(m, m, t, 1, 2, FILL_STEPS);
    FloodStep(m, m, t, 1, 1, m, BitBoard(0x28));
    FloodStep(m, m, t, 1, 2, BitBoard(0x3F), BitBoard(0x40));
    GenStep(mv, t, -1, 1, mv, BitBoard(0x40));
    GenStep(mv, t, -1, 2, BitBoard(0x40), BitBoard(0x20));
    GenStep(mv, t, -1, 3, BitBoard(0x20), EMPTY);
    FloodStops(mv, mv, t, -1, 2, FILL_STEPS);
    FloodStep(mv, mv, t, -1, 1, mv, BitBoard(0x40));
    FloodStep(mv, mv, t, -1, 2, BitBoard(0xC0), BitBoard(0x20));
    assert And(BitBoard(0x7F), BitBoard(0xE0)) == BitBoard(0x60);
  }

  /** No other direction flips anything. */
  lemma Bug1Dir(m: BitBoard, t: BitBoard, mv: BitBoard, i: int)
    requires m.bits == 0x17 && t.bits == 0x68 && mv.bits == 0x80 && 0 <= i < |Bits.SHIFT_DIRS|
    ensures BG.DirFlips(m, t, mv, Bits.SHIFT_DIRS[i]) == Only(3, BitBoard(0x60))[i]
  {
    if i == 0 { assert Bits.SHIFT_DIRS[i] == Bits.Up; QuietFlips(m, t, mv, Bits.Up); }
    else if i == 1 { assert Bits.SHIFT_DIRS[i] == Bits.Down; QuietFlips(m, t, mv, Bits.Down); }
    else if i == 2 { assert Bits.SHIFT_DIRS[i] == Bits.Left; QuietFlips(m, t, mv, Bits.Left); }
    else if i == 3 { assert Bits.SHIFT_DIRS[i] == Bits.Right; Bug1Right(m, t, mv); }
    else if i == 4 { assert Bits.SHIFT_DIRS[i] == Bits.UpLeft; QuietFlips(m, t, mv, Bits.UpLeft); }
    else if i == 5 { assert Bits.SHIFT_DIRS[i] == Bits.UpRight; QuietFlips(m, t, mv, Bits.UpRight); }
    else if i == 6 { assert Bits.SHIFT_DIRS[i] == Bits.DownLeft; QuietFlips(m, t, mv, Bits.DownLeft); }
    else { assert Bits.SHIFT_DIRS[i] == Bits.DownRight; QuietFlips(m, t, mv, Bits.DownRight); }
  }

  /** Black in the corner flips columns 5 and 6, and the row becomes 0xF7
      Black and 0x08 White. */
  lemma Bug1Applied(b: BG.BitBoardBoard)
    requires b.blacks.bits == 0x17 && b.whites.bits == 0x68
    ensures BG.Placeable(0, 7) && BG.Flips(b, Move(Black, 0, 7)) == BitBoard(0x60)
    ensures BG.Applied(b, Move(Black, 0, 7)) == BG.BitBoardBoard(BitBoard(0xF7), BitBoard(0x08))
  {
    var mv := FromSquare(0, 7);
    assert mv == BitBoard(0x80);
    forall i | 0 <= i < |Bits.SHIFT_DIRS|
      ensures BG.DirFlips(b.blacks, b.whites, mv, Bits.SHIFT_DIRS[i]) == Only(3, BitBoard(0x60))[i]
    {
      Bug1Dir(b.blacks, b.whites, mv, i);
    }
    FlipsOnly(b.blacks, b.whites, mv, Bits.SHIFT_DIRS, 3, BitBoard(0x60));
    assert Or(b.blacks, Or(mv, BitBoard(0x60))) == BitBoard(0xF7);
    assert And(b.whites, Not(BitBoard(0x60))) == BitBoard(0x08);
  }

  /** `test_apply_move_bug1`: on the bit board, Black at (0,7) on
      "○○○●○●●·" gives the board of "○○○●○○○○". */
  lemma Bug1Apply()
    ensures Games.Parse(BUG1_TEXT, Boards.BitBoardKind).Ok? && Games.Parse(BUG1_AFTER, Boards.BitBoardKind).Ok?
    ensures var g := Games.Parse(BUG1_TEXT, Boards.BitBoardKind).value;
      && Boards.CanApply(g.board, Move(Black, 0, 7))
      && Games.Apply(g, Move(Black, 0, 7)).board == Games.Parse(BUG1_AFTER, Boards.BitBoardKind).value.board
  {
    var b := Bug1Parsed();
    var a := Bug1AfterParsed();
    Bug1Applied(b);
  }

  // ---------------------------------------------------------------------
  // A move that flips a whole ring.

  /** Five rows under an empty first line: a White ring around a Black ring
      around the empty square (3,3). */
  const RING_LINES: seq<string> := ["",
    "\U{00B7}\U{25CF}\U{25CF}\U{25CF}\U{25CF}\U{25CF}",
    "\U{00B7}\U{25CF}\U{25CB}\U{25CB}\U{25CB}\U{25CF}",
    "\U{00B7}\U{25CF}\U{25CB}\U{00B7}\U{25CB}\U{25CF}",
    "\U{00B7}\U{25CF}\U{25CB}\U{25CB}\U{25CB}\U{25CF}",
    "\U{00B7}\U{25CF}\U{25CF}\U{25CF}\U{25CF}\U{25CF}"]
  const RING_TEXT: string := "\n" +
    "\U{00B7}\U{25CF}\U{25CF}\U{25CF}\U{25CF}\U{25CF}\n" +
    "\U{00B7}\U{25CF}\U{25CB}\U{25CB}\U{25CB}\U{25CF}\n" +
    "\U{00B7}\U{25CF}\U{25CB}\U{00B7}\U{25CB}\U{25CF}\n" +
    "\U{00B7}\U{25CF}\U{25CB}\U{25CB}\U{25CB}\U{25CF}\n" +
    "\U{00B7}\U{25CF}\U{25CF}\U{25CF}\U{25CF}\U{25CF}"
  /** The same rows once White has played (3,3): all White. */
  const RING_AFTER_LINES: seq<string> := ["",
    "\U{00B7}\U{25CF}\U{25CF}\U{25CF}\U{25CF}\U{25CF}",
    "\U{00B7}\U{25CF}\U{25CF}\U{25CF}\U{25CF}\U{25CF}",
    "\U{00B7}\U{25CF}\U{25CF}\U{25CF}\U{25CF}\U{25CF}",
    "\U{00B7}\U{25CF}\U{25CF}\U{25CF}\U{25CF}\U{25CF}",
    "\U{00B7}\U{25CF}\U{25CF}\U{25CF}\U{25CF}\U{25CF}"]
  const RING_AFTER: string := "\n" +
    "\U{00B7}\U{25CF}\U{25CF}\U{25CF}\U{25CF}\U{25CF}\n" +
    "\U{00B7}\U{25CF}\U{25CF}\U{25CF}\U{25CF}\U{25CF}\n" +
    "\U{00B7}\U{25CF}\U{25CF}\U{25CF}\U{25CF}\U{25CF}\n" +
    "\U{00B7}\U{25CF}\U{25CF}\U{25CF}\U{25CF}\U{25CF}\n" +
    "\U{00B7}\U{25CF}\U{25CF}\U{25CF}\U{25CF}\U{25CF}"

  /** The disc on each square, before and after. */
  function RingPiece(r: int, c: int): Piece
  {
    if r < 1 || r > 5 || c < 1 || c > 5 then None
    else if r == 1 || r == 5 || c == 1 || c == 5 then Some(White)
    else if r == 3 && c == 3 then None
    else Some(Black)
  }

  function RingAfterPiece(r: int, c: int): Piece
  {
    if r < 1 || r > 5 || c < 1 || c > 5 then None else Some(White)
  }

  lemma RingLines()
    ensures SplitTerminator(RING_TEXT, '\n') == RING_LINES
  {
    assert Join(RING_LINES, '\n') == RING_TEXT;
    SplitJoin(RING_LINES, '\n');
  }

  lemma RingAfterLines()
    ensures SplitTerminator(RING_AFTER, '\n') == RING_AFTER_LINES
  {
    assert Join(RING_AFTER_LINES, '\n') == RING_AFTER;
    SplitJoin(RING_AFTER_LINES, '\n');
  }

  lemma RingGlyphs()
    ensures Games.AllFit(RING_LINES)
    ensures forall r, c :: 0 <= r < |RING_LINES| && 0 <= c < |RING_LINES[r]| ==> Games.PieceOf(RING_LINES[r][c]) == RingPiece(r, c)
  {
  }

  lemma RingAfterGlyphs()
    ensures Games.AllFit(RING_AFTER_LINES)
    ensures forall r, c :: 0 <= r < |RING_AFTER_LINES| && 0 <= c < |RING_AFTER_LINES[r]| ==>
      Games.PieceOf(RING_AFTER_LINES[r][c]) == RingAfterPiece(r, c)
  {
  }

  /** The squares of the White mask 0x3e22_2222_3e00 and the Black mask
      0x1c_141c_0000. */
  lemma RingBits(b: BG.BitBoardBoard, r: int, c: int)
    requires b.whites.bits == 0x3e22_2222_3e00 && b.blacks.bits == 0x1c_141c_0000 && OnBoard(r, c)
    ensures BG.Get(b, r, c) == RingPiece(r, c)
  {
  }

  /** The squares of the White mask 0x3e3e_3e3e_3e00. */
  lemma RingAfterBits(b: BG.BitBoardBoard, r: int, c: int)
    requires b.whites.bits == 0x3e3e_3e3e_3e00 && b.blacks.bits == 0 && OnBoard(r, c)
    ensures BG.Get(b, r, c) == RingAfterPiece(r, c)
  {
  }

  lemma RingBoard() returns (b: BG.BitBoardBoard)
    ensures b.whites.bits == 0x3e22_2222_3e00 && b.blacks.bits == 0x1c_141c_0000
  {
    b := BG.BitBoardBoard(BitBoard(0x1c_141c_0000), BitBoard(0x3e22_2222_3e00));
  }

  lemma RingAfterBoard() returns (b: BG.BitBoardBoard)
    ensures b.whites.bits == 0x3e3e_3e3e_3e00 && b.blacks.bits == 0
  {
    b := BG.BitBoardBoard(EMPTY, BitBoard(0x3e3e_3e3e_3e00));
  }

  /** The ring text parses to those masks. */
  lemma RingParsed() returns (b: BG.BitBoardBoard)
    ensures b.whites.bits == 0x3e22_2222_3e00 && b.blacks.bits == 0x1c_141c_0000
    ensures Games.Parse(RING_TEXT, Boards.BitBoardKind).Ok?
    ensures Games.Parse(RING_TEXT, Boards.BitBoardKind).value == Games.GameRepr(Black, Boards.Bits(b))
  {
    b := RingBoard();
    RingLines();
    RingGlyphs();
    forall r, c | OnBoard(r, c)
      ensures !(Bit(b.blacks, r, c) && Bit(b.whites, r, c))
      ensures BG.Get(b, r, c) == if r < |RING_LINES| && c < |RING_LINES[r]| then Games.PieceOf(RING_LINES[r][c]) else None
    {
      RingBits(b, r, c);
    }
    TextParsed(RING_TEXT, RING_LINES, b.blacks, b.whites);
  }

  lemma RingAfterParsed() returns (b: BG.BitBoardBoard)
    ensures b.whites.bits == 0x3e3e_3e3e_3e00 && b.blacks.bits == 0
    ensures Games.Parse(RING_AFTER, Boards.BitBoardKind).Ok?
    ensures Games.Parse(RING_AFTER, Boards.BitBoardKind).value == Games.GameRepr(Black, Boards.Bits(b))
  {
    b := RingAfterBoard();
    RingAfterLines();
    RingAfterGlyphs();
    forall r, c | OnBoard(r, c)
      ensures !(Bit(b.blacks, r, c) && Bit(b.whites, r, c))
      ensures BG.Get(b, r, c) == if r < |RING_AFTER_LINES| && c < |RING_AFTER_LINES[r]| then Games.PieceOf(RING_AFTER_LINES[r][c]) else None
    {
      RingAfterBits(b, r, c);
    }
    TextParsed(RING_AFTER, RING_AFTER_LINES, b.blacks, b.whites);
  }

  // White at (3,3): in each direction the White fill runs over the Black
  // ring, and the fill back from the move takes in one Black disc.

  lemma RingUp(m: BitBoard, t: BitBoard, mv: BitBoard)
    requires m.bits == 0x3e22_2222_3e00 && t.bits == 0x1c_141c_0000 && mv.bits == 0x800_0000
    ensures BG.DirFlips(m, t, mv, Bits.Up) == BitBoard(0x8_0000_0000)
  {
    GenStep(m, t, -8, 1, m, BitBoard(0x1c_0000_0000));
    GenStep(m, t, -8, 2, BitBoard(0x1c_0000_0000), BitBoard(0x1400_0000));
    GenStep(m, t, -8, 3, BitBoard(0x1400_0000), BitBoard(0x14_0000));
    GenStep(m, t, -8, 4, BitBoard(0x14_0000), EMPTY);
    FloodStops(m, m, t, -8, 3, FILL_STEPS);
    FloodStep(m, m, t, -8, 1, m, BitBoard(0x1c_0000_0000));
    FloodStep(m, m, t, -8, 2, BitBoard(0x3e3e_2222_3e00), BitBoard(0x1400_0000));
    FloodStep(m, m, t, -8, 3, BitBoard(0x3e3e_3622_3e00), BitBoard(0x14_0000));
    GenStep(mv, t, 8, 1, mv, BitBoard(0x8_0000_0000));
    GenStep(mv, t, 8, 2, BitBoard(0x8_0000_0000), EMPTY);
    FloodStops(mv, mv, t, 8, 1, FILL_STEPS);
    FloodStep(mv, mv, t, 8, 1, mv, BitBoard(0x8_0000_0000));
    assert And(BitBoard(0x3e3e_3636_3e00), BitBoard(0x8_0800_0000)) == BitBoard(0x8_0000_0000);
  }

  lemma RingDown(m: BitBoard, t: BitBoard, mv: BitBoard)
    requires m.bits == 0x3e22_2222_3e00 && t.bits == 0x1c_141c_0000 && mv.bits == 0x800_0000
    ensures BG.DirFlips(m, t, mv, Bits.Down) == BitBoard(0x8_0000)
  {
    GenStep(m, t, 8, 1, m, BitBoard(0x1c_0000));
    GenStep(m, t, 8, 2, BitBoard(0x1c_0000), BitBoard(0x1400_0000));
    GenStep(m, t, 8, 3, BitBoard(0x1400_0000), BitBoard(0x14_0000_0000));
    GenStep(m, t, 8, 4, BitBoard(0x14_0000_0000), EMPTY);
    FloodStops(m, m, t, 8, 3, FILL_STEPS);
    FloodStep(m, m, t, 8, 1, m, BitBoard(0x1c_0000));
    FloodStep(m, m, t, 8, 2, BitBoard(0x3e22_223e_3e00), BitBoard(0x1400_0000));
    FloodStep(m, m, t, 8, 3, BitBoard(0x3e22_363e_3e00), BitBoard(0x14_0000_0000));
    GenStep(mv, t, -8, 1, mv, BitBoard(0x8_0000));
    GenStep(mv, t, -8, 2, BitBoard(0x8_0000), EMPTY);
    FloodStops(mv, mv, t, -8, 1, FILL_STEPS);
    FloodStep(mv, mv, t, -8, 1, mv, BitBoard(0x8_0000));
    assert And(BitBoard(0x3e36_363e_3e00), BitBoard(0x808_0000)) == BitBoard(0x8_0000);
  }

  lemma RingLeft(m: BitBoard, t: BitBoard, mv: BitBoard)
    requires m.bits == 0x3e22_2222_3e00 && t.bits == 0x1c_141c_0000 && mv.bits == 0x800_0000
    ensures BG.DirFlips(m, t, mv, Bits.Left) == BitBoard(0x1000_0000)
  {
    GenStep(m, t, -1, 1, m, BitBoard(0x10_1010_0000));
    GenStep(m, t, -1, 2, BitBoard(0x10_1010_0000), BitBoard(0x8_0008_0000));
    GenStep(m, t, -1, 3, BitBoard(0x8_0008_0000), BitBoard(0x4_0004_0000));
    GenStep(m, t, -1, 4, BitBoard(0x4_0004_0000), EMPTY);
    FloodStops(m, m, t, -1, 3, FILL_STEPS);
    FloodStep(m, m, t, -1, 1, m, BitBoard(0x10_1010_0000));
    FloodStep(m, m, t, -1, 2, BitBoard(0x3e32_3232_3e00), BitBoard(0x8_0008_0000));
    FloodStep(m, m, t, -1, 3, BitBoard(0x3e3a_323a_3e00), BitBoard(0x4_0004_0000));
    GenStep(mv, t, 1, 1, mv, BitBoard(0x1000_0000));
    GenStep(mv, t, 1, 2, BitBoard(0x1000_0000), EMPTY);
    FloodStops(mv, mv, t, 1, 1, FILL_STEPS);
    FloodStep(mv, mv, t, 1, 1, mv, BitBoard(0x1000_0000));
    assert And(BitBoard(0x3e3e_323e_3e00), BitBoard(0x1800_0000)) == BitBoard(0x1000_0000);
  }

  lemma RingRight(m: BitBoard, t: BitBoard, mv: BitBoard)
    requires m.bits == 0x3e22_2222_3e00 && t.bits == 0x1c_141c_0000 && mv.bits == 0x800_0000
    ensures BG.DirFlips(m, t, mv, Bits.Right) == BitBoard(0x400_0000)
  {
    GenStep(m, t, 1, 1, m, BitBoard(0x4_0404_0000));
    GenStep(m, t, 1, 2, BitBoard(0x4_0404_0000), BitBoard(0x8_0008_0000));
    GenStep(m, t, 1, 3, BitBoard(0x8_0008_0000), BitBoard(0x10_0010_0000));
    GenStep(m, t, 1, 4, BitBoard(0x10_0010_0000), EMPTY);
    FloodStops(m, m, t, 1, 3, FILL_STEPS);
    FloodStep(m, m, t, 1, 1, m, BitBoard(0x4_0404_0000));
    FloodStep(m, m, t, 1, 2, BitBoard(0x3e26_2626_3e00), BitBoard(0x8_0008_0000));
    FloodStep(m, m, t, 1, 3, BitBoard(0x3e2e_262e_3e00), BitBoard(0x10_0010_0000));
    GenStep(mv, t, -1, 1, mv, BitBoard(0x400_0000));
    GenStep(mv, t, -1, 2, BitBoard(0x400_0000), EMPTY);
    FloodStops(mv, mv, t, -1, 1, FILL_STEPS);
    FloodStep(mv, mv, t, -1, 1, mv, BitBoard(0x400_0000));
    assert And(BitBoard(0x3e3e_263e_3e00), BitBoard(0xc00_0000)) == BitBoard(0x400_0000);
  }

  lemma RingUpLeft(m: BitBoard, t: BitBoard, mv: BitBoard)
    requires m.bits == 0x3e22_2222_3e00 && t.bits == 0x1c_141c_0000 && mv.bits == 0x800_0000
    ensures BG.DirFlips(m, t, mv, Bits.UpLeft) == BitBoard(0x10_0000_0000)
  {
    GenStep(m, t, -9, 1, m, BitBoard(0x1c_1010_0000));
    GenStep(m, t, -9, 2, BitBoard(0x1c_1010_0000), BitBoard(0x408_0000));
    GenStep(m, t, -9, 3, BitBoard(0x408_0000), EMPTY);
    FloodStops(m, m, t, -9, 2, FILL_STEPS);
    FloodStep(m, m, t, -9, 1, m, BitBoard(0x1c_1010_0000));
    FloodStep(m, m, t, -9, 2, BitBoard(0x3e3e_3232_3e00), BitBoard(0x408_0000));
    GenStep(mv, t, 9, 1, mv, BitBoard(0x10_0000_0000));
    GenStep(mv, t, 9, 2, BitBoard(0x10_0000_0000), EMPTY);
    FloodStops(mv, mv, t, 9, 1, FILL_STEPS);
    FloodStep(mv, mv, t, 9, 1, mv, BitBoard(0x10_0000_0000));
    assert And(BitBoard(0x3e3e_363a_3e00), BitBoard(0x10_0800_0000)) == BitBoard(0x10_0000_0000);
  }

  lemma RingUpRight(m: BitBoard, t: BitBoard, mv: BitBoard)
    requires m.bits == 0x3e22_2222_3e00 && t.bits == 0x1c_141c_0000 && mv.bits == 0x800_0000
    ensures BG.DirFlips(m, t, mv, Bits.UpRight) == BitBoard(0x4_0000_0000)
  {
    GenStep(m, t, -7, 1, m, BitBoard(0x1c_0404_0000));
    GenStep(m, t, -7, 2, BitBoard(0x1c_0404_0000), BitBoard(0x1008_0000));
    GenStep(m, t, -7, 3, BitBoard(0x1008_0000), EMPTY);
    FloodStops(m, m, t, -7, 2, FILL_STEPS);
    FloodStep(m, m, t, -7, 1, m, BitBoard(0x1c_0404_0000));
    FloodStep(m, m, t, -7, 2, BitBoard(0x3e3e_2626_3e00), BitBoard(0x1008_0000));
    GenStep(mv, t, 7, 1, mv, BitBoard(0x4_0000_0000));
    GenStep(mv, t, 7, 2, BitBoard(0x4_0000_0000), EMPTY);
    FloodStops(mv, mv, t, 7, 1, FILL_STEPS);
    FloodStep(mv, mv, t, 7, 1, mv, BitBoard(0x4_0000_0000));
    assert And(BitBoard(0x3e3e_362e_3e00), BitBoard(0x4_0800_0000)) == BitBoard(0x4_0000_0000);
  }

  lemma RingDownLeft(m: BitBoard, t: BitBoard, mv: BitBoard)
    requires m.bits == 0x3e22_2222_3e00 && t.bits == 0x1c_141c_0000 && mv.bits == 0x800_0000
    ensures BG.DirFlips(m, t, mv, Bits.DownLeft) == BitBoard(0x10_0000)
  {
    GenStep(m, t, 7, 1, m, BitBoard(0x10_101c_0000));
    GenStep(m, t, 7, 2, BitBoard(0x10_101c_0000), BitBoard(0x8_0400_0000));
    GenStep(m, t, 7, 3, BitBoard(0x8_0400_0000), EMPTY);
    FloodStops(m, m, t, 7, 2, FILL_STEPS);
    FloodStep(m, m, t, 7, 1, m, BitBoard(0x10_101c_0000));
    FloodStep(m, m, t, 7, 2, BitBoard(0x3e32_323e_3e00), BitBoard(0x8_0400_0000));
    GenStep(mv, t, -7, 1, mv, BitBoard(0x10_0000));
    GenStep(mv, t, -7, 2, BitBoard(0x10_0000), EMPTY);
    FloodStops(mv, mv, t, -7, 1, FILL_STEPS);
    FloodStep(mv, mv, t, -7, 1, mv, BitBoard(0x10_0000));
    assert And(BitBoard(0x3e3a_363e_3e00), BitBoard(0x810_0000)) == BitBoard(0x10_0000);
  }

  lemma RingDownRight(m: BitBoard, t: BitBoard, mv: BitBoard)
    requires m.bits == 0x3e22_2222_3e00 && t.bits == 0x1c_141c_0000 && mv.bits == 0x800_0000
    ensures BG.DirFlips(m, t, mv, Bits.DownRight) == BitBoard(0x4_0000)
  {
    GenStep(m, t, 9, 1, m, BitBoard(0x4_041c_0000));
    GenStep(m, t, 9, 2, BitBoard(0x4_041c_0000), BitBoard(0x8_1000_0000));
    GenStep(m, t, 9, 3, BitBoard(0x8_1000_0000), EMPTY);
    FloodStops(m, m, t, 9, 2, FILL_STEPS);
    FloodStep(m, m, t, 9, 1, m, BitBoard(0x4_041c_0000));
    FloodStep(m, m, t, 9, 2, BitBoard(0x3e26_263e_3e00), BitBoard(0x8_1000_0000));
    GenStep(mv, t, -9, 1, mv, BitBoard(0x4_0000));
    GenStep(mv, t, -9, 2, BitBoard(0x4_0000), EMPTY);
    FloodStops(mv, mv, t, -9, 1, FILL_STEPS);
    FloodStep(mv, mv, t, -9, 1, mv, BitBoard(0x4_0000));
    assert And(BitBoard(0x3e2e_363e_3e00), BitBoard(0x804_0000)) == BitBoard(0x4_0000);
  }

  /** The disc each direction flips: the Black neighbour of (3,3) on its
      side. */
  const RING_FLIPS: seq<BitBoard> := [BitBoard(0x8_0000_0000), BitBoard(0x8_0000), BitBoard(0x1000_0000),
    BitBoard(0x400_0000), BitBoard(0x10_0000_0000), BitBoard(0x4_0000_0000), BitBoard(0x10_0000), BitBoard(0x4_0000)]

  lemma RingDir(m: BitBoard, t: BitBoard, mv: BitBoard, i: int)
    requires m.bits == 0x3e22_2222_3e00 && t.bits == 0x1c_141c_0000 && mv.bits == 0x800_0000
    requires 0 <= i < |Bits.SHIFT_DIRS|
    ensures BG.DirFlips(m, t, mv, Bits.SHIFT_DIRS[i]) == RING_FLIPS[i]
  {
    if i == 0 { assert Bits.SHIFT_DIRS[i] == Bits.Up; RingUp(m, t, mv); }
    else if i == 1 { assert Bits.SHIFT_DIRS[i] == Bits.Down; RingDown(m, t, mv); }
    else if i == 2 { assert Bits.SHIFT_DIRS[i] == Bits.Left; RingLeft(m, t, mv); }
    else if i == 3 { assert Bits.SHIFT_DIRS[i] == Bits.Right; RingRight(m, t, mv); }
    else if i == 4 { assert Bits.SHIFT_DIRS[i] == Bits.UpLeft; RingUpLeft(m, t, mv); }
    else if i == 5 { assert Bits.SHIFT_DIRS[i] == Bits.UpRight; RingUpRight(m, t, mv); }
    else if i == 6 { assert Bits.SHIFT_DIRS[i] == Bits.DownLeft; RingDownLeft(m, t, mv); }
    else { assert Bits.SHIFT_DIRS[i] == Bits.DownRight; RingDownRight(m, t, mv); }
  }

  /** Together the eight discs are the whole Black ring. */
  lemma RingFlipsUnion()
    ensures OrUpTo(RING_FLIPS, 8) == BitBoard(0x1c_141c_0000)
  {
    assert OrUpTo(RING_FLIPS, 2) == BitBoard(0x8_0008_0000);
    assert OrUpTo(RING_FLIPS, 4) == BitBoard(0x8_1408_0000);
    assert OrUpTo(RING_FLIPS, 6) == BitBoard(0x1c_1408_0000);
  }

  lemma RingUnion(m: BitBoard, t: BitBoard, mv: BitBoard)
    requires m.bits == 0x3e22_2222_3e00 && t.bits == 0x1c_141c_0000 && mv.bits == 0x800_0000
    ensures BG.FlipUnion(m, t, mv, Bits.SHIFT_DIRS) == OrUpTo(RING_FLIPS, 8)
  {
    forall i | 0 <= i < |Bits.SHIFT_DIRS|
      ensures BG.DirFlips(m, t, mv, Bits.SHIFT_DIRS[i]) == RING_FLIPS[i]
    {
      RingDir(m, t, mv, i);
    }
    FlipUnionOf(m, t, mv, Bits.SHIFT_DIRS, RING_FLIPS);
  }

  /** White at (3,3) flips the whole Black ring. */
  lemma RingFlips(b: BG.BitBoardBoard)
    requires b.whites.bits == 0x3e22_2222_3e00 && b.blacks.bits == 0x1c_141c_0000
    ensures BG.Placeable(3, 3) && FromSquare(3, 3) == BitBoard(0x800_0000)
    ensures BG.Flips(b, Move(White, 3, 3)) == BitBoard(0x1c_141c_0000)
  {
    var mv := FromSquare(3, 3);
    assert mv == BitBoard(0x800_0000);
    RingUnion(b.whites, b.blacks, mv);
    RingFlipsUnion();
  }

  /** So no Black disc is left. */
  lemma RingApplied(b: BG.BitBoardBoard)
    requires b.whites.bits == 0x3e22_2222_3e00 && b.blacks.bits == 0x1c_141c_0000
    ensures BG.Placeable(3, 3)
    ensures BG.Applied(b, Move(White, 3, 3)) == BG.BitBoardBoard(EMPTY, BitBoard(0x3e3e_3e3e_3e00))
  {
    RingFlips(b);
    assert Or(b.whites, Or(BitBoard(0x800_0000), BitBoard(0x1c_141c_0000))) == BitBoard(0x3e3e_3e3e_3e00);
    assert And(b.blacks, Not(BitBoard(0x1c_141c_0000))) == EMPTY;
  }

  /** The ring of `test_apply_move`: on the bit board, White at (3,3) turns
      the board into that of the all-White rows. */
  lemma RingApply()
    ensures Games.Parse(RING_TEXT, Boards.BitBoardKind).Ok? && Games.Parse(RING_AFTER, Boards.BitBoardKind).Ok?
    ensures var g := Games.Parse(RING_TEXT, Boards.BitBoardKind).value;
      && Boards.CanApply(g.board, Move(White, 3, 3))
      && Games.Apply(g, Move(White, 3, 3)).board == Games.Parse(RING_AFTER, Boards.BitBoardKind).value.board
  {
    var b := RingParsed();
    var a := RingAfterParsed();
    RingApplied(b);
  }

  // ---------------------------------------------------------------------
  // Texts `try_from` rejects (crates/othello_game/tests/test_game.rs,
  // test_from_bad_string).

  /** Nine glyphs on one row. */
  const WIDE_TEXT: string := "\U{25CF}\U{25CF}\U{25CF}\U{25CF}\U{25CF}\U{25CF}\U{25CF}\U{25CF}\U{25CB}"
  /** Nine rows of one glyph each. */
  const TALL_LINES: seq<string> := ["\U{25CF}", "\U{25CF}", "\U{25CF}", "\U{25CF}", "\U{25CF}",
    "\U{25CF}", "\U{25CF}", "\U{25CF}", "\U{25CB}"]
  const TALL_TEXT: string := "\U{25CF}\n\U{25CF}\n\U{25CF}\n\U{25CF}\n\U{25CF}\n\U{25CF}\n\U{25CF}\n\U{25CF}\n\U{25CB}"
  /** No glyph at all. */
  const JUNK_TEXT: string := "qwerty"

  /** The wide text is one line. */
  lemma WideLines()
    ensures SplitTerminator(WIDE_TEXT, '\n') == [WIDE_TEXT]
  {
    SplitPlain(WIDE_TEXT, '\n');
  }

  /** Eight glyphs that fit, then a glyph in a column too many. */
  lemma WideFits()
    ensures |WIDE_TEXT| == 9
    ensures !Games.Fits([WIDE_TEXT], 0, 8) && Games.FitsBefore([WIDE_TEXT], 0, 8)
    ensures Games.ErrorAt([WIDE_TEXT], 0, 8) == Games.TooManyColumns
  {
  }

  /** A ninth column is too many. */
  lemma WideRejected(kind: Boards.Kind)
    ensures Games.Parse(WIDE_TEXT, kind) == Err(Games.TooManyColumns)
  {
    WideLines();
    WideFits();
    Games.ParseFirstError(WIDE_TEXT, kind, 0, 8);
  }

  /** The nine lines of the tall text. */
  lemma TallLines()
    ensures SplitTerminator(TALL_TEXT, '\n') == TALL_LINES
  {
    assert Join(TALL_LINES, '\n') == TALL_TEXT;
    SplitTerminatorJoin(TALL_LINES, '\n');
  }

  /** The first eight lines fit; the ninth holds a glyph in a row too many. */
  lemma TallFits()
    ensures |TALL_LINES| == 9 && |TALL_LINES[8]| == 1
    ensures !Games.Fits(TALL_LINES, 8, 0) && Games.FitsBefore(TALL_LINES, 8, 0)
    ensures forall i, j :: 0 <= i < 8 && 0 <= j < |TALL_LINES[i]| ==> Games.Fits(TALL_LINES, i, j)
    ensures Games.ErrorAt(TALL_LINES, 8, 0) == Games.TooManyRows
  {
  }

  /** A ninth row is too many, though its glyph is a valid one. */
  lemma TallRejected(kind: Boards.Kind)
    ensures Games.Parse(TALL_TEXT, kind) == Err(Games.TooManyRows)
  {
    TallLines();
    TallFits();
    Games.ParseFirstError(TALL_TEXT, kind, 8, 0);
  }

  /** A character that is no glyph is an invalid piece. */
  lemma JunkRejected(kind: Boards.Kind)
    ensures Games.Parse(JUNK_TEXT, kind) == Err(Games.InvalidPiece)
  {
    SplitPlain(JUNK_TEXT, '\n');
    Games.ParseFirstError(JUNK_TEXT, kind, 0, 0);
  }
}
