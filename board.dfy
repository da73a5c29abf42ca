/** The `Board` trait of crates/othello_game/src/lib.rs with its two
    implementations, `BitBoardBoard` and `DefaultBoard`, as one closed union:
    every trait method dispatches on the implementation.  The refinement
    results make the two interchangeable: boards holding the same discs list
    the same moves in the same order, count the same scores, and stay alike
    through every legal move. */
module Boards {
  import opened Core
  import opened Bitboard
  import BG = BitboardGame
  import DB = DefaultBoard
  import opened Refinement
  import opened ApplyRefinement
  import opened Agreement

  /** The two implementations of the trait. */
  datatype Kind = BitBoardKind | DefaultKind

  /** A board of either implementation. */
  datatype Board = Bits(bb: BG.BitBoardBoard) | Dense(d: DB.DefaultBoard)

  function KindOf(b: Board): Kind
  {
    if b.Bits? then BitBoardKind else DefaultKind
  }

  /** A bit board never has a square in both masks. */
  ghost predicate Valid(b: Board)
  {
    b.Bits? ==> BG.Valid(b.bb)
  }

  /** `get`. */
  function Get(b: Board, row: int, col: int): Piece
    requires OnBoard(row, col)
  {
    match b
    case Bits(bb) => BG.Get(bb, row, col)
    case Dense(d) => DB.Get(d, row, col)
  }

  /** `set`. */
  function Set(b: Board, row: int, col: int, value: Piece): Board
    requires OnBoard(row, col)
  {
    match b
    case Bits(bb) => Bits(BG.Set(bb, row, col, value))
    case Dense(d) => Dense(DB.Set(d, row, col, value))
  }

  /** After `set` the square holds the value, every other square is as it
      was, and the board keeps its kind and stays valid. */
  lemma SetGet(b: Board, row: int, col: int, value: Piece)
    requires OnBoard(row, col)
    ensures KindOf(Set(b, row, col, value)) == KindOf(b)
    ensures Get(Set(b, row, col, value), row, col) == value
    ensures forall r, c :: OnBoard(r, c) && (r, c) != (row, col) ==> Get(Set(b, row, col, value), r, c) == Get(b, r, c)
    ensures Valid(b) ==> Valid(Set(b, row, col, value))
  {
    match b
    case Bits(bb) => BG.SetGet(bb, row, col, value);
    case Dense(d) => DB.SetGet(d, row, col, value);
  }

  /** `Default::default()`: the empty board of each kind. */
  function Empty(kind: Kind): Board
  {
    match kind
    case BitBoardKind => Bits(BG.EMPTY_BOARD)
    case DefaultKind => Dense(DB.EMPTY)
  }

  /** The empty board has the requested kind, is valid, and holds no disc. */
  lemma EmptyCells(kind: Kind)
    ensures KindOf(Empty(kind)) == kind && Valid(Empty(kind))
    ensures forall r, c :: OnBoard(r, c) ==> Get(Empty(kind), r, c) == None
  {
    DB.EmptyCells();
    forall r, c | OnBoard(r, c)
      ensures !Bit(EMPTY, r, c)
    {
      EmptyCell(r, c);
    }
  }

  /** The disc on a square of the starting position. */
  function StartPiece(r: int, c: int): Piece
  {
    if (r, c) == (3, 3) || (r, c) == (4, 4) then Some(Black)
    else if (r, c) == (3, 4) || (r, c) == (4, 3) then Some(White)
    else None
  }

  /** `Board::new`: the four centre discs set on the empty board. */
  function New(kind: Kind): Board
  {
    Set(Set(Set(Set(Empty(kind), 3, 3, Some(Black)), 3, 4, Some(White)), 4, 3, Some(White)), 4, 4, Some(Black))
  }

  /** The starting position of either kind: Black on (3,3) and (4,4), White
      on (3,4) and (4,3), every other square empty. */
  lemma NewCells(kind: Kind)
    ensures KindOf(New(kind)) == kind && Valid(New(kind))
    ensures forall r, c :: OnBoard(r, c) ==> Get(New(kind), r, c) == StartPiece(r, c)
  {
    var b0 := Empty(kind);
    var b1 := Set(b0, 3, 3, Some(Black));
    var b2 := Set(b1, 3, 4, Some(White));
    var b3 := Set(b2, 4, 3, Some(White));
    EmptyCells(kind);
    SetGet(b0, 3, 3, Some(Black));
    SetGet(b1, 3, 4, Some(White));
    SetGet(b2, 4, 3, Some(White));
    SetGet(b3, 4, 4, Some(Black));
    forall r, c | OnBoard(r, c)
      ensures Get(New(kind), r, c) == StartPiece(r, c)
    {
      if (r, c) != (4, 4) && (r, c) != (4, 3) && (r, c) != (3, 4) && (r, c) != (3, 3) {
        assert Get(b3, r, c) == Get(b0, r, c);
      }
    }
  }

  // ---------------------------------------------------------------------
  // The reference board.

  /** The default board holding the same discs. */
  ghost function DenseOf(b: Board): (d: DB.DefaultBoard)
    ensures forall r, c :: OnBoard(r, c) ==> DB.Get(d, r, c) == Get(b, r, c)
  {
    match b
    case Dense(d) => d
    case Bits(bb) =>
      var rows := seq(8, r requires 0 <= r < 8 => seq(8, c requires 0 <= c < 8 => BG.Get(bb, r, c)));
      DB.DefaultBoard(rows)
  }

  /** A default board is its own reference board. */
  lemma DenseOfDense(b: Board)
    requires b.Dense?
    ensures DenseOf(b) == b.d
  {
  }

  /** A valid bit board agrees with its reference board. */
  lemma BitsAgree(b: Board)
    requires b.Bits? && Valid(b)
    ensures Agree(b.bb, DenseOf(b))
  {
  }

  /** A legal move, as the default board decides it: the square is empty and
      some ray from it flanks opponent discs.  Whose turn it is plays no part. */
  ghost predicate Legal(b: Board, mov: Move)
    requires OnBoard(mov.row, mov.col)
  {
    DB.IsValidMove(DenseOf(b), mov)
  }

  /** `is_valid_move`.  The bit board's version is `todo!()` and panics, so
      only a default board may be asked. */
  function IsValidMove(b: Board, mov: Move): (valid: bool)
    requires b.Dense? && OnBoard(mov.row, mov.col)
    ensures valid == Legal(b, mov)
  {
    DB.IsValidMove(b.d, mov)
  }

  // ---------------------------------------------------------------------
  // Moves.

  /** `moves`: the bit board's iterator over its move mask, or the default
      board's list. */
  function Moves(b: Board, player: Colour): seq<Move>
  {
    match b
    case Bits(bb) => MaskMoves(bb, player)
    case Dense(d) => DB.Moves(d, player)
  }

  /** Both kinds list the reference board's moves. */
  lemma MovesReference(b: Board, player: Colour)
    requires Valid(b)
    ensures Moves(b, player) == DB.Moves(DenseOf(b), player)
  {
    if b.Bits? {
      MovesAgree(b.bb, DenseOf(b), player);
    }
  }

  /** `moves(p)` lists exactly p's legal moves, each once, in row-major order. */
  lemma MovesLegal(b: Board, player: Colour)
    requires Valid(b)
    ensures forall m :: m in Moves(b, player) <==> m.player == player && OnBoard(m.row, m.col) && Legal(b, m)
    ensures AscendingMoves(Moves(b, player))
  {
    MovesReference(b, player);
    DB.MovesExact(DenseOf(b), player);
  }

  // ---------------------------------------------------------------------
  // Applying a move.

  /** What `apply` demands: the bit board needs a square `From<(i8, i8)>`
      accepts; the default board indexes its array and asserts the move
      is legal. */
  predicate CanApply(b: Board, mov: Move)
  {
    match b
    case Bits(_) => BG.Placeable(mov.row, mov.col)
    case Dense(d) => OnBoard(mov.row, mov.col) && DB.IsValidMove(d, mov)
  }

  /** `apply`. */
  function Apply(b: Board, mov: Move): Board
    requires CanApply(b, mov)
  {
    match b
    case Bits(bb) => Bits(BG.Applied(bb, mov))
    case Dense(d) => Dense(DB.Applied(d, mov))
  }

  /** A legal move can be applied to either kind, and both make the
      reference board's move: the kind is kept, the board stays valid, and
      every square ends as the default board's `apply` leaves it. */
  lemma ApplyReference(b: Board, mov: Move)
    requires Valid(b) && OnBoard(mov.row, mov.col) && Legal(b, mov)
    ensures CanApply(b, mov)
    ensures KindOf(Apply(b, mov)) == KindOf(b) && Valid(Apply(b, mov))
    ensures forall r, c :: OnBoard(r, c) ==> Get(Apply(b, mov), r, c) == DB.Get(DB.Applied(DenseOf(b), mov), r, c)
  {
    if b.Bits? {
      OnBoardPlaceable(mov.row, mov.col);
      BitsAgree(b);
      BitsApply(b.bb, DenseOf(b), mov);
    }
  }

  /** Every on-board square is one the bit board can place. */
  lemma OnBoardPlaceable(row: int, col: int)
    requires OnBoard(row, col)
    ensures BG.Placeable(row, col)
  {
  }

  /** Agreeing boards make the same legal move. */
  lemma BitsApply(bb: BG.BitBoardBoard, d: DB.DefaultBoard, mov: Move)
    requires Agree(bb, d) && OnBoard(mov.row, mov.col) && DB.IsValidMove(d, mov)
    ensures Agree(BG.Applied(bb, mov), DB.Applied(d, mov))
  {
    ApplyValidAgree(bb, d, mov);
  }

  /** Every listed move can be applied. */
  lemma ListedCanApply(b: Board, player: Colour, mov: Move)
    requires Valid(b) && mov in Moves(b, player)
    ensures OnBoard(mov.row, mov.col) && Legal(b, mov) && CanApply(b, mov)
    ensures Valid(Apply(b, mov)) && KindOf(Apply(b, mov)) == KindOf(b)
  {
    MovesLegal(b, player);
    ApplyReference(b, mov);
  }

  // ---------------------------------------------------------------------
  // Scores.

  /** `scores`: the Black and the White discs. */
  function Scores(b: Board): (int, int)
  {
    match b
    case Bits(bb) => BG.Scores(bb)
    case Dense(d) => (DB.Tally(d, Some(Black)), DB.Tally(d, Some(White)))
  }

  /** Both kinds count the reference board's discs, and the two counts add
      up to at most the 64 squares. */
  lemma ScoresReference(b: Board)
    requires Valid(b)
    ensures Scores(b) == (DB.Tally(DenseOf(b), Some(Black)), DB.Tally(DenseOf(b), Some(White)))
    ensures 0 <= Scores(b).0 && 0 <= Scores(b).1 && Scores(b).0 + Scores(b).1 <= 64
  {
    if b.Bits? {
      ScoresAgree(b.bb, DenseOf(b));
    }
    DB.ScoresOccupied(DenseOf(b));
  }

  // ---------------------------------------------------------------------
  // The two kinds are interchangeable.

  /** Two boards hold the same disc on every square. */
  ghost predicate SameCells(a: Board, b: Board)
  {
    forall r, c :: OnBoard(r, c) ==> Get(a, r, c) == Get(b, r, c)
  }

  /** Boards with the same discs have the same reference board. */
  lemma SameReference(a: Board, b: Board)
    requires SameCells(a, b)
    ensures DenseOf(a) == DenseOf(b)
  {
    DB.Extensionality(DenseOf(a), DenseOf(b));
  }

  /** Whatever their kinds, valid boards with the same discs list the same
      moves in the same order and report the same scores. */
  lemma Interchangeable(a: Board, b: Board, player: Colour)
    requires Valid(a) && Valid(b) && SameCells(a, b)
    ensures Moves(a, player) == Moves(b, player)
    ensures Scores(a) == Scores(b)
  {
    SameReference(a, b);
    MovesReference(a, player);
    MovesReference(b, player);
    ScoresReference(a);
    ScoresReference(b);
  }

  /** A move legal on one of two boards with the same discs is legal on the
      other, and applying it leaves them with the same discs again. */
  lemma ApplyInterchangeable(a: Board, b: Board, mov: Move)
    requires Valid(a) && Valid(b) && SameCells(a, b)
    requires OnBoard(mov.row, mov.col) && Legal(a, mov)
    ensures Legal(b, mov)
    ensures SameCells(Apply(a, mov), Apply(b, mov))
  {
    SameReference(a, b);
    ApplyReference(a, mov);
    ApplyReference(b, mov);
  }

  // ---------------------------------------------------------------------
  // `convert_board`.

  /** `convert_board`: copies every square, in row-major order, into an
      empty board of the requested kind. */
  method ConvertBoard(src: Board, kind: Kind) returns (dst: Board)
    ensures KindOf(dst) == kind && Valid(dst) && SameCells(dst, src)
  {
    dst := Empty(kind);
    EmptyCells(kind);
    for i := 0 to 8
      invariant KindOf(dst) == kind && Valid(dst)
      invariant forall r, c :: OnBoard(r, c) ==> Get(dst, r, c) == if r < i then Get(src, r, c) else None
    {
      for j := 0 to 8
        invariant KindOf(dst) == kind && Valid(dst)
        invariant forall r, c :: OnBoard(r, c) ==>
          Get(dst, r, c) == if r < i || (r == i && c < j) then Get(src, r, c) else None
      {
        var piece := Get(src, i, j);
        SetGet(dst, i, j, piece);
        dst := Set(dst, i, j, piece);
      }
    }
  }
}
