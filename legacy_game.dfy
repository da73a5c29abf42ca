/** The older dense game of src/game.rs: the 8×8 array of squares together
    with the player to move.  Its `count` and `flip` are the same walks as
    the default board's `count_in_dir` and `flip`, and are modelled by
    them; what it adds is the turn check in `is_valid_move` and the
    stateful `ValidMoveIterator`, which scans the squares in row-major
    order through two fields. */
module Legacy {
  import opened Core
  import opened Direction
  import DB = DefaultBoard

  /** `Game`: the player to move and the board. */
  datatype Game = Game(nextTurn: Colour, board: DB.DefaultBoard)

  /** `Game::new`: the four centre discs, Black to move. */
  function New(): Game
  {
    Game(Black, DB.New())
  }

  /** The starting game: Black to move, Black on (3,3) and (4,4), White on
      (3,4) and (4,3), every other square empty. */
  lemma NewStart(r: int, c: int)
    requires OnBoard(r, c)
    ensures New().nextTurn == Black
    ensures GetPiece(New(), r, c) ==
      if (r, c) == (3, 3) || (r, c) == (4, 4) then Some(Black)
      else if (r, c) == (3, 4) || (r, c) == (4, 3) then Some(White)
      else None
  {
    DB.NewCells(r, c);
  }

  /** `get_piece`. */
  function GetPiece(g: Game, row: int, col: int): Piece
    requires OnBoard(row, col)
  {
    DB.Get(g.board, row, col)
  }

  /** `is_valid_move`: the move must be the player to move's, its square
      empty, and some entry of DIRECTIONS must have a positive `count`. */
  function IsValidMove(g: Game, mov: Move): bool
    requires OnBoard(mov.row, mov.col)
  {
    mov.player == g.nextTurn && DB.IsValidMove(g.board, mov)
  }

  /** A legal move is one of the player to move's, on an empty square, from
      which some ray flanks opponent discs; a move out of turn never is. */
  lemma IsValidMoveIff(g: Game, mov: Move)
    requires OnBoard(mov.row, mov.col)
    ensures IsValidMove(g, mov) <==>
      mov.player == g.nextTurn && GetPiece(g, mov.row, mov.col) == None &&
      exists dy, dx :: DB.Flanks(g.board, mov.player, mov.row, mov.col, dy, dx)
  {
    DB.ValidMoveIff(g.board, mov);
  }

  /** No entry of DIRECTIONS before the k-th has a positive `count`. */
  ghost predicate NoCountBefore(b: DB.DefaultBoard, mov: Move, k: nat)
    requires k <= |DIRECTIONS|
  {
    forall i :: 0 <= i < k ==>
      IsUnit(DIRECTIONS[i].0, DIRECTIONS[i].1) &&
      DB.CountAlong(b, mov.player, mov.row, mov.col, DIRECTIONS[i].0, DIRECTIONS[i].1) == 0
  }

  lemma NoCountStep(b: DB.DefaultBoard, mov: Move, k: nat)
    requires k < |DIRECTIONS| && NoCountBefore(b, mov, k)
    requires IsUnit(DIRECTIONS[k].0, DIRECTIONS[k].1)
    requires DB.CountAlong(b, mov.player, mov.row, mov.col, DIRECTIONS[k].0, DIRECTIONS[k].1) == 0
    ensures NoCountBefore(b, mov, k + 1)
  {
  }

  /** A positive `count` in some entry of DIRECTIONS makes an in-turn move
      to an empty square legal; none anywhere makes it illegal. */
  lemma CountDecides(g: Game, mov: Move, k: nat)
    requires OnBoard(mov.row, mov.col) && mov.player == g.nextTurn && GetPiece(g, mov.row, mov.col).None?
    requires k <= |DIRECTIONS|
    requires k < |DIRECTIONS| ==> (IsUnit(DIRECTIONS[k].0, DIRECTIONS[k].1) &&
      DB.CountAlong(g.board, mov.player, mov.row, mov.col, DIRECTIONS[k].0, DIRECTIONS[k].1) > 0)
    requires k == |DIRECTIONS| ==> NoCountBefore(g.board, mov, k)
    ensures IsValidMove(g, mov) == (k < |DIRECTIONS|)
  {
  }

  /** `is_valid_move` as the source runs it: the turn check, the occupied
      check, then the loop over DIRECTIONS returning as soon as one `count`
      is positive. */
  method CheckMove(g: Game, mov: Move) returns (valid: bool)
    requires OnBoard(mov.row, mov.col)
    ensures valid == IsValidMove(g, mov)
  {
    if mov.player != g.nextTurn {
      return false;
    }
    if DB.Get(g.board, mov.row, mov.col).Some? {
      return false;
    }
    DirectionsAreTheUnitOffsets();
    for k := 0 to |DIRECTIONS|
      invariant NoCountBefore(g.board, mov, k)
    {
      var (dy, dx) := DIRECTIONS[k];
      var count := DB.CountInDir(g.board, mov.player, mov.row, mov.col, dy, dx);
      if count > 0 {
        CountDecides(g, mov, k);
        return true;
      }
      NoCountStep(g.board, mov, k);
    }
    CountDecides(g, mov, |DIRECTIONS|);
    return false;
  }

  /** `apply`: panics unless the move is legal for the player to move;
      otherwise the turn passes and the board is the default board's
      `apply` (the same flips in the same order, then the disc). */
  method Apply(g: Game, mov: Move) returns (ng: Game)
    requires OnBoard(mov.row, mov.col) && IsValidMove(g, mov)
    ensures ng == Game(g.nextTurn.Opponent(), DB.Applied(g.board, mov))
  {
    var board := DB.Apply(g.board, mov);
    ng := Game(g.nextTurn.Opponent(), board);
  }

  /** The game after a legal move: the other player is to move, the move's
      square and exactly the captured squares hold the mover's disc, the
      captured ones having held the opponent's, and every other square is
      unchanged. */
  lemma AppliedCell(g: Game, mov: Move, r: int, c: int)
    requires OnBoard(mov.row, mov.col) && IsValidMove(g, mov) && OnBoard(r, c)
    ensures DB.Get(DB.Applied(g.board, mov), r, c) ==
      if (r, c) == (mov.row, mov.col) || DB.Captures(g.board, g.nextTurn, mov.row, mov.col, r, c) then Some(g.nextTurn)
      else GetPiece(g, r, c)
    ensures DB.Captures(g.board, g.nextTurn, mov.row, mov.col, r, c) ==> GetPiece(g, r, c) == Some(g.nextTurn.Opponent())
  {
    DB.ApplyCell(g.board, mov, r, c);
  }

  // ---------------------------------------------------------------------
  // The iterator over the legal moves.

  /** The moves after square (r, c) are those from (r, c) on, less the
      first when square (r, c) holds a legal move. */
  lemma MovesFromStep(b: DB.DefaultBoard, player: Colour, r: int, c: int, valid: bool)
    requires OnBoard(r, c) && valid == DB.IsValidMove(b, Move(player, r, c))
    ensures var from := DB.MovesFrom(b, player, r * 8 + c);
      if valid then from != [] && from[0] == Move(player, r, c) && DB.MovesFrom(b, player, r * 8 + c + 1) == from[1..]
      else DB.MovesFrom(b, player, r * 8 + c + 1) == from
  {
    var k := r * 8 + c;
    assert k / 8 == r && k % 8 == c;
  }

  /** `ValidMoveIterator`: the game and the square last looked at. */
  class ValidMoveIterator {
    const game: Game
    var row: int
    var col: int

    /** The row stays on the board; the column is -1 before the first
        square. */
    ghost predicate Valid()
      reads this
    {
      0 <= row < 8 && -1 <= col < 8
    }

    /** The moves still to come: the legal moves of the player to move on the
        squares after (row, col), in row-major order. */
    ghost function Pending(): seq<Move>
      reads this
      requires Valid()
    {
      DB.MovesFrom(game.board, game.nextTurn, row * 8 + col + 1)
    }

    /** `ValidMoveIterator::new`: before square (0, 0), so every legal move
        of the player to move is still to come. */
    constructor (game: Game)
      ensures this.game == game && row == 0 && col == -1
      ensures Valid() && Pending() == DB.Moves(game.board, game.nextTurn)
    {
      this.game := game;
      row, col := 0, -1;
    }

    /** `next`: steps through the squares until one holds a legal move of
        the player to move and yields it.  Past the last square it resets
        the row to 0 and yields None, leaving the column at 0, so that a
        further call starts again at square (0, 1). */
    method Next() returns (item: Option<Move>)
      requires Valid()
      modifies this
      ensures Valid()
      ensures old(Pending()) == [] ==> item == None && row == 0 && col == 0
      ensures old(Pending()) != [] ==> item == Some(old(Pending())[0]) && Pending() == old(Pending())[1..]
    {
      ghost var pending := Pending();
      while true
        invariant Valid() && Pending() == pending
        decreases 63 - (row * 8 + col)
      {
        col := col + 1;
        if col >= 8 {
          col := 0;
          row := row + 1;
        }
        if row >= 8 {
          row := 0;
          return None;
        }
        var mov := Move(game.nextTurn, row, col);
        var valid := CheckMove(game, mov);
        MovesFromStep(game.board, game.nextTurn, row, col, valid);
        if valid {
          return Some(mov);
        }
      }
    }
  }

  /** What the iterator yields, in order: exactly the legal moves of the
      player to move, each once, in ascending row-major order. */
  lemma IteratorYields(g: Game)
    ensures forall mov :: mov in DB.Moves(g.board, g.nextTurn) <==> OnBoard(mov.row, mov.col) && IsValidMove(g, mov)
    ensures forall i, j :: 0 <= i < j < |DB.Moves(g.board, g.nextTurn)| ==>
      DB.Index(DB.Moves(g.board, g.nextTurn)[i]) < DB.Index(DB.Moves(g.board, g.nextTurn)[j])
  {
    DB.MovesExact(g.board, g.nextTurn);
  }
}
