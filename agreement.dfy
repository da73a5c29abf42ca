/** The bit board and the default board as whole games: agreeing boards
    report the same scores and the same moves in the same order, start
    agreeing, and keep agreeing through every valid move. */
module Agreement {
  import opened Core
  import opened Bitboard
  import opened Refinement
  import opened ApplyRefinement
  import BG = BitboardGame
  import DB = DefaultBoard

  // ---------------------------------------------------------------------
  // Squares listed in row-major order.

  /** Squares in strictly ascending row-major index. */
  ghost predicate Ascending(squares: seq<(int, int)>)
  {
    forall i, j :: 0 <= i < j < |squares| ==> squares[i].0 * 8 + squares[i].1 < squares[j].0 * 8 + squares[j].1
  }

  /** An on-board square is determined by its row-major index. */
  lemma SquareAt(r: int, c: int, k: int)
    requires OnBoard(r, c) && k == r * 8 + c
    ensures r == k / 8 && c == k % 8
  {
  }

  /** Dropping the first square of an ascending list drops exactly that square. */
  lemma TailMembers(squares: seq<(int, int)>)
    requires Ascending(squares) && |squares| > 0
    ensures Ascending(squares[1..])
    ensures forall s :: s in squares[1..] <==> s in squares && s != squares[0]
  {
    forall s
      ensures s in squares[1..] <==> s in squares && s != squares[0]
    {
      if s in squares[1..] {
        var i :| 0 <= i < |squares[1..]| && squares[1..][i] == s;
        assert squares[i + 1] == s;
      }
      if s in squares && s != squares[0] {
        var i :| 0 <= i < |squares| && squares[i] == s;
        assert squares[1..][i - 1] == s;
      }
    }
  }

  /** The squares, in ascending order, are exactly the on-board squares from
      index k on that hold `piece`. */
  ghost predicate ListsFrom(squares: seq<(int, int)>, d: DB.DefaultBoard, piece: Piece, k: int)
  {
    && Ascending(squares)
    && (forall t :: 0 <= t < |squares| ==>
         OnBoard(squares[t].0, squares[t].1) && k <= squares[t].0 * 8 + squares[t].1 && DB.Get(d, squares[t].0, squares[t].1) == piece)
    && (forall r, c :: OnBoard(r, c) && k <= r * 8 + c && DB.Get(d, r, c) == piece ==> (r, c) in squares)
  }

  /** Square k holds `piece`: it heads the list, and the rest lists from k + 1. */
  lemma ListsHit(squares: seq<(int, int)>, d: DB.DefaultBoard, piece: Piece, k: int)
    requires 0 <= k < 64 && ListsFrom(squares, d, piece, k) && DB.Get(d, k / 8, k % 8) == piece
    ensures |squares| > 0 && ListsFrom(squares[1..], d, piece, k + 1)
  {
    var s := (k / 8, k % 8);
    SquareAt(s.0, s.1, k);
    assert s in squares;
    var t :| 0 <= t < |squares| && squares[t] == s;
    SquareAt(squares[0].0, squares[0].1, squares[0].0 * 8 + squares[0].1);
    assert squares[0] == s;
    TailMembers(squares);
    var rest := squares[1..];
    assert forall u :: 0 <= u < |rest| ==> rest[u] == squares[u + 1];
    forall r, c | OnBoard(r, c) && k + 1 <= r * 8 + c && DB.Get(d, r, c) == piece
      ensures (r, c) in rest
    {
      assert (r, c) != s;
    }
  }

  /** Square k does not hold `piece`: the same list lists from k + 1. */
  lemma ListsMiss(squares: seq<(int, int)>, d: DB.DefaultBoard, piece: Piece, k: int)
    requires 0 <= k < 64 && ListsFrom(squares, d, piece, k) && DB.Get(d, k / 8, k % 8) != piece
    ensures ListsFrom(squares, d, piece, k + 1)
  {
    forall t | 0 <= t < |squares|
      ensures k + 1 <= squares[t].0 * 8 + squares[t].1
    {
      SquareAt(squares[t].0, squares[t].1, squares[t].0 * 8 + squares[t].1);
    }
    forall r, c | OnBoard(r, c) && k + 1 <= r * 8 + c && DB.Get(d, r, c) == piece
      ensures (r, c) in squares
    {
    }
  }

  /** No on-board square has an index of 64 or more. */
  lemma NoneFromEnd(squares: seq<(int, int)>)
    ensures (forall t :: 0 <= t < |squares| ==>
      OnBoard(squares[t].0, squares[t].1) && 64 <= squares[t].0 * 8 + squares[t].1) ==> squares == []
  {
    if |squares| > 0 {
      assert OnBoard(squares[0].0, squares[0].1) ==> squares[0].0 * 8 + squares[0].1 < 64;
    }
  }

  /** A list of exactly the squares from index k on that hold `piece` is as
      long as the default board's tally from k. */
  lemma {:induction false} ListTally(squares: seq<(int, int)>, d: DB.DefaultBoard, piece: Piece, k: nat)
    requires k <= 64 && ListsFrom(squares, d, piece, k)
    ensures |squares| == DB.TallyFrom(d, piece, k)
    decreases 64 - k
  {
    if k < 64 {
      if DB.Get(d, k / 8, k % 8) == piece {
        ListsHit(squares, d, piece, k);
        ListTally(squares[1..], d, piece, k + 1);
      } else {
        ListsMiss(squares, d, piece, k);
        ListTally(squares, d, piece, k + 1);
      }
    } else {
      NoneFromEnd(squares);
    }
  }

  /** A mask whose squares are exactly those holding `piece` counts the
      default board's tally of `piece`. */
  lemma CountTally(m: BitBoard, d: DB.DefaultBoard, piece: Piece)
    requires forall r, c :: OnBoard(r, c) ==> (Bit(m, r, c) <==> DB.Get(d, r, c) == piece)
    ensures Count(m) == DB.Tally(d, piece)
  {
    BG.SquareListLength(m);
    BG.SquareListCells(m);
    BG.SquareListAscending(m);
    ListTally(BG.SquareList(m), d, piece, 0);
  }

  /** `scores` agrees: both boards count the same Black and White discs. */
  lemma ScoresAgree(bb: BG.BitBoardBoard, d: DB.DefaultBoard)
    requires Agree(bb, d)
    ensures BG.Scores(bb) == (DB.Tally(d, Some(Black)), DB.Tally(d, Some(White)))
  {
    forall r, c | OnBoard(r, c)
      ensures Bit(bb.blacks, r, c) <==> DB.Get(d, r, c) == Some(Black)
      ensures Bit(bb.whites, r, c) <==> DB.Get(d, r, c) == Some(White)
    {
      assert BG.Get(bb, r, c) == DB.Get(d, r, c);
      assert !(Bit(bb.blacks, r, c) && Bit(bb.whites, r, c));
    }
    CountTally(bb.blacks, d, Some(Black));
    CountTally(bb.whites, d, Some(White));
  }

  // ---------------------------------------------------------------------
  // Move lists.

  /** Moves in strictly ascending row-major index. */
  ghost predicate AscendingMoves(moves: seq<Move>)
  {
    forall i, j :: 0 <= i < j < |moves| ==> DB.Index(moves[i]) < DB.Index(moves[j])
  }

  /** Dropping the first move of an ascending list drops exactly that move. */
  lemma MoveTail(moves: seq<Move>)
    requires AscendingMoves(moves) && |moves| > 0
    ensures AscendingMoves(moves[1..])
    ensures forall m :: m in moves[1..] <==> m in moves && m != moves[0]
  {
    forall m
      ensures m in moves[1..] <==> m in moves && m != moves[0]
    {
      if m in moves[1..] {
        var i :| 0 <= i < |moves[1..]| && moves[1..][i] == m;
        assert moves[i + 1] == m;
      }
      if m in moves && m != moves[0] {
        var i :| 0 <= i < |moves| && moves[i] == m;
        assert moves[1..][i - 1] == m;
      }
    }
  }

  /** A list without members is empty. */
  lemma NoMembers(moves: seq<Move>)
    ensures (forall m :: m !in moves) ==> moves == []
  {
    if |moves| > 0 {
      assert moves[0] in moves;
    }
  }

  /** Two ascending move lists with the same members are the same list. */
  lemma {:induction false} AscendingUnique(a: seq<Move>, b: seq<Move>)
    requires AscendingMoves(a) && AscendingMoves(b)
    requires forall m :: m in a <==> m in b
    ensures a == b
    decreases |a|
  {
    if |a| == 0 {
      NoMembers(b);
    } else {
      assert a[0] in b;
      assert b[0] in a;
      var k :| 0 <= k < |b| && b[k] == a[0];
      var l :| 0 <= l < |a| && a[l] == b[0];
      assert a[0] == b[0];
      MoveTail(a);
      MoveTail(b);
      AscendingUnique(a[1..], b[1..]);
    }
  }

  /** The moves the bit board's iterator yields for the player's move mask. */
  function MaskMoves(bb: BG.BitBoardBoard, player: Colour): seq<Move>
  {
    BG.AsMoves(player, BG.SquareList(BG.MoveMask(bb, player)))
  }

  /** An ascending list of squares, made into moves, is the ascending move
      list with the same squares. */
  lemma ListedMoves(squares: seq<(int, int)>, player: Colour, target: seq<Move>)
    requires Ascending(squares) && AscendingMoves(target)
    requires forall m :: m in target <==> m.player == player && (m.row, m.col) in squares
    ensures BG.AsMoves(player, squares) == target
  {
    var moves := BG.AsMoves(player, squares);
    forall m
      ensures m in moves <==> m in target
    {
      if m in moves {
        var k :| 0 <= k < |moves| && moves[k] == m;
        assert squares[k] == (m.row, m.col);
      }
      if m in target {
        var k :| 0 <= k < |squares| && squares[k] == (m.row, m.col);
        assert moves[k] == m;
      }
    }
    AscendingUnique(moves, target);
  }

  /** A mask holding exactly the player's valid squares lists the default
      board's moves, in order. */
  lemma MaskListsMoves(mask: BitBoard, d: DB.DefaultBoard, player: Colour)
    requires forall r, c :: OnBoard(r, c) ==> (Bit(mask, r, c) <==> DB.IsValidMove(d, Move(player, r, c)))
    ensures BG.AsMoves(player, BG.SquareList(mask)) == DB.Moves(d, player)
  {
    var squares := BG.SquareList(mask);
    BG.SquareListCells(mask);
    BG.SquareListAscending(mask);
    DB.MovesExact(d, player);
    forall m
      ensures m in DB.Moves(d, player) <==> m.player == player && (m.row, m.col) in squares
    {
      if (m.row, m.col) in squares {
        var k :| 0 <= k < |squares| && squares[k] == (m.row, m.col);
      }
    }
    ListedMoves(squares, player, DB.Moves(d, player));
  }

  /** `moves` agrees: on agreeing boards the bit board's iterator yields the
      default board's list of valid moves, in the same row-major order. */
  lemma MovesAgree(bb: BG.BitBoardBoard, d: DB.DefaultBoard, player: Colour)
    requires Agree(bb, d)
    ensures MaskMoves(bb, player) == DB.Moves(d, player)
  {
    var mask := BG.MoveMask(bb, player);
    forall r, c | OnBoard(r, c)
      ensures Bit(mask, r, c) <==> DB.IsValidMove(d, Move(player, r, c))
    {
      MoveMaskCell(bb, d, player, r, c);
    }
    MaskListsMoves(mask, d, player);
  }

  // ---------------------------------------------------------------------
  // Whole games.

  /** `Board::new` agrees: both boards start with the same four discs. */
  lemma NewAgree()
    ensures Agree(BG.New(), DB.New())
  {
    var b0 := BG.EMPTY_BOARD;
    var b1 := BG.Set(b0, 3, 3, Some(Black));
    var b2 := BG.Set(b1, 3, 4, Some(White));
    var b3 := BG.Set(b2, 4, 3, Some(White));
    BG.SetGet(b0, 3, 3, Some(Black));
    BG.SetGet(b1, 3, 4, Some(White));
    BG.SetGet(b2, 4, 3, Some(White));
    BG.SetGet(b3, 4, 4, Some(Black));
    forall r, c | OnBoard(r, c)
      ensures BG.Get(BG.New(), r, c) == DB.Get(DB.New(), r, c)
    {
      EmptyCell(r, c);
      DB.NewCells(r, c);
    }
  }
}
