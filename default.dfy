/** The dense reference board of crates/othello_game/src/default.rs: an 8×8
    array of squares, where moves are found and discs flipped by walking the
    board one square at a time in each of the eight directions.  The board is
    a `Clone` value; the methods that mutate it in the source rebind a board
    value here. */
module DefaultBoard {
  import opened Core
  import opened Direction

  /** A row of default squares. */
  const EMPTY_ROW: seq<Piece> := [None, None, None, None, None, None, None, None]

  /** `[[Square; 8]; 8]`, row by row; a square holds its piece. */
  type Squares = g: seq<seq<Piece>> | |g| == 8 && forall r :: 0 <= r < 8 ==> |g[r]| == 8
    witness [EMPTY_ROW, EMPTY_ROW, EMPTY_ROW, EMPTY_ROW, EMPTY_ROW, EMPTY_ROW, EMPTY_ROW, EMPTY_ROW]

  /** `DefaultBoard`. */
  datatype DefaultBoard = DefaultBoard(squares: Squares)

  /** `Default`: every square empty. */
  const EMPTY: DefaultBoard :=
    DefaultBoard([EMPTY_ROW, EMPTY_ROW, EMPTY_ROW, EMPTY_ROW, EMPTY_ROW, EMPTY_ROW, EMPTY_ROW, EMPTY_ROW])

  /** `get`. */
  function Get(b: DefaultBoard, row: int, col: int): Piece
    requires OnBoard(row, col)
  {
    b.squares[row][col]
  }

  /** `set`: overwrites one square. */
  function Set(b: DefaultBoard, row: int, col: int, value: Piece): DefaultBoard
    requires OnBoard(row, col)
  {
    DefaultBoard(b.squares[row := b.squares[row][col := value]])
  }

  /** `get` after `set` returns the value set; every other square reads as before. */
  lemma SetGet(b: DefaultBoard, row: int, col: int, value: Piece)
    requires OnBoard(row, col)
    ensures Get(Set(b, row, col, value), row, col) == value
    ensures forall r, c :: OnBoard(r, c) && (r, c) != (row, col) ==> Get(Set(b, row, col, value), r, c) == Get(b, r, c)
  {
  }

  /** Every square of the default board is empty. */
  lemma EmptyCells()
    ensures forall r, c :: OnBoard(r, c) ==> Get(EMPTY, r, c) == None
  {
  }

  /** Two boards that agree on every square are the same board. */
  lemma Extensionality(a: DefaultBoard, b: DefaultBoard)
    requires forall r, c :: OnBoard(r, c) ==> Get(a, r, c) == Get(b, r, c)
    ensures a == b
  {
    forall r | 0 <= r < 8
      ensures a.squares[r] == b.squares[r]
    {
      assert forall c :: 0 <= c < 8 ==> a.squares[r][c] == Get(a, r, c) == Get(b, r, c);
    }
    assert a.squares == b.squares;
  }

  /** `Board::new` (crates/othello_game/src/lib.rs): the four centre discs
      set on the default board. */
  function New(): DefaultBoard
  {
    Set(Set(Set(Set(EMPTY, 3, 3, Some(Black)), 3, 4, Some(White)), 4, 3, Some(White)), 4, 4, Some(Black))
  }

  /** The starting position: Black on (3,3) and (4,4), White on (3,4) and
      (4,3), every other square empty. */
  lemma NewCells(r: int, c: int)
    requires OnBoard(r, c)
    ensures Get(New(), r, c) ==
      if (r, c) == (3, 3) || (r, c) == (4, 4) then Some(Black)
      else if (r, c) == (3, 4) || (r, c) == (4, 3) then Some(White)
      else None
  {
  }

  // ---------------------------------------------------------------------
  // Walking a ray.

  /** Every square of a walk is on the board. */
  ghost predicate OnBoardAll(w: seq<(int, int)>)
  {
    forall k :: 0 <= k < |w| ==> OnBoard(w[k].0, w[k].1)
  }

  /** The loop of `count_in_dir` as a function of the squares it visits:
      None when it meets an empty square or runs off the board before a disc
      of the player, otherwise the number of opponent discs passed first. */
  function RunLength(b: DefaultBoard, player: Colour, w: seq<(int, int)>): Option<nat>
    requires OnBoardAll(w)
  {
    if w == [] then None
    else
      match Get(b, w[0].0, w[0].1)
      case None => None
      case Some(colour) =>
        if colour == player then Some(0)
        else
          match RunLength(b, player, w[1..])
          case None => None
          case Some(n) => Some(n + 1)
  }

  /** A run of length n: n opponent discs, then one of the player's. */
  lemma {:induction false} RunLengthIff(b: DefaultBoard, player: Colour, w: seq<(int, int)>, n: nat)
    requires OnBoardAll(w)
    ensures RunLength(b, player, w) == Some(n) <==>
      n < |w| &&
      (forall i :: 0 <= i < n ==> Get(b, w[i].0, w[i].1) == Some(player.Opponent())) &&
      Get(b, w[n].0, w[n].1) == Some(player)
    decreases n
  {
    if w != [] && n > 0 {
      RunLengthIff(b, player, w[1..], n - 1);
      if n < |w| {
        assert forall i :: 1 <= i <= n ==> w[1..][i - 1] == w[i];
      }
    }
  }

  /** A run exists exactly when some square holds the player's disc after
      nothing but opponent discs. */
  lemma RunLengthNone(b: DefaultBoard, player: Colour, w: seq<(int, int)>)
    requires OnBoardAll(w)
    ensures RunLength(b, player, w) == None <==>
      forall n :: 0 <= n < |w| && Get(b, w[n].0, w[n].1) == Some(player) ==>
        exists i :: 0 <= i < n && Get(b, w[i].0, w[i].1) != Some(player.Opponent())
  {
    if RunLength(b, player, w).Some? {
      RunLengthIff(b, player, w, RunLength(b, player, w).value);
    } else {
      forall n | 0 <= n < |w| && Get(b, w[n].0, w[n].1) == Some(player)
        ensures exists i :: 0 <= i < n && Get(b, w[i].0, w[i].1) != Some(player.Opponent())
      {
        RunLengthIff(b, player, w, n);
      }
    }
  }

  /** The run only looks at the squares of the walk. */
  lemma {:induction false} RunLengthLocal(a: DefaultBoard, b: DefaultBoard, player: Colour, w: seq<(int, int)>)
    requires OnBoardAll(w)
    requires forall k :: 0 <= k < |w| ==> Get(a, w[k].0, w[k].1) == Get(b, w[k].0, w[k].1)
    ensures RunLength(a, player, w) == RunLength(b, player, w)
    decreases |w|
  {
    if w != [] {
      RunLengthLocal(a, b, player, w[1..]);
    }
  }

  /** The squares `count_in_dir` and `flip` visit when called with (dy, dx):
      the iterator is built from the pair (dy, dx), whose first component
      becomes its column step, so the walk steps dx rows and dy columns. */
  function Ray(row: int, col: int, dy: int, dx: int): (w: seq<(int, int)>)
    requires IsUnit(dy, dx)
    ensures OnBoardAll(w)
  {
    Walk(row, col, dx, dy)
  }

  /** `count_in_dir` as a function. */
  function CountAlong(b: DefaultBoard, player: Colour, row: int, col: int, dy: int, dx: int): nat
    requires IsUnit(dy, dx)
  {
    match RunLength(b, player, Ray(row, col, dy, dx))
    case None => 0
    case Some(n) => n
  }

  /** `count_in_dir`: walks with the direction iterator until it meets an
      empty square or the edge (0) or a disc of the player (the count of
      opponent discs passed). */
  method CountInDir(b: DefaultBoard, player: Colour, row: int, col: int, dy: int, dx: int) returns (count: nat)
    requires OnBoard(row, col) && IsUnit(dy, dx)
    ensures count == CountAlong(b, player, row, col, dy, dx)
  {
    ghost var w := Ray(row, col, dy, dx);
    count := 0;
    var iter := new DirectionIterator.IterateFrom((dy, dx), row, col);
    while true
      invariant iter.dx == dy && iter.dy == dx && OnBoard(iter.row, iter.col)
      invariant count <= |w| && iter.Remaining() == w[count..]
      invariant forall i :: 0 <= i < count ==> Get(b, w[i].0, w[i].1) == Some(player.Opponent())
      decreases |iter.Remaining()|
    {
      var item := iter.Next();
      if item.None? {
        RunLengthNone(b, player, w);
        return 0;
      }
      var (r, c) := item.value;
      var piece := Get(b, r, c);
      if piece.None? {
        RunLengthNone(b, player, w);
        return 0;
      }
      if piece.value == player {
        RunLengthIff(b, player, w, count);
        break;
      }
      count := count + 1;
    }
  }

  /** What `count_in_dir` reports: a positive count n exactly when the n
      squares after the start hold opponent discs and the next one a disc of
      the player; 0 otherwise, where no disc of the player closes the run or
      it closes at once. */
  lemma CountAlongMeaning(b: DefaultBoard, player: Colour, row: int, col: int, dy: int, dx: int, n: nat)
    requires IsUnit(dy, dx) && n > 0
    ensures CountAlong(b, player, row, col, dy, dx) == n <==>
      var w := Walk(row, col, dx, dy);
      n < |w| &&
      (forall i :: 0 <= i < n ==> Get(b, w[i].0, w[i].1) == Some(player.Opponent())) &&
      Get(b, w[n].0, w[n].1) == Some(player)
  {
    RunLengthIff(b, player, Ray(row, col, dy, dx), n);
  }

  // ---------------------------------------------------------------------
  // Legal moves.

  /** A ray from (row, col), stepping dy rows and dx columns, holding one or
      more opponent discs closed by a disc of the player. */
  predicate Flanks(b: DefaultBoard, player: Colour, row: int, col: int, dy: int, dx: int)
  {
    IsUnit(dy, dx) &&
    match RunLength(b, player, Walk(row, col, dy, dx))
    case None => false
    case Some(n) => n > 0
  }

  /** `is_valid_move`: the target is empty and some entry of DIRECTIONS has
      a positive `count_in_dir`.  Whose turn it is is not checked. */
  function IsValidMove(b: DefaultBoard, mov: Move): bool
    requires OnBoard(mov.row, mov.col)
  {
    DirectionsAreTheUnitOffsets();
    Get(b, mov.row, mov.col).None? &&
    exists i | 0 <= i < |DIRECTIONS| :: CountAlong(b, mov.player, mov.row, mov.col, DIRECTIONS[i].0, DIRECTIONS[i].1) > 0
  }

  /** Up to the transposed walks, a move is legal exactly when its square is
      empty and some ray from it flanks opponent discs: the eight entries of
      DIRECTIONS, transposed, are still the eight directions. */
  lemma ValidMoveIff(b: DefaultBoard, mov: Move)
    requires OnBoard(mov.row, mov.col)
    ensures IsValidMove(b, mov) <==>
      Get(b, mov.row, mov.col) == None && exists dy, dx :: Flanks(b, mov.player, mov.row, mov.col, dy, dx)
  {
    if IsValidMove(b, mov) {
      ValidMoveFlanks(b, mov);
    }
    if Get(b, mov.row, mov.col) == None && exists dy, dx :: Flanks(b, mov.player, mov.row, mov.col, dy, dx) {
      var dy, dx :| Flanks(b, mov.player, mov.row, mov.col, dy, dx);
      FlanksValid(b, mov, dy, dx);
    }
  }

  lemma ValidMoveFlanks(b: DefaultBoard, mov: Move)
    requires OnBoard(mov.row, mov.col) && IsValidMove(b, mov)
    ensures exists dy, dx :: Flanks(b, mov.player, mov.row, mov.col, dy, dx)
  {
    DirectionsAreTheUnitOffsets();
    var i :| 0 <= i < |DIRECTIONS| && CountAlong(b, mov.player, mov.row, mov.col, DIRECTIONS[i].0, DIRECTIONS[i].1) > 0;
    assert Flanks(b, mov.player, mov.row, mov.col, DIRECTIONS[i].1, DIRECTIONS[i].0);
  }

  lemma FlanksValid(b: DefaultBoard, mov: Move, dy: int, dx: int)
    requires OnBoard(mov.row, mov.col) && Get(b, mov.row, mov.col) == None
    requires Flanks(b, mov.player, mov.row, mov.col, dy, dx)
    ensures IsValidMove(b, mov)
  {
    DirectionsAreTheUnitOffsets();
    assert (dx, dy) in DIRECTIONS;
    var i :| 0 <= i < |DIRECTIONS| && DIRECTIONS[i] == (dx, dy);
    assert CountAlong(b, mov.player, mov.row, mov.col, DIRECTIONS[i].0, DIRECTIONS[i].1) > 0;
  }

  /** An occupied square is never a legal move. */
  lemma OccupiedInvalid(b: DefaultBoard, mov: Move)
    requires OnBoard(mov.row, mov.col) && Get(b, mov.row, mov.col).Some?
    ensures !IsValidMove(b, mov)
  {
  }

  /** The moves of `moves` from square index k on, in row-major order. */
  function MovesFrom(b: DefaultBoard, player: Colour, k: nat): seq<Move>
    requires k <= 64
    decreases 64 - k, b
  {
    if k == 64 then []
    else
      var mov := Move(player, k / 8, k % 8);
      (if IsValidMove(b, mov) then [mov] else []) + MovesFrom(b, player, k + 1)
  }

  /** `moves`: every square in row-major order, kept when the move is legal. */
  function Moves(b: DefaultBoard, player: Colour): seq<Move>
  {
    MovesFrom(b, player, 0)
  }

  /** The row-major index of a move's square. */
  function Index(mov: Move): int
  {
    mov.row * 8 + mov.col
  }

  /** The square with row-major index k. */
  lemma IndexSquare(mov: Move, k: int)
    requires OnBoard(mov.row, mov.col) && 0 <= k
    ensures Index(mov) == k <==> mov.row == k / 8 && mov.col == k % 8
  {
  }

  lemma {:induction false} MovesFromMembers(b: DefaultBoard, player: Colour, k: nat)
    requires k <= 64
    ensures forall mov :: mov in MovesFrom(b, player, k) <==>
      mov.player == player && OnBoard(mov.row, mov.col) && k <= Index(mov) && IsValidMove(b, mov)
    decreases 64 - k
  {
    if k < 64 {
      MovesFromMembers(b, player, k + 1);
      forall m: Move | m.player == player && OnBoard(m.row, m.col) && k <= Index(m)
        ensures Index(m) == k <==> m == Move(player, k / 8, k % 8)
      {
        IndexSquare(m, k);
      }
    }
  }

  lemma {:induction false} MovesFromAscending(b: DefaultBoard, player: Colour, k: nat)
    requires k <= 64
    ensures forall i, j :: 0 <= i < j < |MovesFrom(b, player, k)| ==>
      Index(MovesFrom(b, player, k)[i]) < Index(MovesFrom(b, player, k)[j])
    decreases 64 - k
  {
    if k < 64 {
      MovesFromAscending(b, player, k + 1);
      MovesFromMembers(b, player, k + 1);
      var mov := Move(player, k / 8, k % 8);
      assert Index(mov) == k;
    }
  }

  /** `moves` lists exactly the legal moves of the player, each once, in
      ascending row-major order. */
  lemma MovesExact(b: DefaultBoard, player: Colour)
    ensures forall mov :: mov in Moves(b, player) <==>
      mov.player == player && OnBoard(mov.row, mov.col) && IsValidMove(b, mov)
    ensures forall i, j :: 0 <= i < j < |Moves(b, player)| ==> Index(Moves(b, player)[i]) < Index(Moves(b, player)[j])
  {
    MovesFromMembers(b, player, 0);
    MovesFromAscending(b, player, 0);
  }

  // ---------------------------------------------------------------------
  // Flipping and applying.

  /** The board with the first k squares of a walk set to the player, in order. */
  function PaintRay(b: DefaultBoard, player: Colour, w: seq<(int, int)>, k: nat): DefaultBoard
    requires OnBoardAll(w) && k <= |w|
  {
    if k == 0 then b else Set(PaintRay(b, player, w, k - 1), w[k - 1].0, w[k - 1].1, Some(player))
  }

  lemma {:induction false} PaintRayCell(b: DefaultBoard, player: Colour, w: seq<(int, int)>, k: nat, r: int, c: int)
    requires OnBoardAll(w) && k <= |w| && OnBoard(r, c)
    ensures Get(PaintRay(b, player, w, k), r, c) == if (r, c) in w[..k] then Some(player) else Get(b, r, c)
    decreases k
  {
    if k > 0 {
      PaintRayCell(b, player, w, k - 1, r, c);
      assert w[..k] == w[..k - 1] + [w[k - 1]];
    }
  }

  /** The painted part of a walk does not reach its next square. */
  lemma PaintRayAhead(b: DefaultBoard, player: Colour, row: int, col: int, dy: int, dx: int, k: nat)
    requires IsUnit(dy, dx) && k < |Walk(row, col, dy, dx)|
    ensures Get(PaintRay(b, player, Walk(row, col, dy, dx), k), Walk(row, col, dy, dx)[k].0, Walk(row, col, dy, dx)[k].1) ==
      Get(b, Walk(row, col, dy, dx)[k].0, Walk(row, col, dy, dx)[k].1)
  {
    var w := Walk(row, col, dy, dx);
    forall i | 0 <= i < k
      ensures w[..k][i] != w[k]
    {
      WalkDistinct(row, col, dy, dx, i, k);
    }
    PaintRayCell(b, player, w, k, w[k].0, w[k].1);
  }

  /** What `flip` does to one walk: nothing unless the run is closed, and
      otherwise the opponent discs before the closing disc become the player's. */
  function FlipRay(b: DefaultBoard, player: Colour, w: seq<(int, int)>): DefaultBoard
    requires OnBoardAll(w)
  {
    match RunLength(b, player, w)
    case None => b
    case Some(n) =>
      RunLengthIff(b, player, w, n);
      PaintRay(b, player, w, n)
  }

  /** Inside a run of length n, square k holds an opponent disc before n and
      the player's disc at n. */
  lemma RunSquare(b: DefaultBoard, player: Colour, w: seq<(int, int)>, n: nat, k: nat)
    requires OnBoardAll(w) && RunLength(b, player, w) == Some(n) && k <= n
    ensures n < |w|
    ensures Get(b, w[k].0, w[k].1) == if k < n then Some(player.Opponent()) else Some(player)
  {
    RunLengthIff(b, player, w, n);
  }

  lemma FlipRaySome(b: DefaultBoard, player: Colour, w: seq<(int, int)>, n: nat)
    requires OnBoardAll(w) && RunLength(b, player, w) == Some(n)
    ensures n < |w|
    ensures FlipRay(b, player, w) == PaintRay(b, player, w, n)
  {
    RunLengthIff(b, player, w, n);
  }

  /** The squares `flip` turns over on a walk. */
  ghost predicate InRun(b: DefaultBoard, player: Colour, w: seq<(int, int)>, r: int, c: int)
    requires OnBoardAll(w)
  {
    match RunLength(b, player, w)
    case None => false
    case Some(n) => n <= |w| && (r, c) in w[..n]
  }

  /** After `flip` on a walk the squares of its closed run hold the player's
      discs and had the opponent's before; every other square is unchanged. */
  lemma FlipRayCell(b: DefaultBoard, player: Colour, w: seq<(int, int)>, r: int, c: int)
    requires OnBoardAll(w) && OnBoard(r, c)
    ensures Get(FlipRay(b, player, w), r, c) == if InRun(b, player, w, r, c) then Some(player) else Get(b, r, c)
    ensures InRun(b, player, w, r, c) ==> Get(b, r, c) == Some(player.Opponent())
  {
    match RunLength(b, player, w)
    case None =>
    case Some(n) =>
      RunLengthIff(b, player, w, n);
      PaintRayCell(b, player, w, n, r, c);
  }

  /** `flip` with (dy, dx) as a function: FlipRay on the walk it takes. */
  function FlipAlong(b: DefaultBoard, player: Colour, row: int, col: int, dy: int, dx: int): DefaultBoard
    requires IsUnit(dy, dx)
  {
    FlipRay(b, player, Ray(row, col, dy, dx))
  }

  /** The first walk of `flip`: it stops at an empty square or the edge
      (no closing disc) or at a disc of the player (the run closes). */
  method Closes(b: DefaultBoard, player: Colour, row: int, col: int, dy: int, dx: int) returns (closes: bool)
    requires OnBoard(row, col) && IsUnit(dy, dx)
    ensures closes <==> RunLength(b, player, Ray(row, col, dy, dx)).Some?
  {
    ghost var w := Ray(row, col, dy, dx);
    var iter := new DirectionIterator.IterateFrom((dy, dx), row, col);
    ghost var n := 0;
    while true
      invariant iter.dx == dy && iter.dy == dx && OnBoard(iter.row, iter.col)
      invariant n <= |w| && iter.Remaining() == w[n..]
      invariant forall i :: 0 <= i < n ==> Get(b, w[i].0, w[i].1) == Some(player.Opponent())
      decreases |iter.Remaining()|
    {
      var item := iter.Next();
      if item.None? {
        RunLengthNone(b, player, w);
        return false;
      }
      var (r, c) := item.value;
      var piece := Get(b, r, c);
      if piece.None? {
        RunLengthNone(b, player, w);
        return false;
      }
      if piece.value == player {
        RunLengthIff(b, player, w, n);
        return true;
      }
      n := n + 1;
    }
  }

  /** The next square of the second walk of `flip`: before the closing
      disc it still holds an opponent disc, and at it the player's disc. */
  lemma PaintedNext(b: DefaultBoard, player: Colour, row: int, col: int, dy: int, dx: int, n: nat, k: nat)
    requires IsUnit(dy, dx) && RunLength(b, player, Ray(row, col, dy, dx)) == Some(n) && k <= n
    ensures n < |Ray(row, col, dy, dx)|
    ensures Get(PaintRay(b, player, Ray(row, col, dy, dx), k), Ray(row, col, dy, dx)[k].0, Ray(row, col, dy, dx)[k].1) ==
      if k < n then Some(player.Opponent()) else Some(player)
  {
    RunSquare(b, player, Ray(row, col, dy, dx), n, k);
    PaintRayAhead(b, player, row, col, dx, dy, k);
  }

  /** The second walk of `flip`, once the first has found the closing disc
      after n opponent discs: those n squares become the player's. */
  method Recolour(b: DefaultBoard, player: Colour, row: int, col: int, dy: int, dx: int, ghost n: nat) returns (nb: DefaultBoard)
    requires OnBoard(row, col) && IsUnit(dy, dx) && RunLength(b, player, Ray(row, col, dy, dx)) == Some(n)
    ensures n < |Ray(row, col, dy, dx)| && nb == PaintRay(b, player, Ray(row, col, dy, dx), n)
  {
    ghost var w := Ray(row, col, dy, dx);
    RunSquare(b, player, w, n, n);
    nb := b;
    var iter := new DirectionIterator.IterateFrom((dy, dx), row, col);
    ghost var k := 0;
    while true
      invariant iter.dx == dy && iter.dy == dx && OnBoard(iter.row, iter.col)
      invariant k <= n < |w| && iter.Remaining() == w[k..]
      invariant nb == PaintRay(b, player, w, k)
      decreases |iter.Remaining()|
    {
      var item := iter.Next();
      if item.None? {
        assert false;
        return;
      }
      var (r, c) := item.value;
      PaintedNext(b, player, row, col, dy, dx, n, k);
      var piece := Get(nb, r, c);
      if piece.None? {
        assert false;
        return;
      }
      if piece.value == player {
        return;
      }
      nb := Set(nb, r, c, Some(player));
      k := k + 1;
    }
  }

  /** `flip`: the first walk looks for the player's disc closing the run and
      returns at an empty square or the edge; a second walk recolours the
      opponent discs up to that disc. */
  method Flip(b: DefaultBoard, player: Colour, row: int, col: int, dy: int, dx: int) returns (nb: DefaultBoard)
    requires OnBoard(row, col) && IsUnit(dy, dx)
    ensures nb == FlipAlong(b, player, row, col, dy, dx)
  {
    var closes := Closes(b, player, row, col, dy, dx);
    if !closes {
      return b;
    }
    ghost var n := RunLength(b, player, Ray(row, col, dy, dx)).value;
    nb := Recolour(b, player, row, col, dy, dx, n);
    FlipRaySome(b, player, Ray(row, col, dy, dx), n);
  }

  /** The board after `flip` in the first k entries of DIRECTIONS, in order. */
  function FlipDirs(b: DefaultBoard, player: Colour, row: int, col: int, k: nat): DefaultBoard
    requires k <= |DIRECTIONS|
    decreases k, b
  {
    DirectionsAreTheUnitOffsets();
    if k == 0 then b
    else FlipAlong(FlipDirs(b, player, row, col, k - 1), player, row, col, DIRECTIONS[k - 1].0, DIRECTIONS[k - 1].1)
  }

  /** The board `apply` returns: the flips in every direction, then the disc
      on the target square. */
  function Applied(b: DefaultBoard, mov: Move): DefaultBoard
    requires OnBoard(mov.row, mov.col)
  {
    Set(FlipDirs(b, mov.player, mov.row, mov.col, |DIRECTIONS|), mov.row, mov.col, Some(mov.player))
  }

  /** `apply`: panics unless the move is legal, then flips a copy of the
      board in every direction and places the disc. */
  method Apply(b: DefaultBoard, mov: Move) returns (nb: DefaultBoard)
    requires OnBoard(mov.row, mov.col) && IsValidMove(b, mov)
    ensures nb == Applied(b, mov)
  {
    DirectionsAreTheUnitOffsets();
    nb := b;
    for k := 0 to |DIRECTIONS|
      invariant nb == FlipDirs(b, mov.player, mov.row, mov.col, k)
    {
      nb := Flip(nb, mov.player, mov.row, mov.col, DIRECTIONS[k].0, DIRECTIONS[k].1);
    }
    nb := Set(nb, mov.row, mov.col, Some(mov.player));
  }

  // ---------------------------------------------------------------------
  // What `apply` changes, square by square.

  /** The walk `flip` takes for entry i of DIRECTIONS. */
  function DirRay(row: int, col: int, i: nat): (w: seq<(int, int)>)
    requires i < |DIRECTIONS|
    ensures OnBoardAll(w)
  {
    DirectionsAreTheUnitOffsets();
    Ray(row, col, DIRECTIONS[i].0, DIRECTIONS[i].1)
  }

  /** Square (r, c) lies in the closed run of one of the first k walks. */
  ghost predicate CapturedBefore(b: DefaultBoard, player: Colour, row: int, col: int, k: nat, r: int, c: int)
    requires k <= |DIRECTIONS|
  {
    exists i :: 0 <= i < k && InRun(b, player, DirRay(row, col, i), r, c)
  }

  /** A captured square lies on the walk. */
  lemma InRunOnWalk(b: DefaultBoard, player: Colour, w: seq<(int, int)>, r: int, c: int)
    requires OnBoardAll(w) && InRun(b, player, w, r, c)
    ensures exists m :: 0 <= m < |w| && w[m] == (r, c)
  {
    var n := RunLength(b, player, w).value;
    var m :| 0 <= m < n && w[..n][m] == (r, c);
    assert w[m] == (r, c);
  }

  /** A square on walk i is in no closed run of an earlier walk. */
  lemma CapturedElsewhere(b: DefaultBoard, player: Colour, row: int, col: int, k: nat, i: nat, j: nat)
    requires k <= i < |DIRECTIONS| && j < |DirRay(row, col, i)|
    ensures !CapturedBefore(b, player, row, col, k, DirRay(row, col, i)[j].0, DirRay(row, col, i)[j].1)
  {
    var s := DirRay(row, col, i)[j];
    if CapturedBefore(b, player, row, col, k, s.0, s.1) {
      var i' :| 0 <= i' < k && InRun(b, player, DirRay(row, col, i'), s.0, s.1);
      var w' := DirRay(row, col, i');
      InRunOnWalk(b, player, w', s.0, s.1);
      var m :| 0 <= m < |w'| && w'[m] == s;
      DirectionsAreTheUnitOffsets();
      var d, d' := DIRECTIONS[i], DIRECTIONS[i'];
      assert d != d';
      WalksDisjoint(row, col, d'.1, d'.0, d.1, d.0, m, j);
      assert false;
    }
  }

  /** One more direction, one square: when the walk of direction k - 1 sees
      the same run as on the original board, its flip adds its closed run to
      the captured squares. */
  lemma FlipDirsStep(b: DefaultBoard, player: Colour, row: int, col: int, k: nat, r: int, c: int)
    requires 0 < k <= |DIRECTIONS| && OnBoard(r, c)
    requires RunLength(FlipDirs(b, player, row, col, k - 1), player, DirRay(row, col, k - 1)) ==
      RunLength(b, player, DirRay(row, col, k - 1))
    requires Get(FlipDirs(b, player, row, col, k - 1), r, c) ==
      if CapturedBefore(b, player, row, col, k - 1, r, c) then Some(player) else Get(b, r, c)
    ensures Get(FlipDirs(b, player, row, col, k), r, c) ==
      if CapturedBefore(b, player, row, col, k, r, c) then Some(player) else Get(b, r, c)
  {
    var prev := FlipDirs(b, player, row, col, k - 1);
    var w := DirRay(row, col, k - 1);
    FlipRayCell(prev, player, w, r, c);
    assert InRun(prev, player, w, r, c) == InRun(b, player, w, r, c);
    if InRun(b, player, w, r, c) {
      assert CapturedBefore(b, player, row, col, k, r, c);
    } else if CapturedBefore(b, player, row, col, k, r, c) {
      var i :| 0 <= i < k && InRun(b, player, DirRay(row, col, i), r, c);
      assert i < k - 1;
    }
  }

  /** After the flips of the first k directions every square captured by
      one of them holds the player's disc and every other square is as it
      was. */
  lemma {:induction false} FlipDirsCell(b: DefaultBoard, player: Colour, row: int, col: int, k: nat)
    requires k <= |DIRECTIONS|
    ensures forall r, c :: OnBoard(r, c) ==>
      Get(FlipDirs(b, player, row, col, k), r, c) ==
        if CapturedBefore(b, player, row, col, k, r, c) then Some(player) else Get(b, r, c)
    decreases k
  {
    if k > 0 {
      FlipDirsCell(b, player, row, col, k - 1);
      var prev := FlipDirs(b, player, row, col, k - 1);
      var w := DirRay(row, col, k - 1);
      forall j | 0 <= j < |w|
        ensures Get(prev, w[j].0, w[j].1) == Get(b, w[j].0, w[j].1)
      {
        CapturedElsewhere(b, player, row, col, k - 1, k - 1, j);
      }
      RunLengthLocal(prev, b, player, w);
      forall r, c | OnBoard(r, c)
        ensures Get(FlipDirs(b, player, row, col, k), r, c) ==
          if CapturedBefore(b, player, row, col, k, r, c) then Some(player) else Get(b, r, c)
      {
        FlipDirsStep(b, player, row, col, k, r, c);
      }
    }
  }

  /** Square (r, c) lies in the closed run of some unit direction from
      (row, col): the discs a move there turns over. */
  ghost predicate Captures(b: DefaultBoard, player: Colour, row: int, col: int, r: int, c: int)
  {
    exists dy, dx :: IsUnit(dy, dx) && InRun(b, player, Walk(row, col, dy, dx), r, c)
  }

  lemma CapturedBeforeAll(b: DefaultBoard, player: Colour, row: int, col: int, r: int, c: int)
    requires CapturedBefore(b, player, row, col, |DIRECTIONS|, r, c)
    ensures Captures(b, player, row, col, r, c)
  {
    var i :| 0 <= i < |DIRECTIONS| && InRun(b, player, DirRay(row, col, i), r, c);
    DirectionsAreTheUnitOffsets();
    var d := DIRECTIONS[i];
    assert IsUnit(d.1, d.0) && InRun(b, player, Walk(row, col, d.1, d.0), r, c);
  }

  lemma CapturesBefore(b: DefaultBoard, player: Colour, row: int, col: int, r: int, c: int)
    requires Captures(b, player, row, col, r, c)
    ensures CapturedBefore(b, player, row, col, |DIRECTIONS|, r, c)
  {
    var dy, dx :| IsUnit(dy, dx) && InRun(b, player, Walk(row, col, dy, dx), r, c);
    DirectionsAreTheUnitOffsets();
    assert (dx, dy) in DIRECTIONS;
    var i :| 0 <= i < |DIRECTIONS| && DIRECTIONS[i] == (dx, dy);
    assert DirRay(row, col, i) == Walk(row, col, dy, dx);
  }

  /** A captured square held an opponent disc and is not the move square. */
  lemma CapturesTheirs(b: DefaultBoard, player: Colour, row: int, col: int, r: int, c: int)
    requires OnBoard(r, c) && Captures(b, player, row, col, r, c)
    ensures Get(b, r, c) == Some(player.Opponent())
    ensures (r, c) != (row, col)
  {
    var dy, dx :| IsUnit(dy, dx) && InRun(b, player, Walk(row, col, dy, dx), r, c);
    var w := Walk(row, col, dy, dx);
    FlipRayCell(b, player, w, r, c);
    InRunOnWalk(b, player, w, r, c);
    var m :| 0 <= m < |w| && w[m] == (r, c);
    WalkRoom(row, col, dy, dx, m);
  }

  /** The flips of all eight directions together: exactly the captured
      squares change, to the player's colour. */
  lemma FlipDirsAll(b: DefaultBoard, player: Colour, row: int, col: int, r: int, c: int)
    requires OnBoard(r, c)
    ensures Get(FlipDirs(b, player, row, col, |DIRECTIONS|), r, c) ==
      if Captures(b, player, row, col, r, c) then Some(player) else Get(b, r, c)
  {
    FlipDirsCell(b, player, row, col, |DIRECTIONS|);
    if CapturedBefore(b, player, row, col, |DIRECTIONS|, r, c) {
      CapturedBeforeAll(b, player, row, col, r, c);
    }
    if Captures(b, player, row, col, r, c) {
      CapturesBefore(b, player, row, col, r, c);
    }
  }

  /** `apply` in one step: the move square and exactly the captured squares
      end with the mover's disc, the captured ones having held the
      opponent's; every other square is unchanged. */
  lemma ApplyCell(b: DefaultBoard, mov: Move, r: int, c: int)
    requires OnBoard(mov.row, mov.col) && OnBoard(r, c)
    ensures Get(Applied(b, mov), r, c) ==
      if (r, c) == (mov.row, mov.col) || Captures(b, mov.player, mov.row, mov.col, r, c) then Some(mov.player)
      else Get(b, r, c)
    ensures Captures(b, mov.player, mov.row, mov.col, r, c) ==> Get(b, r, c) == Some(mov.player.Opponent())
  {
    var flipped := FlipDirs(b, mov.player, mov.row, mov.col, |DIRECTIONS|);
    FlipDirsAll(b, mov.player, mov.row, mov.col, r, c);
    SetGet(flipped, mov.row, mov.col, Some(mov.player));
    if Captures(b, mov.player, mov.row, mov.col, r, c) {
      CapturesTheirs(b, mov.player, mov.row, mov.col, r, c);
    }
  }

  /** A legal move turns over at least one disc: the first square of a
      flanking run. */
  lemma ValidMoveCaptures(b: DefaultBoard, mov: Move)
    requires OnBoard(mov.row, mov.col) && IsValidMove(b, mov)
    ensures exists r, c :: OnBoard(r, c) && Captures(b, mov.player, mov.row, mov.col, r, c)
  {
    ValidMoveFlanks(b, mov);
    var dy, dx :| Flanks(b, mov.player, mov.row, mov.col, dy, dx);
    var w := Walk(mov.row, mov.col, dy, dx);
    var n := RunLength(b, mov.player, w).value;
    RunLengthIff(b, mov.player, w, n);
    assert w[..n][0] == w[0];
    assert InRun(b, mov.player, w, w[0].0, w[0].1);
  }

  // ---------------------------------------------------------------------
  // Scores.

  /** The number of squares holding `piece` from row-major index k on. */
  function TallyFrom(b: DefaultBoard, piece: Piece, k: nat): nat
    requires k <= 64
    decreases 64 - k, b
  {
    if k == 64 then 0
    else (if Get(b, k / 8, k % 8) == piece then 1 else 0) + TallyFrom(b, piece, k + 1)
  }

  /** The number of squares holding `piece`. */
  function Tally(b: DefaultBoard, piece: Piece): nat
  {
    TallyFrom(b, piece, 0)
  }

  /** One square of the tally: square k is at row k / 8, column k % 8. */
  lemma TallyStep(b: DefaultBoard, r: int, c: int, k: nat)
    requires OnBoard(r, c) && k == r * 8 + c
    ensures TallyFrom(b, Some(Black), k) == (if Get(b, r, c) == Some(Black) then 1 else 0) + TallyFrom(b, Some(Black), k + 1)
    ensures TallyFrom(b, Some(White), k) == (if Get(b, r, c) == Some(White) then 1 else 0) + TallyFrom(b, Some(White), k + 1)
  {
    assert k / 8 == r && k % 8 == c;
  }

  /** `scores`: counts the Black and the White discs over the squares in
      row-major order, skipping the empty ones. */
  method Scores(b: DefaultBoard) returns (black: int, white: int)
    ensures black == Tally(b, Some(Black)) && white == Tally(b, Some(White))
  {
    black, white := 0, 0;
    ghost var k := 0;
    for r := 0 to 8
      invariant k == r * 8
      invariant black + TallyFrom(b, Some(Black), k) == Tally(b, Some(Black))
      invariant white + TallyFrom(b, Some(White), k) == Tally(b, Some(White))
    {
      for c := 0 to 8
        invariant k == r * 8 + c
        invariant black + TallyFrom(b, Some(Black), k) == Tally(b, Some(Black))
        invariant white + TallyFrom(b, Some(White), k) == Tally(b, Some(White))
      {
        TallyStep(b, r, c, k);
        var piece := Get(b, r, c);
        if piece.Some? {
          if piece.value == Black {
            black := black + 1;
          } else {
            white := white + 1;
          }
        }
        k := k + 1;
      }
    }
  }

  /** Black, White and empty squares together are all 64 - k squares from k on. */
  lemma {:induction false} TallyFromTotal(b: DefaultBoard, k: nat)
    requires k <= 64
    ensures TallyFrom(b, Some(Black), k) + TallyFrom(b, Some(White), k) + TallyFrom(b, None, k) == 64 - k
    decreases 64 - k
  {
    if k < 64 {
      TallyFromTotal(b, k + 1);
      match Get(b, k / 8, k % 8)
      case None =>
      case Some(colour) =>
        match colour
        case Black =>
        case White =>
    }
  }

  /** The two scores add up to the number of occupied squares, at most 64. */
  lemma ScoresOccupied(b: DefaultBoard)
    ensures Tally(b, Some(Black)) + Tally(b, Some(White)) == 64 - Tally(b, None)
    ensures Tally(b, Some(Black)) + Tally(b, Some(White)) <= 64
  {
    TallyFromTotal(b, 0);
  }
}
