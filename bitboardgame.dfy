/** The bit-parallel board of crates/othello_game/src/bitboardgame.rs: two
    masks, move generation by occluded fills, capture by pairs of fills, and
    the iterator over a move mask. */
module BitboardGame {
  import opened Core
  import Bits
  import opened Bitboard

  /** `BitBoardBoard`: the squares of each colour. */
  datatype BitBoardBoard = BitBoardBoard(blacks: BitBoard, whites: BitBoard)

  /** `Default`: no discs. */
  const EMPTY_BOARD: BitBoardBoard := BitBoardBoard(EMPTY, EMPTY)

  /** No square holds both colours; every operation keeps this. */
  ghost predicate Valid(b: BitBoardBoard)
  {
    Disjoint(b.blacks, b.whites)
  }

  /** The mover's mask and the other player's. */
  function Sides(b: BitBoardBoard, player: Colour): (BitBoard, BitBoard)
  {
    match player
    case Black => (b.blacks, b.whites)
    case White => (b.whites, b.blacks)
  }

  /** The board with the mover's and the other player's masks replaced. */
  function WithSides(player: Colour, mine: BitBoard, theirs: BitBoard): BitBoardBoard
  {
    if player == Black then BitBoardBoard(mine, theirs) else BitBoardBoard(theirs, mine)
  }

  // ---------------------------------------------------------------------
  // Squares.

  /** `get`: Black is reported first, so a square in both masks reads Black. */
  function Get(b: BitBoardBoard, row: int, col: int): Piece
    requires OnBoard(row, col)
  {
    if Bit(b.blacks, row, col) then Some(Black)
    else if Bit(b.whites, row, col) then Some(White)
    else None
  }

  /** The mask a piece goes into when it is set. */
  function PlaceIn(mask: BitBoard, bit: BitBoard, value: Piece, colour: Colour): BitBoard
  {
    if value == Some(colour) then Or(mask, bit) else mask
  }

  /** `set`: clears the square in both masks, then sets it in the colour's one. */
  function Set(b: BitBoardBoard, row: int, col: int, value: Piece): BitBoardBoard
    requires OnBoard(row, col)
  {
    var bit := FromSquare(row, col);
    var blacks := And(b.blacks, Not(bit));
    var whites := And(b.whites, Not(bit));
    BitBoardBoard(PlaceIn(blacks, bit, value, Black), PlaceIn(whites, bit, value, White))
  }

  /** After `set` the square is in the value's mask only, and in each mask
      every other square is as it was. */
  lemma SetCell(b: BitBoardBoard, row: int, col: int, value: Piece, r: int, c: int)
    requires OnBoard(row, col) && OnBoard(r, c)
    ensures (r, c) == (row, col) ==> Bit(Set(b, row, col, value).blacks, r, c) == (value == Some(Black))
    ensures (r, c) == (row, col) ==> Bit(Set(b, row, col, value).whites, r, c) == (value == Some(White))
    ensures (r, c) != (row, col) ==> Bit(Set(b, row, col, value).blacks, r, c) == Bit(b.blacks, r, c)
    ensures (r, c) != (row, col) ==> Bit(Set(b, row, col, value).whites, r, c) == Bit(b.whites, r, c)
  {
    var bit := FromSquare(row, col);
    var blacks := And(b.blacks, Not(bit));
    var whites := And(b.whites, Not(bit));
    FromSquareCell(row, col, r, c);
    NotCell(bit, r, c);
    AndCell(b.blacks, Not(bit), r, c);
    AndCell(b.whites, Not(bit), r, c);
    OrCell(blacks, bit, r, c);
    OrCell(whites, bit, r, c);
  }

  /** `get` after `set` returns the value set, every other square reads as
      before, and a valid board stays valid. */
  lemma SetGet(b: BitBoardBoard, row: int, col: int, value: Piece)
    requires OnBoard(row, col)
    ensures Get(Set(b, row, col, value), row, col) == value
    ensures forall r, c :: OnBoard(r, c) && (r, c) != (row, col) ==>
      Get(Set(b, row, col, value), r, c) == Get(b, r, c)
    ensures Valid(b) ==> Valid(Set(b, row, col, value))
  {
    SetCell(b, row, col, value, row, col);
    assert Get(Set(b, row, col, value), row, col) == value by {
      match value
      case None =>
      case Some(Black) =>
      case Some(White) =>
    }
    forall r, c | OnBoard(r, c)
      ensures (r, c) != (row, col) ==> Get(Set(b, row, col, value), r, c) == Get(b, r, c)
      ensures Valid(b) ==> !(Bit(Set(b, row, col, value).blacks, r, c) && Bit(Set(b, row, col, value).whites, r, c))
    {
      SetCell(b, row, col, value, r, c);
    }
  }

  /** `scores`: the number of Black squares and of White squares. */
  function Scores(b: BitBoardBoard): (int, int)
  {
    (Count(b.blacks), Count(b.whites))
  }

  /** On a valid board the two scores add up to the occupied squares. */
  lemma ScoresOccupied(b: BitBoardBoard)
    requires Valid(b)
    ensures Scores(b).0 + Scores(b).1 == Count(Or(b.blacks, b.whites))
  {
    CountOr(b.blacks, b.whites);
  }

  /** `Board::new` (crates/othello_game/src/lib.rs): the four centre discs
      set on the empty board. */
  function New(): BitBoardBoard
  {
    Set(Set(Set(Set(EMPTY_BOARD, 3, 3, Some(Black)), 3, 4, Some(White)), 4, 3, Some(White)), 4, 4, Some(Black))
  }

  /** The starting masks: Black on (3,3) and (4,4), White on (3,4) and (4,3). */
  lemma NewMasks()
    ensures New() == BitBoardBoard(BitBoard(0x0000_0010_0800_0000), BitBoard(0x0000_0008_1000_0000))
  {
  }

  // ---------------------------------------------------------------------
  // Move generation.

  /** What `moves_in_dir` returns: the squares one step beyond the occluded
      fill from the mover's discs over the opponent's. */
  function DirMoves(mine: BitBoard, theirs: BitBoard, d: Bits.ShiftDir): BitBoard
  {
    Shift(FillOccluded(mine, theirs, d.Shift()), d.Shift())
  }

  /** `moves_in_dir`. */
  method MovesInDir(mine: BitBoard, theirs: BitBoard, d: Bits.ShiftDir) returns (moves: BitBoard)
    ensures moves == DirMoves(mine, theirs, d)
  {
    moves := Dumb7FillOccluded(mine, theirs, d.Shift());
    moves := Shift(moves, d.Shift());
  }

  /** The union of DirMoves over the directions of ds, in order. */
  function DirUnion(mine: BitBoard, theirs: BitBoard, ds: seq<Bits.ShiftDir>): BitBoard
  {
    if |ds| == 0 then EMPTY else Or(DirUnion(mine, theirs, ds[..|ds| - 1]), DirMoves(mine, theirs, ds[|ds| - 1]))
  }

  /** The move mask `moves` computes: every direction's moves, less the
      occupied squares. */
  function MoveMask(b: BitBoardBoard, player: Colour): BitBoard
  {
    var (mine, theirs) := Sides(b, player);
    And(And(DirUnion(mine, theirs, Bits.SHIFT_DIRS), Not(mine)), Not(theirs))
  }

  /** The mask `moves` accumulates over SHIFT_DIRS (the second field of the
      `Moves` iterator it returns). */
  method MovesMask(b: BitBoardBoard, player: Colour) returns (mask: BitBoard)
    ensures mask == MoveMask(b, player)
  {
    var (mine, theirs) := Sides(b, player);
    mask := EMPTY;
    for k := 0 to |Bits.SHIFT_DIRS|
      invariant mask == DirUnion(mine, theirs, Bits.SHIFT_DIRS[..k])
    {
      var m := MovesInDir(mine, theirs, Bits.SHIFT_DIRS[k]);
      assert Bits.SHIFT_DIRS[..k + 1][..k] == Bits.SHIFT_DIRS[..k];
      mask := Or(mask, m);
    }
    assert Bits.SHIFT_DIRS[..|Bits.SHIFT_DIRS|] == Bits.SHIFT_DIRS;
    mask := And(And(mask, Not(mine)), Not(theirs));
  }

  /** `moves`: the iterator over the move mask. */
  method Moves(b: BitBoardBoard, player: Colour) returns (it: MoveIterator)
    ensures fresh(it)
    ensures it.player == player && it.mask == MoveMask(b, player)
  {
    var mask := MovesMask(b, player);
    it := new MoveIterator(player, mask);
  }

  /** No move lands on an occupied square. */
  lemma MoveMaskDisjoint(b: BitBoardBoard, player: Colour)
    ensures Disjoint(MoveMask(b, player), b.blacks)
    ensures Disjoint(MoveMask(b, player), b.whites)
  {
    var (mine, theirs) := Sides(b, player);
    var u := DirUnion(mine, theirs, Bits.SHIFT_DIRS);
    forall r, c | OnBoard(r, c)
      ensures Bit(MoveMask(b, player), r, c) ==> !Bit(mine, r, c) && !Bit(theirs, r, c)
    {
      AndCell(And(u, Not(mine)), Not(theirs), r, c);
      AndCell(u, Not(mine), r, c);
      NotCell(mine, r, c);
      NotCell(theirs, r, c);
    }
  }

  // ---------------------------------------------------------------------
  // Applying a move.

  /** The discs captured in direction d: those a fill from the mover's discs
      and a fill back from the move square both reach. */
  function DirFlips(mine: BitBoard, theirs: BitBoard, movBb: BitBoard, d: Bits.ShiftDir): BitBoard
  {
    And(Fill(mine, theirs, d.Shift()), Fill(movBb, theirs, d.Reverse().Shift()))
  }

  /** DirFlips unfolded, for proofs that need its two fills by name. */
  lemma DirFlipsFills(mine: BitBoard, theirs: BitBoard, movBb: BitBoard, d: Bits.ShiftDir)
    ensures DirFlips(mine, theirs, movBb, d) == And(Fill(mine, theirs, d.Shift()), Fill(movBb, theirs, d.Reverse().Shift()))
  {
  }

  /** The union of DirFlips over the directions ds, in order. */
  function FlipUnion(mine: BitBoard, theirs: BitBoard, movBb: BitBoard, ds: seq<Bits.ShiftDir>): BitBoard
    decreases |ds|, movBb, mine, theirs
  {
    if |ds| == 0 then EMPTY
    else Or(FlipUnion(mine, theirs, movBb, ds[..|ds| - 1]), DirFlips(mine, theirs, movBb, ds[|ds| - 1]))
  }

  /** FlipUnion grows by one direction at a time. */
  lemma FlipUnionStep(mine: BitBoard, theirs: BitBoard, movBb: BitBoard, ds: seq<Bits.ShiftDir>, k: int)
    requires 0 <= k < |ds|
    ensures FlipUnion(mine, theirs, movBb, ds[..k + 1]) ==
      Or(FlipUnion(mine, theirs, movBb, ds[..k]), DirFlips(mine, theirs, movBb, ds[k]))
  {
    assert ds[..k + 1][..k] == ds[..k];
  }

  /** The discs `apply` turns over. */
  function Flips(b: BitBoardBoard, mov: Move): BitBoard
    requires Placeable(mov.row, mov.col)
  {
    var (mine, theirs) := Sides(b, mov.player);
    FlipUnion(mine, theirs, FromSquare(mov.row, mov.col), Bits.SHIFT_DIRS)
  }

  /** A move square `From<(i8, i8)>` accepts. */
  predicate Placeable(row: int, col: int)
  {
    IsI8(row * 8) && 0 <= row * 8 + col < 64
  }

  /** The board `apply` returns: the mover gains the move square and the
      flips, the opponent loses the flips. */
  function Applied(b: BitBoardBoard, mov: Move): BitBoardBoard
    requires Placeable(mov.row, mov.col)
  {
    var (mine, theirs) := Sides(b, mov.player);
    var flips := Flips(b, mov);
    WithSides(mov.player, Or(mine, Or(FromSquare(mov.row, mov.col), flips)), And(theirs, Not(flips)))
  }

  /** `apply`. It does not check that the move is legal. */
  method Apply(b: BitBoardBoard, mov: Move) returns (result: BitBoardBoard)
    requires Placeable(mov.row, mov.col)
    ensures result == Applied(b, mov)
  {
    var (mine, theirs) := Sides(b, mov.player);
    var movBb := FromSquare(mov.row, mov.col);
    var flips := EMPTY;
    for k := 0 to |Bits.SHIFT_DIRS|
      invariant flips == FlipUnion(mine, theirs, movBb, Bits.SHIFT_DIRS[..k])
    {
      var d := Bits.SHIFT_DIRS[k];
      var span1 := Dumb7Fill(mine, theirs, d.Shift());
      var span2 := Dumb7Fill(movBb, theirs, d.Reverse().Shift());
      DirFlipsFills(mine, theirs, movBb, d);
      FlipUnionStep(mine, theirs, movBb, Bits.SHIFT_DIRS, k);
      flips := Or(flips, And(span1, span2));
    }
    assert Bits.SHIFT_DIRS[..|Bits.SHIFT_DIRS|] == Bits.SHIFT_DIRS;
    AppliedSides(b, mov);
    mine := Or(mine, Or(movBb, flips));
    theirs := And(theirs, Not(flips));
    if mov.player == Black {
      result := BitBoardBoard(mine, theirs);
    } else {
      result := BitBoardBoard(theirs, mine);
    }
  }

  /** In each direction only opponent discs are captured, provided the
      mover does not already hold the move square. */
  lemma DirFlipsTheirs(mine: BitBoard, theirs: BitBoard, movBb: BitBoard, d: Bits.ShiftDir)
    requires Disjoint(mine, theirs) && Disjoint(mine, movBb)
    ensures Within(DirFlips(mine, theirs, movBb, d), theirs)
  {
    var f1 := Fill(mine, theirs, d.Shift());
    var f2 := Fill(movBb, theirs, d.Reverse().Shift());
    FillBounds(mine, theirs, d.Shift());
    FillBounds(movBb, theirs, d.Reverse().Shift());
    forall r, c | OnBoard(r, c) && Bit(DirFlips(mine, theirs, movBb, d), r, c)
      ensures Bit(theirs, r, c)
    {
      AndCell(f1, f2, r, c);
      OrCell(mine, theirs, r, c);
      OrCell(movBb, theirs, r, c);
    }
  }

  lemma {:induction false} FlipUnionTheirs(mine: BitBoard, theirs: BitBoard, movBb: BitBoard, ds: seq<Bits.ShiftDir>)
    requires Disjoint(mine, theirs) && Disjoint(mine, movBb)
    ensures Within(FlipUnion(mine, theirs, movBb, ds), theirs)
    decreases |ds|
  {
    if |ds| == 0 {
      EmptyWithin(theirs);
    } else {
      var last := ds[|ds| - 1];
      FlipUnionTheirs(mine, theirs, movBb, ds[..|ds| - 1]);
      DirFlipsTheirs(mine, theirs, movBb, last);
      OrWithin(FlipUnion(mine, theirs, movBb, ds[..|ds| - 1]), DirFlips(mine, theirs, movBb, last), theirs);
    }
  }

  /** On a valid board, a move to a square the mover does not hold turns
      over opponent discs only. */
  lemma FlipsTheirs(b: BitBoardBoard, mov: Move)
    requires Valid(b) && OnBoard(mov.row, mov.col) && Get(b, mov.row, mov.col) != Some(mov.player)
    ensures forall r, c :: OnBoard(r, c) && Bit(Flips(b, mov), r, c) ==> Get(b, r, c) == Some(mov.player.Opponent())
  {
    var (mine, theirs) := Sides(b, mov.player);
    var movBb := FromSquare(mov.row, mov.col);
    FromSquareOnly(mov.row, mov.col);
    assert Disjoint(mine, theirs);
    assert !Bit(mine, mov.row, mov.col);
    FlipUnionTheirs(mine, theirs, movBb, Bits.SHIFT_DIRS);
  }

  /** `apply`, square by square: the move square and the flips read as the
      mover, every other square as before, and no square is in both masks. */
  lemma ApplyCell(b: BitBoardBoard, mov: Move, r: int, c: int)
    requires Valid(b) && OnBoard(mov.row, mov.col) && Get(b, mov.row, mov.col) == None
    requires OnBoard(r, c)
    ensures Get(Applied(b, mov), r, c) ==
      if (r, c) == (mov.row, mov.col) || Bit(Flips(b, mov), r, c) then Some(mov.player) else Get(b, r, c)
    ensures !(Bit(Applied(b, mov).blacks, r, c) && Bit(Applied(b, mov).whites, r, c))
  {
    assert |Bits.SHIFT_DIRS| == 8;
    FlipsTheirs(b, mov);
    AppliedSides(b, mov);
    CaptureGet(b, mov.player, mov.row, mov.col, Flips(b, mov), r, c);
  }

  /** Applied, with the two sides written out. */
  lemma AppliedSides(b: BitBoardBoard, mov: Move)
    requires Placeable(mov.row, mov.col)
    ensures Applied(b, mov) ==
      WithSides(mov.player, Or(Sides(b, mov.player).0, Or(FromSquare(mov.row, mov.col), Flips(b, mov))),
                And(Sides(b, mov.player).1, Not(Flips(b, mov))))
  {
  }

  /** Capturing any set of opponent discs with a disc on a square the mover
      does not hold, square by square. */
  lemma CaptureGet(b: BitBoardBoard, player: Colour, row: int, col: int, flips: BitBoard, r: int, c: int)
    requires Valid(b) && OnBoard(row, col) && Get(b, row, col) == None && OnBoard(r, c)
    requires Bit(flips, r, c) ==> Get(b, r, c) == Some(player.Opponent())
    ensures Get(WithSides(player, Or(Sides(b, player).0, Or(FromSquare(row, col), flips)),
                          And(Sides(b, player).1, Not(flips))), r, c) ==
      if (r, c) == (row, col) || Bit(flips, r, c) then Some(player) else Get(b, r, c)
    ensures !(Bit(WithSides(player, Or(Sides(b, player).0, Or(FromSquare(row, col), flips)),
                            And(Sides(b, player).1, Not(flips))).blacks, r, c) &&
              Bit(WithSides(player, Or(Sides(b, player).0, Or(FromSquare(row, col), flips)),
                            And(Sides(b, player).1, Not(flips))).whites, r, c))
  {
    var (mine, theirs) := Sides(b, player);
    FromSquareCell(row, col, r, c);
    CaptureCell(mine, theirs, FromSquare(row, col), flips, r, c);
    assert !(Bit(b.blacks, r, c) && Bit(b.whites, r, c));
    match player
    case Black =>
    case White =>
  }

  /** The two masks `apply` writes, square by square. */
  lemma CaptureCell(mine: BitBoard, theirs: BitBoard, movBb: BitBoard, flips: BitBoard, r: int, c: int)
    requires OnBoard(r, c)
    ensures Bit(Or(mine, Or(movBb, flips)), r, c) == (Bit(mine, r, c) || Bit(movBb, r, c) || Bit(flips, r, c))
    ensures Bit(And(theirs, Not(flips)), r, c) == (Bit(theirs, r, c) && !Bit(flips, r, c))
  {
    OrCell(movBb, flips, r, c);
    OrCell(mine, Or(movBb, flips), r, c);
    NotCell(flips, r, c);
    AndCell(theirs, Not(flips), r, c);
  }

  /** `apply` on an empty square keeps the board valid and changes exactly the
      move square and the flips, which all become the mover's. */
  lemma ApplyEffect(b: BitBoardBoard, mov: Move)
    requires Valid(b) && OnBoard(mov.row, mov.col) && Get(b, mov.row, mov.col) == None
    ensures Valid(Applied(b, mov))
    ensures Get(Applied(b, mov), mov.row, mov.col) == Some(mov.player)
    ensures forall r, c :: OnBoard(r, c) && Bit(Flips(b, mov), r, c) ==>
      Get(b, r, c) == Some(mov.player.Opponent()) && Get(Applied(b, mov), r, c) == Some(mov.player)
    ensures forall r, c :: OnBoard(r, c) && (r, c) != (mov.row, mov.col) && !Bit(Flips(b, mov), r, c) ==>
      Get(Applied(b, mov), r, c) == Get(b, r, c)
  {
    FlipsTheirs(b, mov);
    forall r, c | OnBoard(r, c)
      ensures Get(Applied(b, mov), r, c) ==
        if (r, c) == (mov.row, mov.col) || Bit(Flips(b, mov), r, c) then Some(mov.player) else Get(b, r, c)
      ensures !(Bit(Applied(b, mov).blacks, r, c) && Bit(Applied(b, mov).whites, r, c))
    {
      ApplyCell(b, mov, r, c);
    }
  }

  /** Playing on an empty square: the mover gains the square and every flip,
      the opponent loses every flip. */
  lemma ApplyScores(b: BitBoardBoard, mov: Move)
    requires Valid(b) && OnBoard(mov.row, mov.col) && Get(b, mov.row, mov.col) == None
    ensures Count(Sides(Applied(b, mov), mov.player).0) == Count(Sides(b, mov.player).0) + 1 + Count(Flips(b, mov))
    ensures Count(Sides(Applied(b, mov), mov.player).1) + Count(Flips(b, mov)) == Count(Sides(b, mov.player).1)
  {
    var (mine, theirs) := Sides(b, mov.player);
    var movBb := FromSquare(mov.row, mov.col);
    var flips := Flips(b, mov);
    FlipsTheirs(b, mov);
    FromSquareOnly(mov.row, mov.col);
    assert Sides(Applied(b, mov), mov.player) == (Or(mine, Or(movBb, flips)), And(theirs, Not(flips)));
    forall r, c | OnBoard(r, c)
      ensures !(Bit(movBb, r, c) && Bit(flips, r, c))
      ensures !(Bit(mine, r, c) && Bit(Or(movBb, flips), r, c))
      ensures !(Bit(And(theirs, Not(flips)), r, c) && Bit(flips, r, c))
      ensures Bit(Or(And(theirs, Not(flips)), flips), r, c) == Bit(theirs, r, c)
    {
      OrCell(movBb, flips, r, c);
      NotCell(flips, r, c);
      AndCell(theirs, Not(flips), r, c);
      OrCell(And(theirs, Not(flips)), flips, r, c);
    }
    CountOr(movBb, flips);
    CountOr(mine, Or(movBb, flips));
    CountOr(And(theirs, Not(flips)), flips);
    Extensionality(Or(And(theirs, Not(flips)), flips), theirs);
  }

  // ---------------------------------------------------------------------
  // The move iterator.

  /** The squares of a mask in ascending bit order, as `pop_next_bit` and
      `to_bit_pos` produce them. */
  function SquareList(m: BitBoard): seq<(int, int)>
    decreases Count(m)
  {
    if IsEmpty(m) then []
    else
      PopLeavesRest(m);
      [ToBitPos(m)] + SquareList(DropNext(m))
  }

  /** The list has one entry per square of the mask. */
  lemma {:induction false} SquareListLength(m: BitBoard)
    ensures |SquareList(m)| == Count(m)
    decreases Count(m)
  {
    CountZero(m);
    if !IsEmpty(m) {
      PopLeavesRest(m);
      SquareListLength(DropNext(m));
    }
  }

  /** The list holds the on-board squares of the mask, and only those. */
  lemma {:induction false} SquareListCells(m: BitBoard)
    ensures forall k :: 0 <= k < |SquareList(m)| ==>
      OnBoard(SquareList(m)[k].0, SquareList(m)[k].1) && Bit(m, SquareList(m)[k].0, SquareList(m)[k].1)
    ensures forall r, c :: OnBoard(r, c) && Bit(m, r, c) ==> (r, c) in SquareList(m)
    decreases Count(m)
  {
    IsEmptyIff(m);
    if !IsEmpty(m) {
      PopLeavesRest(m);
      NextBitFirst(m);
      SquareListCells(DropNext(m));
    }
  }

  /** The list is in strictly ascending bit index, so no square repeats. */
  lemma {:induction false} SquareListAscending(m: BitBoard)
    ensures forall i, j :: 0 <= i < j < |SquareList(m)| ==>
      SquareList(m)[i].0 * 8 + SquareList(m)[i].1 < SquareList(m)[j].0 * 8 + SquareList(m)[j].1
    decreases Count(m)
  {
    if !IsEmpty(m) {
      PopLeavesRest(m);
      var rest := DropNext(m);
      var p := ToBitPos(m);
      SquareListAscending(rest);
      SquareListCells(rest);
      var tail := SquareList(rest);
      assert SquareList(m) == [p] + tail;
      forall k | 0 <= k < |tail|
        ensures p.0 * 8 + p.1 < tail[k].0 * 8 + tail[k].1
      {
        RestAbove(m, tail[k].0, tail[k].1);
      }
    }
  }

  /** Every square left after popping lies above the popped one. */
  lemma RestAbove(m: BitBoard, row: int, col: int)
    requires !IsEmpty(m) && OnBoard(row, col) && Bit(DropNext(m), row, col)
    ensures ToBitPos(m).0 * 8 + ToBitPos(m).1 < row * 8 + col
  {
    PopLeavesRest(m);
    NextBitFirst(m);
    var p := ToBitPos(m);
    assert Bit(m, row, col) && (row, col) != p;
    if row * 8 + col == p.0 * 8 + p.1 {
      SameIndex(row, col, p.0, p.1);
    }
  }

  /** Two on-board squares with the same bit index are the same square. */
  lemma SameIndex(r1: int, c1: int, r2: int, c2: int)
    requires OnBoard(r1, c1) && OnBoard(r2, c2) && r1 * 8 + c1 == r2 * 8 + c2
    ensures r1 == r2 && c1 == c2
  {
  }

  /** The squares as moves of one player. */
  function AsMoves(player: Colour, squares: seq<(int, int)>): (moves: seq<Move>)
    ensures |moves| == |squares|
    ensures forall k :: 0 <= k < |squares| ==> moves[k] == Move(player, squares[k].0, squares[k].1)
  {
    if squares == [] then [] else [Move(player, squares[0].0, squares[0].1)] + AsMoves(player, squares[1..])
  }

  /** `Moves`: the player and the squares still to yield. */
  class MoveIterator {
    var player: Colour
    var mask: BitBoard

    constructor (player: Colour, mask: BitBoard)
      ensures this.player == player && this.mask == mask
    {
      this.player := player;
      this.mask := mask;
    }

    /** The moves still to come: the mask's squares in ascending order. */
    ghost function Remaining(): seq<Move>
      reads this
    {
      AsMoves(player, SquareList(mask))
    }

    /** `next`: pops the lowest square and yields it as a move for the
        player; on an empty mask it yields None. */
    method Next() returns (m: Option<Move>)
      modifies this
      ensures player == old(player) && mask == DropNext(old(mask))
      ensures old(Remaining()) == [] ==> m == None && Remaining() == []
      ensures old(Remaining()) != [] ==> m == Some(old(Remaining())[0]) && Remaining() == old(Remaining())[1..]
    {
      ghost var before := mask;
      var nb, rest := PopNextBit(mask);
      mask := rest;
      NextFacts(before);
      if IsEmpty(nb) {
        return None;
      }
      var (row, col) := ToBitPos(nb);
      return Some(Move(player, row, col));
    }
  }

  /** What `next` relies on: the popped bit is empty exactly for an empty
      mask, names the mask's first square, and the rest lists the others. */
  lemma NextFacts(m: BitBoard)
    ensures IsEmpty(NextBit(m)) <==> IsEmpty(m)
    ensures IsEmpty(m) ==> SquareList(m) == [] && DropNext(m) == m
    ensures !IsEmpty(m) ==> ToBitPos(NextBit(m)) == ToBitPos(m)
    ensures !IsEmpty(m) ==> SquareList(m) == [ToBitPos(m)] + SquareList(DropNext(m))
  {
    NextBitFirst(m);
    if IsEmpty(m) {
      IsEmptyIff(m);
      PopZero(m);
    } else {
      var p := ToBitPos(m);
      FromSquareOnly(p.0, p.1);
      CountZero(NextBit(m));
      ToBitPosFromSquare(p.0, p.1);
    }
  }
}
