/** The bit-parallel board against the dense one: when the two hold the same
    discs, the move mask is the set of legal dense moves, `apply` gives the
    same board, and the scores agree (the comparison the repository's test
    of crates/othello_game/src/bitboardgame.rs makes on random boards). */
module Refinement {
  import opened Core
  import opened Direction
  import Bits
  import opened Bitboard
  import BG = BitboardGame
  import DB = DefaultBoard

  /** The two boards hold the same disc on every square, and the bit board
      has no square in both masks. */
  ghost predicate Agree(bb: BG.BitBoardBoard, d: DB.DefaultBoard)
  {
    BG.Valid(bb) && forall r, c :: OnBoard(r, c) ==> BG.Get(bb, r, c) == DB.Get(d, r, c)
  }

  /** The squares of a mask, as a set. */
  ghost function Cells(b: BitBoard): set<(int, int)>
  {
    set r, c | 0 <= r < 8 && 0 <= c < 8 && Bit(b, r, c) :: (r, c)
  }

  /** A set holds exactly the squares of a mask. */
  ghost predicate Represents(b: BitBoard, s: set<(int, int)>)
  {
    forall r, c {:trigger Bit(b, r, c)} :: OnBoard(r, c) ==> (Bit(b, r, c) <==> (r, c) in s)
  }

  lemma CellsRepresents(b: BitBoard)
    ensures Represents(b, Cells(b))
  {
  }

  /** On agreeing boards the mover's mask holds the mover's discs and the
      other mask the opponent's. */
  lemma SidesGet(bb: BG.BitBoardBoard, d: DB.DefaultBoard, player: Colour, r: int, c: int)
    requires Agree(bb, d) && OnBoard(r, c)
    ensures (r, c) in Cells(BG.Sides(bb, player).0) <==> DB.Get(d, r, c) == Some(player)
    ensures (r, c) in Cells(BG.Sides(bb, player).1) <==> DB.Get(d, r, c) == Some(player.Opponent())
  {
    assert BG.Get(bb, r, c) == DB.Get(d, r, c);
    assert !(Bit(bb.blacks, r, c) && Bit(bb.whites, r, c));
  }

  // ---------------------------------------------------------------------
  // Fills as walks.

  /** Chain of module Bitboard on the sets of squares of the masks. */
  ghost predicate SetChain(gen: set<(int, int)>, pro: set<(int, int)>, dr: int, dc: int, row: int, col: int, k: nat)
    requires OnBoard(row, col)
    decreases k, gen
  {
    if k == 0 then (row, col) in gen
    else (row, col) in pro && OnBoard(row - dr, col - dc) && SetChain(gen, pro, dr, dc, row - dr, col - dc, k - 1)
  }

  lemma {:induction false} ChainCells(gen: BitBoard, pro: BitBoard, g: set<(int, int)>, p: set<(int, int)>, dr: int, dc: int, row: int, col: int, k: nat)
    requires Represents(gen, g) && Represents(pro, p) && OnBoard(row, col)
    ensures Chain(gen, pro, dr, dc, row, col, k) <==> SetChain(g, p, dr, dc, row, col, k)
    decreases k
  {
    if k > 0 && OnBoard(row - dr, col - dc) {
      ChainCells(gen, pro, g, p, dr, dc, row - dr, col - dc, k - 1);
    }
  }

  /** A chain of 1 to n steps ends at (row, col): SomeChain of module
      Bitboard on sets. */
  ghost predicate ChainWithin(gen: set<(int, int)>, pro: set<(int, int)>, dr: int, dc: int, row: int, col: int, n: nat)
    requires OnBoard(row, col)
    decreases n, gen
  {
    n > 0 && (ChainWithin(gen, pro, dr, dc, row, col, n - 1) || SetChain(gen, pro, dr, dc, row, col, n))
  }

  lemma {:induction false} SomeChainIff(gen: BitBoard, pro: BitBoard, g: set<(int, int)>, p: set<(int, int)>, dr: int, dc: int, row: int, col: int, n: nat)
    requires Represents(gen, g) && Represents(pro, p) && OnBoard(row, col)
    ensures SomeChain(gen, pro, dr, dc, row, col, n) <==> ChainWithin(g, p, dr, dc, row, col, n)
    decreases n
  {
    if n > 0 {
      SomeChainIff(gen, pro, g, p, dr, dc, row, col, n - 1);
      ChainCells(gen, pro, g, p, dr, dc, row, col, n);
    }
  }

  /** Along a walk: k squares in `pro`, then one in `gen`. */
  ghost predicate ClosedBy(gen: set<(int, int)>, pro: set<(int, int)>, w: seq<(int, int)>, k: nat)
    decreases k, gen
  {
    |w| > 0 &&
    if k == 0 then w[0] in gen
    else w[0] in pro && ClosedBy(gen, pro, w[1..], k - 1)
  }

  /** The walk back from (row, col) against the step (dr, dc), the square
      itself first. */
  function Back(row: int, col: int, dr: int, dc: int): (u: seq<(int, int)>)
    requires OnBoard(row, col) && IsUnit(-dr, -dc)
    ensures DB.OnBoardAll(u) && |u| > 0 && u[0] == (row, col)
  {
    [(row, col)] + Walk(row, col, -dr, -dc)
  }

  /** One step back. */
  lemma BackStep(row: int, col: int, dr: int, dc: int)
    requires OnBoard(row, col) && IsUnit(-dr, -dc)
    ensures OnBoard(row - dr, col - dc) ==> Back(row, col, dr, dc)[1..] == Back(row - dr, col - dc, dr, dc)
    ensures !OnBoard(row - dr, col - dc) ==> |Back(row, col, dr, dc)| == 1
  {
    assert Back(row, col, dr, dc)[1..] == Walk(row, col, -dr, -dc);
  }

  /** A k-step chain ending at (row, col) with steps (dr, dc) is the walk
      back from (row, col) closed after k squares. */
  lemma {:induction false} ChainAlong(gen: set<(int, int)>, pro: set<(int, int)>, dr: int, dc: int, row: int, col: int, k: nat)
    requires OnBoard(row, col) && IsUnit(-dr, -dc)
    ensures SetChain(gen, pro, dr, dc, row, col, k) <==> ClosedBy(gen, pro, Back(row, col, dr, dc), k)
    decreases k
  {
    BackStep(row, col, dr, dc);
    if k > 0 && OnBoard(row - dr, col - dc) {
      ChainAlong(gen, pro, dr, dc, row - dr, col - dc, k - 1);
    }
  }

  /** The sets hold the mover's discs and the opponent's on the dense board. */
  ghost predicate SetsMatch(gen: set<(int, int)>, pro: set<(int, int)>, d: DB.DefaultBoard, player: Colour)
  {
    forall r, c :: OnBoard(r, c) ==>
      ((r, c) in gen <==> DB.Get(d, r, c) == Some(player)) &&
      ((r, c) in pro <==> DB.Get(d, r, c) == Some(player.Opponent()))
  }

  lemma SidesMatch(bb: BG.BitBoardBoard, d: DB.DefaultBoard, player: Colour)
    requires Agree(bb, d)
    ensures SetsMatch(Cells(BG.Sides(bb, player).0), Cells(BG.Sides(bb, player).1), d, player)
  {
    forall r, c | OnBoard(r, c)
      ensures (r, c) in Cells(BG.Sides(bb, player).0) <==> DB.Get(d, r, c) == Some(player)
      ensures (r, c) in Cells(BG.Sides(bb, player).1) <==> DB.Get(d, r, c) == Some(player.Opponent())
    {
      SidesGet(bb, d, player, r, c);
    }
  }

  /** A walk closed after k squares of the opponent's by one of the
      mover's is a run of length k. */
  lemma {:induction false} ClosedByRun(gen: set<(int, int)>, pro: set<(int, int)>, d: DB.DefaultBoard, player: Colour, w: seq<(int, int)>, k: nat)
    requires SetsMatch(gen, pro, d, player) && DB.OnBoardAll(w)
    ensures ClosedBy(gen, pro, w, k) <==> DB.RunLength(d, player, w) == Some(k)
    decreases k
  {
    if |w| > 0 && k > 0 {
      ClosedByRun(gen, pro, d, player, w[1..], k - 1);
    }
  }

  /** The walk from (r, c) against the step is the walk back from the
      square one step back. */
  lemma WalkBack(r: int, c: int, dr: int, dc: int)
    requires OnBoard(r, c) && IsUnit(-dr, -dc) && OnBoard(r - dr, c - dc)
    ensures Walk(r, c, -dr, -dc) == Back(r - dr, c - dc, dr, dc)
  {
  }

  /** With the step kept abstract: a chain of k steps ends one step back
      from (r, c) exactly when the walk from (r, c) against the step is a
      run of length k. */
  lemma ChainRun(gen: set<(int, int)>, pro: set<(int, int)>, d: DB.DefaultBoard, player: Colour, dr: int, dc: int, r: int, c: int, k: nat)
    requires SetsMatch(gen, pro, d, player) && OnBoard(r, c) && IsUnit(-dr, -dc) && OnBoard(r - dr, c - dc)
    ensures SetChain(gen, pro, dr, dc, r - dr, c - dc, k) <==> DB.RunLength(d, player, Walk(r, c, -dr, -dc)) == Some(k)
  {
    WalkBack(r, c, dr, dc);
    ChainAlong(gen, pro, dr, dc, r - dr, c - dc, k);
    ClosedByRun(gen, pro, d, player, Walk(r, c, -dr, -dc), k);
  }

  /** ... so a chain of 1 to n steps ends there exactly when the walk is a
      run of length 1 to n. */
  lemma {:induction false} ChainWithinRun(gen: set<(int, int)>, pro: set<(int, int)>, d: DB.DefaultBoard, player: Colour, dr: int, dc: int, r: int, c: int, n: nat)
    requires SetsMatch(gen, pro, d, player) && OnBoard(r, c) && IsUnit(-dr, -dc) && OnBoard(r - dr, c - dc)
    ensures ChainWithin(gen, pro, dr, dc, r - dr, c - dc, n) <==>
      match DB.RunLength(d, player, Walk(r, c, -dr, -dc))
      case None => false
      case Some(k) => 1 <= k <= n
    decreases n
  {
    if n > 0 {
      ChainWithinRun(gen, pro, d, player, dr, dc, r, c, n - 1);
      ChainRun(gen, pro, d, player, dr, dc, r, c, n);
    }
  }

  /** ... and a chain of 1 to 6 steps ends there exactly when the walk is a
      run the move closes. */
  lemma WalkRuns(gen: set<(int, int)>, pro: set<(int, int)>, d: DB.DefaultBoard, player: Colour, dr: int, dc: int, r: int, c: int)
    requires SetsMatch(gen, pro, d, player) && OnBoard(r, c) && IsUnit(-dr, -dc) && OnBoard(r - dr, c - dc)
    ensures ChainWithin(gen, pro, dr, dc, r - dr, c - dc, FILL_STEPS) <==> DB.Flanks(d, player, r, c, -dr, -dc)
  {
    var w := Walk(r, c, -dr, -dc);
    ChainWithinRun(gen, pro, d, player, dr, dc, r, c, FILL_STEPS);
    if DB.RunLength(d, player, w).Some? {
      var n := DB.RunLength(d, player, w).value;
      DB.RunLengthIff(d, player, w, n);
      WalkAtMostSeven(r, c, -dr, -dc);
    }
  }

  /** The occluded fill holds a square exactly when a chain of 1 to 6 steps
      ends there (shift amount and step abstract). */
  lemma FillOccludedCell(mine: BitBoard, theirs: BitBoard, g: set<(int, int)>, p: set<(int, int)>, shift: int, dr: int, dc: int, y: (int, int))
    requires Represents(mine, g) && Represents(theirs, p) && OnBoard(y.0, y.1)
    requires -64 < shift < 64 && Steps(mine, theirs, shift, dr, dc)
    ensures Bit(FillOccluded(mine, theirs, shift), y.0, y.1) <==> ChainWithin(g, p, dr, dc, y.0, y.1, FILL_STEPS)
  {
    StepsFlood(EMPTY, mine, theirs, shift, dr, dc, FILL_STEPS, y.0, y.1);
    EmptyCell(y.0, y.1);
    SomeChainIff(mine, theirs, g, p, dr, dc, y.0, y.1, FILL_STEPS);
  }

  /** A step of a shift direction is a unit offset. */
  lemma DirUnit(dir: Bits.ShiftDir)
    ensures IsUnit(-dir.DRow(), -dir.DCol())
  {
  }

  /** On the dense board no walk is flanked whose first square is off the
      board. */
  lemma OffBoardUnflanked(d: DB.DefaultBoard, player: Colour, r: int, c: int, dy: int, dx: int)
    requires IsUnit(dy, dx) && !OnBoard(r + dy, c + dx)
    ensures !DB.Flanks(d, player, r, c, dy, dx)
  {
    assert Walk(r, c, dy, dx) == [];
  }

  /** On the dense board: the square one step back is on the board and
      ends a chain of 1 to 6 steps exactly when the walk from (r, c) against
      the step is flanked. */
  lemma FlanksWithin(g: set<(int, int)>, p: set<(int, int)>, d: DB.DefaultBoard, player: Colour, dr: int, dc: int, r: int, c: int)
    requires SetsMatch(g, p, d, player) && OnBoard(r, c) && IsUnit(-dr, -dc)
    ensures (OnBoard(r - dr, c - dc) && ChainWithin(g, p, dr, dc, r - dr, c - dc, FILL_STEPS)) <==>
      DB.Flanks(d, player, r, c, -dr, -dc)
  {
    if OnBoard(r - dr, c - dc) {
      WalkRuns(g, p, d, player, dr, dc, r, c);
    } else {
      OffBoardUnflanked(d, player, r, c, -dr, -dc);
    }
  }

  /** Shifting by `shift` moves every square one step of (dr, dc). */
  ghost predicate ShiftAt(b: BitBoard, shift: int, dr: int, dc: int, r: int, c: int)
    requires -64 < shift < 64 && OnBoard(r, c)
  {
    Bit(Shift(b, shift), r, c) == (OnBoard(r - dr, c - dc) && Bit(b, r - dr, c - dc))
  }

  /** What the proofs below need of a direction: its shift amount moves
      squares by its step, and so does every step of a fill. */
  ghost predicate Stepping(shift: int, dr: int, dc: int)
  {
    -64 < shift < 64 && IsUnit(-dr, -dc) &&
    (forall b: BitBoard, r, c :: OnBoard(r, c) ==> ShiftAt(b, shift, dr, dc, r, c)) &&
    (forall gen: BitBoard, pro: BitBoard :: Steps(gen, pro, shift, dr, dc))
  }

  lemma SteppingHolds(dir: Bits.ShiftDir)
    ensures Stepping(dir.Shift(), dir.DRow(), dir.DCol())
  {
    DirUnit(dir);
    forall b: BitBoard, r, c | OnBoard(r, c)
      ensures ShiftAt(b, dir.Shift(), dir.DRow(), dir.DCol(), r, c)
    {
      ShiftCell(b, dir, r, c);
    }
    forall gen: BitBoard, pro: BitBoard
      ensures Steps(gen, pro, dir.Shift(), dir.DRow(), dir.DCol())
    {
      StepsHold(gen, pro, dir);
    }
  }

  /** The two facts about one square that the shifted occluded fill
      needs. */
  lemma FillFacts(mine: BitBoard, theirs: BitBoard, g: set<(int, int)>, p: set<(int, int)>, shift: int, dr: int, dc: int, r: int, c: int)
    requires Represents(mine, g) && Represents(theirs, p) && OnBoard(r, c)
    requires Stepping(shift, dr, dc)
    ensures ShiftAt(FillOccluded(mine, theirs, shift), shift, dr, dc, r, c)
    ensures OnBoard(r - dr, c - dc) ==>
      (Bit(FillOccluded(mine, theirs, shift), r - dr, c - dc) <==> ChainWithin(g, p, dr, dc, r - dr, c - dc, FILL_STEPS))
  {
    assert Steps(mine, theirs, shift, dr, dc);
    if OnBoard(r - dr, c - dc) {
      FillOccludedCell(mine, theirs, g, p, shift, dr, dc, (r - dr, c - dc));
    }
  }

  /** With the shift amount and the step abstract: the shifted occluded
      fill holds exactly the squares whose walk against the step is
      flanked. */
  lemma ShiftedFillFlanks(mine: BitBoard, theirs: BitBoard, g: set<(int, int)>, p: set<(int, int)>, d: DB.DefaultBoard, player: Colour, shift: int, dr: int, dc: int, r: int, c: int)
    requires SetsMatch(g, p, d, player) && OnBoard(r, c) && -64 < shift < 64 && IsUnit(-dr, -dc)
    requires ShiftAt(FillOccluded(mine, theirs, shift), shift, dr, dc, r, c)
    requires OnBoard(r - dr, c - dc) ==>
      (Bit(FillOccluded(mine, theirs, shift), r - dr, c - dc) <==> ChainWithin(g, p, dr, dc, r - dr, c - dc, FILL_STEPS))
    ensures Bit(Shift(FillOccluded(mine, theirs, shift), shift), r, c) <==> DB.Flanks(d, player, r, c, -dr, -dc)
  {
    FlanksWithin(g, p, d, player, dr, dc, r, c);
  }

  /** ... for any shift amount and step that behave like a direction. */
  lemma MovesFlanks(mine: BitBoard, theirs: BitBoard, g: set<(int, int)>, p: set<(int, int)>, d: DB.DefaultBoard, player: Colour, shift: int, dr: int, dc: int, r: int, c: int)
    requires Represents(mine, g) && Represents(theirs, p) && SetsMatch(g, p, d, player) && OnBoard(r, c)
    requires Stepping(shift, dr, dc)
    ensures Bit(Shift(FillOccluded(mine, theirs, shift), shift), r, c) <==> DB.Flanks(d, player, r, c, -dr, -dc)
  {
    FillFacts(mine, theirs, g, p, shift, dr, dc, r, c);
    ShiftedFillFlanks(mine, theirs, g, p, d, player, shift, dr, dc, r, c);
  }

  /** The moves in direction d are the squares the walk opposite to d
      flanks: a run of opponent discs closed by one of the mover's. */
  lemma DirMovesCell(mine: BitBoard, theirs: BitBoard, g: set<(int, int)>, p: set<(int, int)>, d: DB.DefaultBoard, player: Colour, dir: Bits.ShiftDir, r: int, c: int)
    requires Represents(mine, g) && Represents(theirs, p) && SetsMatch(g, p, d, player) && OnBoard(r, c)
    ensures Bit(BG.DirMoves(mine, theirs, dir), r, c) <==> DB.Flanks(d, player, r, c, -dir.DRow(), -dir.DCol())
  {
    SteppingHolds(dir);
    MovesFlanks(mine, theirs, g, p, d, player, dir.Shift(), dir.DRow(), dir.DCol(), r, c);
  }

  // ---------------------------------------------------------------------
  // The move mask.

  /** One of the directions of ds, reversed, is flanked from (r, c). */
  ghost predicate FlanksOf(d: DB.DefaultBoard, player: Colour, r: int, c: int, ds: seq<Bits.ShiftDir>)
    decreases |ds|, d
  {
    |ds| > 0 &&
    (FlanksOf(d, player, r, c, ds[..|ds| - 1]) ||
     DB.Flanks(d, player, r, c, -ds[|ds| - 1].DRow(), -ds[|ds| - 1].DCol()))
  }

  /** Every direction's moves at (r, c) are its flanked walks. */
  ghost predicate DirsFlank(mine: BitBoard, theirs: BitBoard, d: DB.DefaultBoard, player: Colour, r: int, c: int)
  {
    OnBoard(r, c) &&
    forall dir: Bits.ShiftDir ::
      Bit(BG.DirMoves(mine, theirs, dir), r, c) <==> DB.Flanks(d, player, r, c, -dir.DRow(), -dir.DCol())
  }

  lemma DirsFlankHold(mine: BitBoard, theirs: BitBoard, g: set<(int, int)>, p: set<(int, int)>, d: DB.DefaultBoard, player: Colour, r: int, c: int)
    requires Represents(mine, g) && Represents(theirs, p) && SetsMatch(g, p, d, player) && OnBoard(r, c)
    ensures DirsFlank(mine, theirs, d, player, r, c)
  {
    forall dir: Bits.ShiftDir
      ensures Bit(BG.DirMoves(mine, theirs, dir), r, c) <==> DB.Flanks(d, player, r, c, -dir.DRow(), -dir.DCol())
    {
      DirMovesCell(mine, theirs, g, p, d, player, dir, r, c);
    }
  }

  /** The union of the moves in the directions of ds. */
  lemma {:induction false} UnionCell(mine: BitBoard, theirs: BitBoard, d: DB.DefaultBoard, player: Colour, ds: seq<Bits.ShiftDir>, r: int, c: int)
    requires DirsFlank(mine, theirs, d, player, r, c)
    ensures Bit(BG.DirUnion(mine, theirs, ds), r, c) <==> FlanksOf(d, player, r, c, ds)
    decreases |ds|
  {
    if |ds| == 0 {
      EmptyCell(r, c);
    } else {
      UnionCell(mine, theirs, d, player, ds[..|ds| - 1], r, c);
      OrCell(BG.DirUnion(mine, theirs, ds[..|ds| - 1]), BG.DirMoves(mine, theirs, ds[|ds| - 1]), r, c);
    }
  }

  /** The entry of SHIFT_DIRS whose reverse is the unit offset (dy, dx). */
  function DirIndex(dy: int, dx: int): (i: nat)
    requires IsUnit(dy, dx)
    ensures i < |Bits.SHIFT_DIRS| && Bits.SHIFT_DIRS[i].DRow() == -dy && Bits.SHIFT_DIRS[i].DCol() == -dx
  {
    if dy == 1 then (if dx == 0 then 0 else if dx == 1 then 4 else 5)
    else if dy == -1 then (if dx == 0 then 1 else if dx == 1 then 6 else 7)
    else if dx == 1 then 2 else 3
  }

  lemma {:induction false} FlanksOfSome(d: DB.DefaultBoard, player: Colour, r: int, c: int, ds: seq<Bits.ShiftDir>)
    requires FlanksOf(d, player, r, c, ds)
    ensures exists dy, dx :: DB.Flanks(d, player, r, c, dy, dx)
    decreases |ds|
  {
    var dir := ds[|ds| - 1];
    if !DB.Flanks(d, player, r, c, -dir.DRow(), -dir.DCol()) {
      FlanksOfSome(d, player, r, c, ds[..|ds| - 1]);
    }
  }

  lemma {:induction false} FlanksOfAt(d: DB.DefaultBoard, player: Colour, r: int, c: int, ds: seq<Bits.ShiftDir>, i: nat)
    requires i < |ds| && DB.Flanks(d, player, r, c, -ds[i].DRow(), -ds[i].DCol())
    ensures FlanksOf(d, player, r, c, ds)
    decreases |ds|
  {
    if i < |ds| - 1 {
      assert ds[..|ds| - 1][i] == ds[i];
      FlanksOfAt(d, player, r, c, ds[..|ds| - 1], i);
    }
  }

  /** Reversed, the eight shift directions are all the unit offsets. */
  lemma FlanksAll(d: DB.DefaultBoard, player: Colour, r: int, c: int)
    ensures FlanksOf(d, player, r, c, Bits.SHIFT_DIRS) <==> exists dy, dx :: DB.Flanks(d, player, r, c, dy, dx)
  {
    if FlanksOf(d, player, r, c, Bits.SHIFT_DIRS) {
      FlanksOfSome(d, player, r, c, Bits.SHIFT_DIRS);
    }
    if exists dy, dx :: DB.Flanks(d, player, r, c, dy, dx) {
      var dy, dx :| DB.Flanks(d, player, r, c, dy, dx);
      FlanksOfAt(d, player, r, c, Bits.SHIFT_DIRS, DirIndex(dy, dx));
    }
  }

  /** A square of a union less two masks. */
  lemma MaskBits(u: BitBoard, mine: BitBoard, theirs: BitBoard, r: int, c: int)
    requires OnBoard(r, c)
    ensures Bit(And(And(u, Not(mine)), Not(theirs)), r, c) <==> Bit(u, r, c) && !Bit(mine, r, c) && !Bit(theirs, r, c)
  {
    AndCell(And(u, Not(mine)), Not(theirs), r, c);
    AndCell(u, Not(mine), r, c);
    NotCell(mine, r, c);
    NotCell(theirs, r, c);
  }

  /** The union over SHIFT_DIRS holds exactly the squares from which some
      walk is flanked. */
  lemma UnionFlanks(mine: BitBoard, theirs: BitBoard, g: set<(int, int)>, p: set<(int, int)>, d: DB.DefaultBoard, player: Colour, r: int, c: int)
    requires Represents(mine, g) && Represents(theirs, p) && SetsMatch(g, p, d, player) && OnBoard(r, c)
    ensures Bit(BG.DirUnion(mine, theirs, Bits.SHIFT_DIRS), r, c) <==> exists dy, dx :: DB.Flanks(d, player, r, c, dy, dx)
  {
    DirsFlankHold(mine, theirs, g, p, d, player, r, c);
    UnionCell(mine, theirs, d, player, Bits.SHIFT_DIRS, r, c);
    FlanksAll(d, player, r, c);
  }

  /** On agreeing boards a square is in the move mask exactly when the move
      there is legal on the dense board. */
  lemma MoveMaskCell(bb: BG.BitBoardBoard, d: DB.DefaultBoard, player: Colour, r: int, c: int)
    requires Agree(bb, d) && OnBoard(r, c)
    ensures Bit(BG.MoveMask(bb, player), r, c) <==> DB.IsValidMove(d, Move(player, r, c))
  {
    var (mine, theirs) := BG.Sides(bb, player);
    MaskBits(BG.DirUnion(mine, theirs, Bits.SHIFT_DIRS), mine, theirs, r, c);
    CellsRepresents(mine);
    CellsRepresents(theirs);
    SidesMatch(bb, d, player);
    UnionFlanks(mine, theirs, Cells(mine), Cells(theirs), d, player, r, c);
    SidesGet(bb, d, player, r, c);
    DB.ValidMoveIff(d, Move(player, r, c));
  }
}
