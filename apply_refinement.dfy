/** The bit-parallel `apply` against the dense one: on agreeing boards, the
    discs the fills of crates/othello_game/src/bitboardgame.rs turn over are
    exactly the runs the walks of crates/othello_game/src/default.rs flip, so
    both boards agree after the move. */
module ApplyRefinement {
  import opened Core
  import opened Direction
  import Bits
  import opened Bitboard
  import opened Refinement
  import BG = BitboardGame
  import DB = DefaultBoard

  // ---------------------------------------------------------------------
  // Walks from the move square.

  /** The walk goes on from each of its squares. */
  lemma {:induction false} WalkSuffix(row: int, col: int, dy: int, dx: int, m: nat)
    requires IsUnit(dy, dx) && m < |Walk(row, col, dy, dx)|
    ensures Walk(row, col, dy, dx)[m + 1..] == Walk(Walk(row, col, dy, dx)[m].0, Walk(row, col, dy, dx)[m].1, dy, dx)
    decreases m
  {
    var w := Walk(row, col, dy, dx);
    var rest := Walk(row + dy, col + dx, dy, dx);
    assert w == [(row + dy, col + dx)] + rest;
    if m > 0 {
      WalkSuffix(row + dy, col + dx, dy, dx, m - 1);
      assert w[m + 1..] == rest[m..];
      assert w[m] == rest[m - 1];
    }
  }

  /** A walk never comes back to its starting square. */
  lemma WalkAvoidsStart(row: int, col: int, dy: int, dx: int)
    requires IsUnit(dy, dx)
    ensures (row, col) !in Walk(row, col, dy, dx)
  {
    var w := Walk(row, col, dy, dx);
    if (row, col) in w {
      var m :| 0 <= m < |w| && w[m] == (row, col);
      WalkRoom(row, col, dy, dx, m);
    }
  }

  /** The first j squares of w are in s. */
  ghost predicate PrefixIn(s: set<(int, int)>, w: seq<(int, int)>, j: nat)
  {
    j <= |w| && forall i :: 0 <= i < j ==> w[i] in s
  }

  /** A chain from the move square along (dy, dx) ends on the walk from it,
      after a prefix of the walk in `pro`. */
  lemma {:induction false} ChainOnWalk(p: set<(int, int)>, row: int, col: int, dy: int, dx: int, r: int, c: int, j: nat)
    requires OnBoard(row, col) && OnBoard(r, c) && IsUnit(dy, dx) && j > 0
    requires SetChain({(row, col)}, p, dy, dx, r, c, j)
    ensures j <= |Walk(row, col, dy, dx)| && Walk(row, col, dy, dx)[j - 1] == (r, c)
    ensures PrefixIn(p, Walk(row, col, dy, dx), j)
    decreases j
  {
    var w := Walk(row, col, dy, dx);
    var (pr, pc) := (r - dy, c - dx);
    assert (r, c) in p && OnBoard(pr, pc) && SetChain({(row, col)}, p, dy, dx, pr, pc, j - 1);
    var rest := Walk(pr, pc, dy, dx);
    assert rest == [(r, c)] + Walk(r, c, dy, dx);
    if j == 1 {
      assert (pr, pc) == (row, col);
      assert w == rest;
    } else {
      ChainOnWalk(p, row, col, dy, dx, pr, pc, j - 1);
      WalkSuffix(row, col, dy, dx, j - 2);
      assert w[j - 1..] == rest;
      assert w[j - 1] == rest[0];
    }
  }

  /** ... and every prefix of the walk in `pro` is such a chain. */
  lemma {:induction false} WalkChain(p: set<(int, int)>, row: int, col: int, dy: int, dx: int, j: nat)
    requires OnBoard(row, col) && IsUnit(dy, dx) && j > 0
    requires PrefixIn(p, Walk(row, col, dy, dx), j)
    ensures SetChain({(row, col)}, p, dy, dx, Walk(row, col, dy, dx)[j - 1].0, Walk(row, col, dy, dx)[j - 1].1, j)
    decreases j
  {
    var w := Walk(row, col, dy, dx);
    if j > 1 {
      WalkChain(p, row, col, dy, dx, j - 1);
      WalkSuffix(row, col, dy, dx, j - 2);
      assert w[j - 1] == (w[j - 2].0 + dy, w[j - 2].1 + dx);
    }
  }

  /** A fill of up to n steps from the move square reaches the m-th square
      of the walk exactly when m < n and the walk up to it is in `pro`. */
  lemma {:induction false} WithinOnWalk(p: set<(int, int)>, row: int, col: int, dy: int, dx: int, m: nat, n: nat)
    requires OnBoard(row, col) && IsUnit(dy, dx) && m < |Walk(row, col, dy, dx)|
    ensures ChainWithin({(row, col)}, p, dy, dx, Walk(row, col, dy, dx)[m].0, Walk(row, col, dy, dx)[m].1, n) <==>
      m < n && PrefixIn(p, Walk(row, col, dy, dx), m + 1)
    decreases n
  {
    var w := Walk(row, col, dy, dx);
    if n > 0 {
      WithinOnWalk(p, row, col, dy, dx, m, n - 1);
      if SetChain({(row, col)}, p, dy, dx, w[m].0, w[m].1, n) {
        ChainOnWalk(p, row, col, dy, dx, w[m].0, w[m].1, n);
        if n - 1 < m {
          WalkDistinct(row, col, dy, dx, n - 1, m);
        } else if m < n - 1 {
          WalkDistinct(row, col, dy, dx, m, n - 1);
        }
      }
      if m + 1 == n && PrefixIn(p, w, m + 1) {
        WalkChain(p, row, col, dy, dx, n);
      }
    }
  }

  /** The fill from the move square reaches no square off the walk other
      than its start. */
  lemma {:induction false} WithinOffWalk(p: set<(int, int)>, row: int, col: int, dy: int, dx: int, r: int, c: int, n: nat)
    requires OnBoard(row, col) && OnBoard(r, c) && IsUnit(dy, dx) && (r, c) !in Walk(row, col, dy, dx)
    ensures !ChainWithin({(row, col)}, p, dy, dx, r, c, n)
    decreases n
  {
    if n > 0 {
      WithinOffWalk(p, row, col, dy, dx, r, c, n - 1);
      if SetChain({(row, col)}, p, dy, dx, r, c, n) {
        ChainOnWalk(p, row, col, dy, dx, r, c, n);
      }
    }
  }

  /** Every chain of one step or more ends in `pro`. */
  lemma {:induction false} WithinInPro(gen: set<(int, int)>, pro: set<(int, int)>, dr: int, dc: int, r: int, c: int, n: nat)
    requires OnBoard(r, c) && ChainWithin(gen, pro, dr, dc, r, c, n)
    ensures (r, c) in pro
    decreases n
  {
    if !SetChain(gen, pro, dr, dc, r, c, n) {
      WithinInPro(gen, pro, dr, dc, r, c, n - 1);
    }
  }

  /** ChainWithinRun with the walk's step (dy, dx): a fill of up to n steps
      from the mover's discs against (dy, dx) reaches the square one step
      from (pr, pc) exactly when the walk on from (pr, pc) is a run of 1 to
      n discs. */
  lemma ToWithinStep(g: set<(int, int)>, p: set<(int, int)>, d: DB.DefaultBoard, player: Colour, pr: int, pc: int, dy: int, dx: int, n: nat)
    requires SetsMatch(g, p, d, player) && OnBoard(pr, pc) && IsUnit(dy, dx) && OnBoard(pr + dy, pc + dx)
    ensures ChainWithin(g, p, -dy, -dx, pr + dy, pc + dx, n) <==>
      match DB.RunLength(d, player, Walk(pr, pc, dy, dx))
      case None => false
      case Some(k) => 1 <= k <= n
  {
    var dr, dc := -dy, -dx;
    assert Walk(pr, pc, -dr, -dc) == Walk(pr, pc, dy, dx);
    assert (pr - dr, pc - dc) == (pr + dy, pc + dx);
    ChainWithinRun(g, p, d, player, dr, dc, pr, pc, n);
  }

  /** The first square of a walk is one step on from its start. */
  lemma WalkFirst(row: int, col: int, dy: int, dx: int)
    requires IsUnit(dy, dx) && 0 < |Walk(row, col, dy, dx)|
    ensures Walk(row, col, dy, dx)[0] == (row + dy, col + dx)
    ensures Walk(row, col, dy, dx)[0..] == Walk(row, col, dy, dx)
  {
  }

  /** Every later square is one step on from the square before it, and the
      walk from that square is the rest of the walk. */
  lemma WalkNext(row: int, col: int, dy: int, dx: int, m: nat)
    requires IsUnit(dy, dx) && 0 < m < |Walk(row, col, dy, dx)|
    ensures Walk(row, col, dy, dx)[m] == (Walk(row, col, dy, dx)[m - 1].0 + dy, Walk(row, col, dy, dx)[m - 1].1 + dx)
    ensures Walk(row, col, dy, dx)[m..] == Walk(Walk(row, col, dy, dx)[m - 1].0, Walk(row, col, dy, dx)[m - 1].1, dy, dx)
  {
    var w := Walk(row, col, dy, dx);
    WalkSuffix(row, col, dy, dx, m - 1);
    var rest := Walk(w[m - 1].0, w[m - 1].1, dy, dx);
    assert w[m..] == rest;
    assert rest[0] == w[m];
  }

  /** The square a walk reaches its m-th square from. */
  lemma WalkBefore(row: int, col: int, dy: int, dx: int, m: nat) returns (pr: int, pc: int)
    requires IsUnit(dy, dx) && m < |Walk(row, col, dy, dx)| && OnBoard(row, col)
    ensures OnBoard(pr, pc)
    ensures Walk(row, col, dy, dx)[m] == (pr + dy, pc + dx)
    ensures Walk(row, col, dy, dx)[m..] == Walk(pr, pc, dy, dx)
  {
    if m == 0 {
      WalkFirst(row, col, dy, dx);
      pr, pc := row, col;
    } else {
      WalkNext(row, col, dy, dx, m);
      pr, pc := Walk(row, col, dy, dx)[m - 1].0, Walk(row, col, dy, dx)[m - 1].1;
    }
  }

  /** A fill of up to n steps from the mover's discs against (dy, dx)
      reaches the m-th square of the walk exactly when the walk on from that
      square is a run of 1 to n discs. */
  lemma ToWithinOnWalk(g: set<(int, int)>, p: set<(int, int)>, d: DB.DefaultBoard, player: Colour, row: int, col: int, dy: int, dx: int, m: nat, n: nat)
    requires SetsMatch(g, p, d, player) && OnBoard(row, col) && IsUnit(dy, dx) && m < |Walk(row, col, dy, dx)|
    ensures ChainWithin(g, p, -dy, -dx, Walk(row, col, dy, dx)[m].0, Walk(row, col, dy, dx)[m].1, n) <==>
      match DB.RunLength(d, player, Walk(row, col, dy, dx)[m..])
      case None => false
      case Some(k) => 1 <= k <= n
  {
    var pr, pc := WalkBefore(row, col, dy, dx, m);
    ToWithinStep(g, p, d, player, pr, pc, dy, dx, n);
  }

  /** After a prefix of opponent discs the run goes on unchanged. */
  lemma {:induction false} RunAfterPrefix(g: set<(int, int)>, p: set<(int, int)>, d: DB.DefaultBoard, player: Colour, w: seq<(int, int)>, i: nat)
    requires SetsMatch(g, p, d, player) && DB.OnBoardAll(w) && PrefixIn(p, w, i)
    ensures DB.RunLength(d, player, w) ==
      match DB.RunLength(d, player, w[i..])
      case None => None
      case Some(k) => Some(k + i)
    decreases i
  {
    if i > 0 {
      assert w[0] in p;
      assert forall t :: 0 <= t < i - 1 ==> w[1..][t] == w[t + 1];
      RunAfterPrefix(g, p, d, player, w[1..], i - 1);
      assert w[1..][i - 1..] == w[i..];
    } else {
      assert w[0..] == w;
    }
  }

  /** A fill reaches a square: it starts there, or a chain of 1 to 6 steps
      ends there. */
  ghost predicate Reach(gen: set<(int, int)>, pro: set<(int, int)>, dr: int, dc: int, r: int, c: int)
    requires OnBoard(r, c)
  {
    (r, c) in gen || ChainWithin(gen, pro, dr, dc, r, c, FILL_STEPS)
  }

  /** The move square is in neither fill's intersection nor in any run. */
  lemma FlipWalkStart(g: set<(int, int)>, p: set<(int, int)>, d: DB.DefaultBoard, player: Colour, row: int, col: int, dy: int, dx: int)
    requires SetsMatch(g, p, d, player) && OnBoard(row, col) && IsUnit(dy, dx) && DB.Get(d, row, col) == None
    ensures !Reach(g, p, -dy, -dx, row, col)
    ensures !DB.InRun(d, player, Walk(row, col, dy, dx), row, col)
  {
    if ChainWithin(g, p, -dy, -dx, row, col, FILL_STEPS) {
      WithinInPro(g, p, -dy, -dx, row, col, FILL_STEPS);
    }
    WalkAvoidsStart(row, col, dy, dx);
    if DB.InRun(d, player, Walk(row, col, dy, dx), row, col) {
      DB.InRunOnWalk(d, player, Walk(row, col, dy, dx), row, col);
    }
  }

  /** Off the walk and off the move square nothing is in a run, and the
      fill from the move square does not get there. */
  lemma FlipWalkOff(p: set<(int, int)>, d: DB.DefaultBoard, player: Colour, row: int, col: int, dy: int, dx: int, r: int, c: int)
    requires OnBoard(row, col) && OnBoard(r, c) && IsUnit(dy, dx)
    requires (r, c) != (row, col) && (r, c) !in Walk(row, col, dy, dx)
    ensures !Reach({(row, col)}, p, dy, dx, r, c)
    ensures !DB.InRun(d, player, Walk(row, col, dy, dx), r, c)
  {
    WithinOffWalk(p, row, col, dy, dx, r, c, FILL_STEPS);
    if DB.InRun(d, player, Walk(row, col, dy, dx), r, c) {
      DB.InRunOnWalk(d, player, Walk(row, col, dy, dx), r, c);
    }
  }

  /** The m-th square of a walk is in its run exactly when the run is
      longer than m. */
  lemma InRunAt(d: DB.DefaultBoard, player: Colour, row: int, col: int, dy: int, dx: int, m: nat)
    requires IsUnit(dy, dx) && m < |Walk(row, col, dy, dx)|
    ensures DB.InRun(d, player, Walk(row, col, dy, dx), Walk(row, col, dy, dx)[m].0, Walk(row, col, dy, dx)[m].1) <==>
      match DB.RunLength(d, player, Walk(row, col, dy, dx))
      case None => false
      case Some(n) => m < n
  {
    var w := Walk(row, col, dy, dx);
    match DB.RunLength(d, player, w)
    case None =>
    case Some(n) =>
      DB.RunLengthIff(d, player, w, n);
      if w[m] in w[..n] {
        var j :| 0 <= j < n && w[..n][j] == w[m];
        if j < m {
          WalkDistinct(row, col, dy, dx, j, m);
        } else if m < j {
          WalkDistinct(row, col, dy, dx, m, j);
        }
      }
      if m < n {
        assert w[..n][m] == w[m];
      }
  }

  /** A run longer than m: the first m + 1 squares hold opponent discs and
      the run from square m on has 1 to 6 of them, walks being at most 7
      long. */
  lemma RunPrefix(g: set<(int, int)>, p: set<(int, int)>, d: DB.DefaultBoard, player: Colour, w: seq<(int, int)>, m: nat)
    requires SetsMatch(g, p, d, player) && DB.OnBoardAll(w) && m < |w| <= 7
    ensures (m < FILL_STEPS && PrefixIn(p, w, m + 1) &&
             match DB.RunLength(d, player, w[m..]) case None => false case Some(k) => 1 <= k <= FILL_STEPS) <==>
      match DB.RunLength(d, player, w)
      case None => false
      case Some(n) => m < n
  {
    if PrefixIn(p, w, m + 1) {
      RunAfterPrefix(g, p, d, player, w, m);
    }
    match DB.RunLength(d, player, w)
    case None =>
    case Some(n) =>
      if m < n {
        DB.RunLengthIff(d, player, w, n);
        assert PrefixIn(p, w, m + 1);
        RunAfterPrefix(g, p, d, player, w, m);
      }
  }

  /** The m-th square of the walk is in a run exactly when both fills
      reach it. */
  lemma FlipWalkOn(g: set<(int, int)>, p: set<(int, int)>, d: DB.DefaultBoard, player: Colour, row: int, col: int, dy: int, dx: int, m: nat)
    requires SetsMatch(g, p, d, player) && OnBoard(row, col) && IsUnit(dy, dx) && m < |Walk(row, col, dy, dx)|
    ensures (Reach(g, p, -dy, -dx, Walk(row, col, dy, dx)[m].0, Walk(row, col, dy, dx)[m].1) &&
             Reach({(row, col)}, p, dy, dx, Walk(row, col, dy, dx)[m].0, Walk(row, col, dy, dx)[m].1)) <==>
      DB.InRun(d, player, Walk(row, col, dy, dx), Walk(row, col, dy, dx)[m].0, Walk(row, col, dy, dx)[m].1)
  {
    var w := Walk(row, col, dy, dx);
    WalkAvoidsStart(row, col, dy, dx);
    assert w[m] in w;
    WithinOnWalk(p, row, col, dy, dx, m, FILL_STEPS);
    ToWithinOnWalk(g, p, d, player, row, col, dy, dx, m, FILL_STEPS);
    WalkAtMostSeven(row, col, dy, dx);
    RunPrefix(g, p, d, player, w, m);
    InRunAt(d, player, row, col, dy, dx, m);
  }

  /** On the dense board, for an empty move square: a square reached both
      by the fill from the mover's discs against (dy, dx) and by the fill
      from the move square along (dy, dx) is exactly a square of the run the
      move closes along (dy, dx). */
  lemma FlipWalk(g: set<(int, int)>, p: set<(int, int)>, d: DB.DefaultBoard, player: Colour, row: int, col: int, dy: int, dx: int, r: int, c: int)
    requires SetsMatch(g, p, d, player) && OnBoard(row, col) && OnBoard(r, c) && IsUnit(dy, dx)
    requires DB.Get(d, row, col) == None
    ensures (Reach(g, p, -dy, -dx, r, c) && Reach({(row, col)}, p, dy, dx, r, c)) <==>
      DB.InRun(d, player, Walk(row, col, dy, dx), r, c)
  {
    var w := Walk(row, col, dy, dx);
    if (r, c) == (row, col) {
      FlipWalkStart(g, p, d, player, row, col, dy, dx);
    } else if (r, c) in w {
      var m :| 0 <= m < |w| && w[m] == (r, c);
      FlipWalkOn(g, p, d, player, row, col, dy, dx, m);
    } else {
      FlipWalkOff(p, d, player, row, col, dy, dx, r, c);
    }
  }

  // ---------------------------------------------------------------------
  // The fills of `apply`.

  /** `dumb7fill` holds a square exactly when it reaches it (shift amount
      and step abstract). */
  lemma FillCell(gen: BitBoard, pro: BitBoard, g: set<(int, int)>, p: set<(int, int)>, shift: int, dr: int, dc: int, r: int, c: int)
    requires Represents(gen, g) && Represents(pro, p) && OnBoard(r, c)
    requires -64 < shift < 64 && Steps(gen, pro, shift, dr, dc)
    ensures Bit(Fill(gen, pro, shift), r, c) <==> Reach(g, p, dr, dc, r, c)
  {
    StepsFlood(gen, gen, pro, shift, dr, dc, FILL_STEPS, r, c);
    SomeChainIff(gen, pro, g, p, dr, dc, r, c, FILL_STEPS);
  }

  /** ... for a shift amount and step that behave like a direction. */
  lemma SteppingFill(gen: BitBoard, pro: BitBoard, g: set<(int, int)>, p: set<(int, int)>, shift: int, dr: int, dc: int, r: int, c: int)
    requires Represents(gen, g) && Represents(pro, p) && OnBoard(r, c) && Stepping(shift, dr, dc)
    ensures Bit(Fill(gen, pro, shift), r, c) <==> Reach(g, p, dr, dc, r, c)
  {
    assert Steps(gen, pro, shift, dr, dc);
    FillCell(gen, pro, g, p, shift, dr, dc, r, c);
  }

  /** Both fills hold a square exactly when it is in the run the move
      closes along the walk step. */
  lemma FlipsAlong(mine: BitBoard, theirs: BitBoard, movBb: BitBoard, g: set<(int, int)>, p: set<(int, int)>, d: DB.DefaultBoard, player: Colour,
                   row: int, col: int, s1: int, s2: int, dy: int, dx: int, r: int, c: int)
    requires SetsMatch(g, p, d, player) && OnBoard(row, col) && OnBoard(r, c) && IsUnit(dy, dx) && DB.Get(d, row, col) == None
    requires -64 < s1 < 64 && -64 < s2 < 64
    requires Bit(Fill(mine, theirs, s1), r, c) <==> Reach(g, p, -dy, -dx, r, c)
    requires Bit(Fill(movBb, theirs, s2), r, c) <==> Reach({(row, col)}, p, dy, dx, r, c)
    ensures Bit(And(Fill(mine, theirs, s1), Fill(movBb, theirs, s2)), r, c) <==> DB.InRun(d, player, Walk(row, col, dy, dx), r, c)
  {
    AndCell(Fill(mine, theirs, s1), Fill(movBb, theirs, s2), r, c);
    FlipWalk(g, p, d, player, row, col, dy, dx, r, c);
  }

  /** `dumb7fill` in direction dir. */
  lemma DirFill(gen: BitBoard, pro: BitBoard, g: set<(int, int)>, p: set<(int, int)>, dir: Bits.ShiftDir, r: int, c: int)
    requires Represents(gen, g) && Represents(pro, p) && OnBoard(r, c)
    ensures Bit(Fill(gen, pro, dir.Shift()), r, c) <==> Reach(g, p, dir.DRow(), dir.DCol(), r, c)
  {
    SteppingHolds(dir);
    SteppingFill(gen, pro, g, p, dir.Shift(), dir.DRow(), dir.DCol(), r, c);
  }

  /** The move square's mask holds just the move square. */
  lemma SquareRepresents(row: int, col: int)
    requires OnBoard(row, col)
    ensures Represents(FromSquare(row, col), {(row, col)})
  {
    forall r, c | OnBoard(r, c)
      ensures Bit(FromSquare(row, col), r, c) <==> (r, c) in {(row, col)}
    {
      FromSquareCell(row, col, r, c);
    }
  }

  /** The discs direction dir captures are the run the dense `flip` paints
      along the opposite walk. */
  lemma DirFlipsCell(mine: BitBoard, theirs: BitBoard, g: set<(int, int)>, p: set<(int, int)>, d: DB.DefaultBoard, player: Colour,
                     dir: Bits.ShiftDir, row: int, col: int, r: int, c: int)
    requires Represents(mine, g) && Represents(theirs, p) && SetsMatch(g, p, d, player)
    requires OnBoard(row, col) && OnBoard(r, c) && DB.Get(d, row, col) == None
    ensures Bit(BG.DirFlips(mine, theirs, FromSquare(row, col), dir), r, c) <==>
      DB.InRun(d, player, Walk(row, col, -dir.DRow(), -dir.DCol()), r, c)
  {
    BG.DirFlipsFills(mine, theirs, FromSquare(row, col), dir);
    DirFill(mine, theirs, g, p, dir, r, c);
    MoveFill(theirs, p, dir.Reverse(), row, col, r, c);
    DirUnit(dir);
    FlipsBack(mine, theirs, FromSquare(row, col), g, p, d, player, row, col, dir.Shift(), dir.Reverse().Shift(), dir.DRow(), dir.DCol(), r, c);
  }

  /** `dumb7fill` from the move square alone. */
  lemma MoveFill(theirs: BitBoard, p: set<(int, int)>, dir: Bits.ShiftDir, row: int, col: int, r: int, c: int)
    requires Represents(theirs, p) && OnBoard(row, col) && OnBoard(r, c)
    ensures Bit(Fill(FromSquare(row, col), theirs, dir.Shift()), r, c) <==> Reach({(row, col)}, p, dir.DRow(), dir.DCol(), r, c)
  {
    SquareRepresents(row, col);
    DirFill(FromSquare(row, col), theirs, {(row, col)}, p, dir, r, c);
  }

  /** FlipsAlong for the step (a, b) of a shift, the move walking by
      (-a, -b). */
  lemma FlipsBack(mine: BitBoard, theirs: BitBoard, movBb: BitBoard, g: set<(int, int)>, p: set<(int, int)>, d: DB.DefaultBoard, player: Colour,
                  row: int, col: int, s1: int, s2: int, a: int, b: int, r: int, c: int)
    requires SetsMatch(g, p, d, player) && OnBoard(row, col) && OnBoard(r, c) && IsUnit(-a, -b) && DB.Get(d, row, col) == None
    requires -64 < s1 < 64 && -64 < s2 < 64
    requires Bit(Fill(mine, theirs, s1), r, c) <==> Reach(g, p, a, b, r, c)
    requires Bit(Fill(movBb, theirs, s2), r, c) <==> Reach({(row, col)}, p, -a, -b, r, c)
    ensures Bit(And(Fill(mine, theirs, s1), Fill(movBb, theirs, s2)), r, c) <==> DB.InRun(d, player, Walk(row, col, -a, -b), r, c)
  {
    assert -(-a) == a && -(-b) == b;
    FlipsAlong(mine, theirs, movBb, g, p, d, player, row, col, s1, s2, -a, -b, r, c);
  }

  // ---------------------------------------------------------------------
  // All eight directions.

  /** Square (r, c) is in the run of the walk opposite to dir. */
  ghost predicate DirRun(d: DB.DefaultBoard, player: Colour, row: int, col: int, dir: Bits.ShiftDir, r: int, c: int)
  {
    DB.InRun(d, player, Walk(row, col, -dir.DRow(), -dir.DCol()), r, c)
  }

  /** Square (r, c) is in the run of the walk opposite to one of the
      directions of ds. */
  ghost predicate CapturesOf(d: DB.DefaultBoard, player: Colour, row: int, col: int, r: int, c: int, ds: seq<Bits.ShiftDir>)
    decreases |ds|, d
  {
    |ds| > 0 &&
    (CapturesOf(d, player, row, col, r, c, ds[..|ds| - 1]) || DirRun(d, player, row, col, ds[|ds| - 1], r, c))
  }

  /** Every direction's flips at (r, c) are its runs. */
  ghost predicate DirsCapture(mine: BitBoard, theirs: BitBoard, movBb: BitBoard, d: DB.DefaultBoard, player: Colour, row: int, col: int, r: int, c: int)
  {
    OnBoard(r, c) &&
    forall dir: Bits.ShiftDir ::
      Bit(BG.DirFlips(mine, theirs, movBb, dir), r, c) <==> DirRun(d, player, row, col, dir, r, c)
  }

  lemma DirsCaptureHold(mine: BitBoard, theirs: BitBoard, g: set<(int, int)>, p: set<(int, int)>, d: DB.DefaultBoard, player: Colour, row: int, col: int, r: int, c: int)
    requires Represents(mine, g) && Represents(theirs, p) && SetsMatch(g, p, d, player)
    requires OnBoard(row, col) && OnBoard(r, c) && DB.Get(d, row, col) == None
    ensures DirsCapture(mine, theirs, FromSquare(row, col), d, player, row, col, r, c)
  {
    forall dir: Bits.ShiftDir
      ensures Bit(BG.DirFlips(mine, theirs, FromSquare(row, col), dir), r, c) <==> DirRun(d, player, row, col, dir, r, c)
    {
      DirFlipsCell(mine, theirs, g, p, d, player, dir, row, col, r, c);
    }
  }

  /** The union of the flips in the directions of ds. */
  lemma {:induction false} FlipUnionCell(mine: BitBoard, theirs: BitBoard, movBb: BitBoard, d: DB.DefaultBoard, player: Colour,
                                         row: int, col: int, ds: seq<Bits.ShiftDir>, r: int, c: int)
    requires DirsCapture(mine, theirs, movBb, d, player, row, col, r, c)
    ensures Bit(BG.FlipUnion(mine, theirs, movBb, ds), r, c) <==> CapturesOf(d, player, row, col, r, c, ds)
    decreases |ds|
  {
    if |ds| == 0 {
      EmptyCell(r, c);
    } else {
      FlipUnionCell(mine, theirs, movBb, d, player, row, col, ds[..|ds| - 1], r, c);
      OrCell(BG.FlipUnion(mine, theirs, movBb, ds[..|ds| - 1]), BG.DirFlips(mine, theirs, movBb, ds[|ds| - 1]), r, c);
    }
  }

  lemma {:induction false} CapturesOfSome(d: DB.DefaultBoard, player: Colour, row: int, col: int, r: int, c: int, ds: seq<Bits.ShiftDir>)
    requires CapturesOf(d, player, row, col, r, c, ds)
    ensures DB.Captures(d, player, row, col, r, c)
    decreases |ds|
  {
    var dir := ds[|ds| - 1];
    if DirRun(d, player, row, col, dir, r, c) {
      DirUnit(dir);
      assert IsUnit(-dir.DRow(), -dir.DCol()) && DB.InRun(d, player, Walk(row, col, -dir.DRow(), -dir.DCol()), r, c);
    } else {
      CapturesOfSome(d, player, row, col, r, c, ds[..|ds| - 1]);
    }
  }

  lemma {:induction false} CapturesOfAt(d: DB.DefaultBoard, player: Colour, row: int, col: int, r: int, c: int, ds: seq<Bits.ShiftDir>, i: nat)
    requires i < |ds| && DirRun(d, player, row, col, ds[i], r, c)
    ensures CapturesOf(d, player, row, col, r, c, ds)
    decreases |ds|
  {
    if i < |ds| - 1 {
      assert ds[..|ds| - 1][i] == ds[i];
      CapturesOfAt(d, player, row, col, r, c, ds[..|ds| - 1], i);
    }
  }

  /** Reversed, the eight shift directions are all the unit offsets. */
  lemma CapturesAll(d: DB.DefaultBoard, player: Colour, row: int, col: int, r: int, c: int)
    ensures CapturesOf(d, player, row, col, r, c, Bits.SHIFT_DIRS) <==> DB.Captures(d, player, row, col, r, c)
  {
    if CapturesOf(d, player, row, col, r, c, Bits.SHIFT_DIRS) {
      CapturesOfSome(d, player, row, col, r, c, Bits.SHIFT_DIRS);
    }
    if DB.Captures(d, player, row, col, r, c) {
      var dy, dx :| IsUnit(dy, dx) && DB.InRun(d, player, Walk(row, col, dy, dx), r, c);
      var i := DirIndex(dy, dx);
      assert DirRun(d, player, row, col, Bits.SHIFT_DIRS[i], r, c);
      CapturesOfAt(d, player, row, col, r, c, Bits.SHIFT_DIRS, i);
    }
  }

  // ---------------------------------------------------------------------
  // The two `apply`s.

  /** On agreeing boards, for an empty move square, the bit board turns
      over exactly the discs the dense board captures. */
  lemma FlipsCell(bb: BG.BitBoardBoard, d: DB.DefaultBoard, mov: Move, r: int, c: int)
    requires Agree(bb, d) && OnBoard(mov.row, mov.col) && OnBoard(r, c) && DB.Get(d, mov.row, mov.col) == None
    ensures Bit(BG.Flips(bb, mov), r, c) <==> DB.Captures(d, mov.player, mov.row, mov.col, r, c)
  {
    var (mine, theirs) := BG.Sides(bb, mov.player);
    CellsRepresents(mine);
    CellsRepresents(theirs);
    SidesMatch(bb, d, mov.player);
    DirsCaptureHold(mine, theirs, Cells(mine), Cells(theirs), d, mov.player, mov.row, mov.col, r, c);
    FlipUnionCell(mine, theirs, FromSquare(mov.row, mov.col), d, mov.player, mov.row, mov.col, Bits.SHIFT_DIRS, r, c);
    CapturesAll(d, mov.player, mov.row, mov.col, r, c);
  }

  /** `apply` on agreeing boards, to an empty square, gives agreeing
      boards. */
  lemma ApplyAgree(bb: BG.BitBoardBoard, d: DB.DefaultBoard, mov: Move)
    requires Agree(bb, d) && OnBoard(mov.row, mov.col) && DB.Get(d, mov.row, mov.col) == None
    ensures Agree(BG.Applied(bb, mov), DB.Applied(d, mov))
  {
    assert BG.Get(bb, mov.row, mov.col) == None;
    BG.ApplyEffect(bb, mov);
    forall r, c | OnBoard(r, c)
      ensures BG.Get(BG.Applied(bb, mov), r, c) == DB.Get(DB.Applied(d, mov), r, c)
    {
      BG.ApplyCell(bb, mov, r, c);
      DB.ApplyCell(d, mov, r, c);
      FlipsCell(bb, d, mov, r, c);
    }
  }

  /** ... in particular for every legal move, the moves the repository's
      test plays on both boards. */
  lemma ApplyValidAgree(bb: BG.BitBoardBoard, d: DB.DefaultBoard, mov: Move)
    requires Agree(bb, d) && OnBoard(mov.row, mov.col) && DB.IsValidMove(d, mov)
    ensures Agree(BG.Applied(bb, mov), DB.Applied(d, mov))
  {
    DB.ValidMoveIff(d, mov);
    ApplyAgree(bb, d, mov);
  }
}
