/** The fail-hard alpha-beta search of crates/othello_ai/src/alphabeta.rs.
    Each level loops over the moves of the player it evaluates for (not the
    opponent's, as the minimax search does), searches the game after each
    with the window (-beta, -alpha) from the opponent's side, returns beta
    as soon as a negated child score reaches it, and otherwise returns the
    raised alpha.  The reference is the plain negamax value of the same
    tree, with a player left without a move valued -INF. */
module AlphaBeta {
  import opened Core
  import Boards
  import Games
  import AI

  /** The bound of the window `choose_move` opens. */
  const INF: int := 1_000_000

  function Max(a: int, b: int): int
  {
    if a >= b then a else b
  }

  function Min(a: int, b: int): int
  {
    if a <= b then a else b
  }

  /** v forced into [lo, hi]. */
  function Clamp(v: int, lo: int, hi: int): int
  {
    Min(Max(v, lo), hi)
  }

  // ---------------------------------------------------------------------
  // The search as the source runs it.

  /** What `evaluate_to_depth(g, player, alpha, beta, depth)` returns. */
  function Search(g: Games.GameRepr, player: Colour, alpha: int, beta: int, depth: nat): int
    requires Games.Valid(g)
    decreases depth, 0
  {
    if depth == 0 then AI.EvaluateImmediate(g, player)
    else Scan(g, player, alpha, beta, depth - 1, 0)
  }

  /** The loop over the player's moves from index k on, with alpha as the
      loop has raised it so far. */
  function Scan(g: Games.GameRepr, player: Colour, alpha: int, beta: int, below: nat, k: nat): int
    requires Games.Valid(g) && k <= |Games.ValidMoves(g, player)|
    decreases below, 2, |Games.ValidMoves(g, player)| - k
  {
    var moves := Games.ValidMoves(g, player);
    if k == |moves| then alpha
    else
      var score := Child(g, player, moves[k], alpha, beta, below);
      if score >= beta then beta
      else Scan(g, player, if score > alpha then score else alpha, beta, below, k + 1)
  }

  /** One move's score: the game after it, searched from the opponent's
      side with the window negated and swapped, negated back. */
  function Child(g: Games.GameRepr, player: Colour, m: Move, alpha: int, beta: int, below: nat): int
    requires Games.Valid(g) && m in Games.ValidMoves(g, player)
    decreases below, 1
  {
    Games.ApplyListed(g, player, m);
    -Search(Games.Apply(g, m), player.Opponent(), -beta, -alpha, below)
  }

  /** `evaluate_to_depth`: the evaluation at depth 0, otherwise the loop
      over the player's moves with the cutoff returning beta at once. */
  method EvaluateToDepth(g: Games.GameRepr, player: Colour, alpha: int, beta: int, depth: nat) returns (result: int)
    requires Games.Valid(g)
    ensures result == Search(g, player, alpha, beta, depth)
    decreases depth
  {
    if depth == 0 {
      return AI.EvaluateImmediate(g, player);
    }
    var opponent := player.Opponent();
    var moves := Games.ValidMoves(g, player);
    var a := alpha;
    for k := 0 to |moves|
      invariant Scan(g, player, a, beta, depth - 1, k) == Search(g, player, alpha, beta, depth)
    {
      var mov := moves[k];
      Games.ApplyListed(g, player, mov);
      var s := EvaluateToDepth(Games.Apply(g, mov), opponent, -beta, -a, depth - 1);
      var score := -s;
      ScanStep(g, player, a, beta, depth - 1, k, score);
      if score >= beta {
        return beta;
      }
      if score > a {
        a := score;
      }
    }
    return a;
  }

  /** One turn of the loop: the move's score either cuts off with beta or
      raises alpha for the rest of the loop. */
  lemma ScanStep(g: Games.GameRepr, player: Colour, alpha: int, beta: int, below: nat, k: nat, score: int)
    requires Games.Valid(g) && k < |Games.ValidMoves(g, player)|
    requires score == Child(g, player, Games.ValidMoves(g, player)[k], alpha, beta, below)
    ensures Scan(g, player, alpha, beta, below, k) ==
      if score >= beta then beta else Scan(g, player, if score > alpha then score else alpha, beta, below, k + 1)
  {
  }

  // ---------------------------------------------------------------------
  // What the loop guarantees on its own.

  /** Fail-hard: once alpha <= beta, the loop's result lies in [alpha, beta]. */
  lemma {:induction false} ScanHard(g: Games.GameRepr, player: Colour, alpha: int, beta: int, below: nat, k: nat)
    requires Games.Valid(g) && k <= |Games.ValidMoves(g, player)| && alpha <= beta
    ensures alpha <= Scan(g, player, alpha, beta, below, k) <= beta
    decreases |Games.ValidMoves(g, player)| - k
  {
    var moves := Games.ValidMoves(g, player);
    if k < |moves| {
      var score := Child(g, player, moves[k], alpha, beta, below);
      if score < beta {
        ScanHard(g, player, if score > alpha then score else alpha, beta, below, k + 1);
      }
    }
  }

  /** At depth 0 the search is the static evaluation; deeper, a player
      without a move gets alpha back unchanged, the first move whose score
      reaches beta ends the search with beta, and for alpha <= beta the
      result lies in [alpha, beta]. */
  lemma SearchMeaning(g: Games.GameRepr, player: Colour, alpha: int, beta: int, depth: nat)
    requires Games.Valid(g)
    ensures depth == 0 ==> Search(g, player, alpha, beta, depth) == AI.EvaluateImmediate(g, player)
    ensures depth > 0 && |Games.ValidMoves(g, player)| == 0 ==> Search(g, player, alpha, beta, depth) == alpha
    ensures depth > 0 && |Games.ValidMoves(g, player)| > 0 ==>
      (Child(g, player, Games.ValidMoves(g, player)[0], alpha, beta, depth - 1) >= beta ==>
       Search(g, player, alpha, beta, depth) == beta)
    ensures depth > 0 && alpha <= beta ==> alpha <= Search(g, player, alpha, beta, depth) <= beta
  {
    if depth > 0 && alpha <= beta {
      ScanHard(g, player, alpha, beta, depth - 1, 0);
    }
  }

  // ---------------------------------------------------------------------
  // The reference: plain negamax over the same tree.

  /** The negamax value of `g` for `player` searched `depth` levels: the
      evaluation at depth 0, otherwise the best negated value of the moves
      of `player`, and -INF when there is none. */
  function NegaMax(g: Games.GameRepr, player: Colour, depth: nat): int
    requires Games.Valid(g)
    decreases depth, 0
  {
    if depth == 0 then AI.EvaluateImmediate(g, player)
    else BestFrom(g, player, depth - 1, 0)
  }

  /** The best negated value over the player's moves from index k on. */
  function BestFrom(g: Games.GameRepr, player: Colour, below: nat, k: nat): int
    requires Games.Valid(g) && k <= |Games.ValidMoves(g, player)|
    decreases below, 2, |Games.ValidMoves(g, player)| - k
  {
    var moves := Games.ValidMoves(g, player);
    if k == |moves| then -INF
    else Max(Negated(g, player, moves[k], below), BestFrom(g, player, below, k + 1))
  }

  /** One move's negamax value for the player. */
  function Negated(g: Games.GameRepr, player: Colour, m: Move, below: nat): int
    requires Games.Valid(g) && m in Games.ValidMoves(g, player)
    decreases below, 1
  {
    Games.ApplyListed(g, player, m);
    -NegaMax(Games.Apply(g, m), player.Opponent(), below)
  }

  /** Every negamax value lies in [-INF, INF]. */
  lemma {:induction false} NegaMaxBounded(g: Games.GameRepr, player: Colour, depth: nat)
    requires Games.Valid(g)
    ensures -INF <= NegaMax(g, player, depth) <= INF
    decreases depth, 0
  {
    if depth == 0 {
      AI.EvaluateOwn(g, player);
    } else {
      BestFromBounded(g, player, depth - 1, 0);
    }
  }

  lemma {:induction false} BestFromBounded(g: Games.GameRepr, player: Colour, below: nat, k: nat)
    requires Games.Valid(g) && k <= |Games.ValidMoves(g, player)|
    ensures -INF <= BestFrom(g, player, below, k) <= INF
    decreases below, 2, |Games.ValidMoves(g, player)| - k
  {
    var moves := Games.ValidMoves(g, player);
    if k < |moves| {
      NegatedBounded(g, player, moves[k], below);
      BestFromBounded(g, player, below, k + 1);
    }
  }

  lemma {:induction false} NegatedBounded(g: Games.GameRepr, player: Colour, m: Move, below: nat)
    requires Games.Valid(g) && m in Games.ValidMoves(g, player)
    ensures -INF <= Negated(g, player, m, below) <= INF
    decreases below, 1
  {
    Games.ApplyListed(g, player, m);
    NegaMaxBounded(Games.Apply(g, m), player.Opponent(), below);
  }

  // ---------------------------------------------------------------------
  // Alpha-beta against negamax.

  /** Within a window alpha < beta inside [-INF, INF], the search agrees
      with negamax up to the window: both clamp to the same value, and
      below depth 0 the search returns exactly the clamped negamax value.
      So a value inside the window is exact, a value at or below alpha is
      reported at or below alpha, and one at or above beta at or above beta. */
  lemma {:induction false} SearchWindow(g: Games.GameRepr, player: Colour, alpha: int, beta: int, depth: nat)
    requires Games.Valid(g) && -INF <= alpha < beta <= INF
    ensures Clamp(Search(g, player, alpha, beta, depth), alpha, beta) == Clamp(NegaMax(g, player, depth), alpha, beta)
    ensures depth > 0 ==> Search(g, player, alpha, beta, depth) == Clamp(NegaMax(g, player, depth), alpha, beta)
    decreases depth, 0
  {
    if depth > 0 {
      ScanWindow(g, player, alpha, beta, depth - 1, 0);
    }
  }

  /** The loop from index k with the current alpha returns the best
      negated value of the remaining moves, raised to alpha and capped at
      beta. */
  lemma {:induction false} ScanWindow(g: Games.GameRepr, player: Colour, alpha: int, beta: int, below: nat, k: nat)
    requires Games.Valid(g) && k <= |Games.ValidMoves(g, player)| && -INF <= alpha < beta <= INF
    ensures Scan(g, player, alpha, beta, below, k) == Min(Max(alpha, BestFrom(g, player, below, k)), beta)
    decreases below, 2, |Games.ValidMoves(g, player)| - k
  {
    var moves := Games.ValidMoves(g, player);
    if k < |moves| {
      var m := moves[k];
      ChildWindow(g, player, m, alpha, beta, below);
      var score := Child(g, player, m, alpha, beta, below);
      if score < beta {
        ScanWindow(g, player, if score > alpha then score else alpha, beta, below, k + 1);
      }
    }
  }

  /** A move's score agrees with its negamax value up to the window. */
  lemma {:induction false} ChildWindow(g: Games.GameRepr, player: Colour, m: Move, alpha: int, beta: int, below: nat)
    requires Games.Valid(g) && m in Games.ValidMoves(g, player) && -INF <= alpha < beta <= INF
    ensures Clamp(Child(g, player, m, alpha, beta, below), alpha, beta) == Clamp(Negated(g, player, m, below), alpha, beta)
    decreases below, 1
  {
    Games.ApplyListed(g, player, m);
    SearchWindow(Games.Apply(g, m), player.Opponent(), -beta, -alpha, below);
  }

  /** With the window `choose_move` opens the search is exactly negamax. */
  lemma FullWindow(g: Games.GameRepr, player: Colour, depth: nat)
    requires Games.Valid(g)
    ensures Search(g, player, -INF, INF, depth) == NegaMax(g, player, depth)
  {
    SearchWindow(g, player, -INF, INF, depth);
    NegaMaxBounded(g, player, depth);
  }

  // ---------------------------------------------------------------------
  // Choosing a move.

  /** The score `choose_move` gives each listed move of the player to move:
      the game after it searched `depth` levels deep for that same player,
      with the window (-INF, INF). */
  function MoveScores(g: Games.GameRepr, moves: seq<Move>, depth: nat): (keys: seq<int>)
    requires Games.Valid(g) && forall m :: m in moves ==> m in Games.ValidMoves(g, g.nextTurn)
    ensures |keys| == |moves|
  {
    if |moves| == 0 then []
    else
      var m := moves[|moves| - 1];
      Games.ApplyListed(g, g.nextTurn, m);
      MoveScores(g, moves[..|moves| - 1], depth) + [Search(Games.Apply(g, m), g.nextTurn, -INF, INF, depth)]
  }

  /** Each score is the negamax value, for the player who moved, of the
      game after the move. */
  lemma {:induction false} MoveScoresAt(g: Games.GameRepr, moves: seq<Move>, depth: nat, i: int)
    requires Games.Valid(g) && forall m :: m in moves ==> m in Games.ValidMoves(g, g.nextTurn)
    requires 0 <= i < |moves|
    ensures Boards.CanApply(g.board, moves[i]) && Games.Valid(Games.Apply(g, moves[i]))
    ensures MoveScores(g, moves, depth)[i] == NegaMax(Games.Apply(g, moves[i]), g.nextTurn, depth)
  {
    Games.ApplyListed(g, g.nextTurn, moves[i]);
    FullWindow(Games.Apply(g, moves[i]), g.nextTurn, depth);
    if i < |moves| - 1 {
      var init := moves[..|moves| - 1];
      assert init[i] == moves[i];
      MoveScoresAt(g, init, depth, i);
    }
  }

  /** The loop behind `pick_best_move`'s iterator: one search per move. */
  method ScoreMoves(g: Games.GameRepr, moves: seq<Move>, depth: nat) returns (keys: seq<int>)
    requires Games.Valid(g) && forall m :: m in moves ==> m in Games.ValidMoves(g, g.nextTurn)
    ensures keys == MoveScores(g, moves, depth)
  {
    keys := [];
    for k := 0 to |moves|
      invariant keys == MoveScores(g, moves[..k], depth)
    {
      var m := moves[k];
      assert moves[..k + 1][..k] == moves[..k];
      assert m in moves;
      Games.ApplyListed(g, g.nextTurn, m);
      var s := EvaluateToDepth(Games.Apply(g, m), g.nextTurn, -INF, INF, depth);
      keys := keys + [s];
    }
    assert moves[..|moves|] == moves;
  }

  /** `AlphaBetaAI`: the search depth. */
  datatype AlphaBetaAI = AlphaBetaAI(maxDepth: nat)
  {
    /** `choose_move`: `pick_best_move` over the player to move's valid
        moves, each scored by the search of the game after it. */
    method ChooseMove(g: Games.GameRepr) returns (mov: Option<Move>)
      requires Games.Valid(g)
      ensures var moves := Games.ValidMoves(g, g.nextTurn);
        mov == AI.PickBest(moves, MoveScores(g, moves, maxDepth))
    {
      var moves := Games.ValidMoves(g, g.nextTurn);
      var keys := ScoreMoves(g, moves, maxDepth);
      mov := AI.PickBest(moves, keys);
    }
  }

  /** The choice: none exactly when the player to move has no move, and
      otherwise a valid move whose negamax value, for the player who moved,
      is at least that of every valid move. */
  lemma ChoiceMeaning(g: Games.GameRepr, depth: nat, m: Move)
    requires Games.Valid(g) && m in Games.ValidMoves(g, g.nextTurn)
    ensures var moves := Games.ValidMoves(g, g.nextTurn);
      var choice := AI.PickBest(moves, MoveScores(g, moves, depth));
      && choice.Some? && choice.value in moves
      && Boards.CanApply(g.board, m) && Games.Valid(Games.Apply(g, m))
      && Boards.CanApply(g.board, choice.value) && Games.Valid(Games.Apply(g, choice.value))
      && NegaMax(Games.Apply(g, m), g.nextTurn, depth) <= NegaMax(Games.Apply(g, choice.value), g.nextTurn, depth)
  {
    var moves := Games.ValidMoves(g, g.nextTurn);
    var keys := MoveScores(g, moves, depth);
    var i := AI.LastMaxIndex(keys);
    AI.LastMaxIndexBest(keys);
    var j :| 0 <= j < |moves| && moves[j] == m;
    MoveScoresAt(g, moves, depth, i);
    MoveScoresAt(g, moves, depth, j);
  }

  /** Without a move to make there is no choice. */
  lemma NoChoice(g: Games.GameRepr, depth: nat)
    requires Games.Valid(g)
    ensures var moves := Games.ValidMoves(g, g.nextTurn);
      AI.PickBest(moves, MoveScores(g, moves, depth)).None? <==> |moves| == 0
  {
  }
}
