/** The one-ply player of crates/othello_ai/src/immediate.rs: each move of
    the player to move is scored by the static evaluation of the game after
    it, from that player's side, and `pick_best_move` keeps the best. */
module Immediate {
  import opened Core
  import Boards
  import Games
  import AI

  /** `evaluate_move`: the game after the move, evaluated for the player
      whose turn it was. */
  function EvaluateMove(g: Games.GameRepr, mov: Move): int
    requires Boards.CanApply(g.board, mov)
  {
    AI.EvaluateImmediate(Games.Apply(g, mov), g.nextTurn)
  }

  /** A listed move is rated by the mover's discs minus the opponent's on
      the reference board after the reference `apply`; the rating lies in
      -64..64 and is the opponent's rating of the same game, negated. */
  lemma EvaluateMoveMeaning(g: Games.GameRepr, mov: Move)
    requires Games.Valid(g) && mov in Games.ValidMoves(g, g.nextTurn)
    ensures OnBoard(mov.row, mov.col) && Boards.CanApply(g.board, mov)
    ensures EvaluateMove(g, mov) ==
      Boards.DB.Tally(Games.DB_Applied(g, mov), Some(g.nextTurn)) -
      Boards.DB.Tally(Games.DB_Applied(g, mov), Some(g.nextTurn.Opponent()))
    ensures -64 <= EvaluateMove(g, mov) <= 64
    ensures EvaluateMove(g, mov) == -AI.EvaluateImmediate(Games.Apply(g, mov), g.nextTurn.Opponent())
  {
    Games.ApplyListed(g, g.nextTurn, mov);
    AI.EvaluateOwn(Games.Apply(g, mov), g.nextTurn);
  }

  /** The scores the closure gives the listed moves, in order. */
  function MoveScores(g: Games.GameRepr, moves: seq<Move>): (keys: seq<int>)
    requires Games.Valid(g) && forall m :: m in moves ==> m in Games.ValidMoves(g, g.nextTurn)
    ensures |keys| == |moves|
  {
    if |moves| == 0 then []
    else
      var m := moves[|moves| - 1];
      Games.ApplyListed(g, g.nextTurn, m);
      MoveScores(g, moves[..|moves| - 1]) + [EvaluateMove(g, m)]
  }

  /** Each score is that move's `evaluate_move`. */
  lemma {:induction false} MoveScoresAt(g: Games.GameRepr, moves: seq<Move>, i: int)
    requires Games.Valid(g) && forall m :: m in moves ==> m in Games.ValidMoves(g, g.nextTurn)
    requires 0 <= i < |moves|
    ensures Boards.CanApply(g.board, moves[i])
    ensures MoveScores(g, moves)[i] == EvaluateMove(g, moves[i])
  {
    Games.ApplyListed(g, g.nextTurn, moves[i]);
    if i < |moves| - 1 {
      var init := moves[..|moves| - 1];
      assert init[i] == moves[i];
      MoveScoresAt(g, init, i);
    }
  }

  /** `ImmediateAI::choose_move`: `pick_best_move` over the player to move's
      valid moves, scored by `evaluate_move`. */
  function ChooseMove(g: Games.GameRepr): Option<Move>
    requires Games.Valid(g)
  {
    var moves := Games.ValidMoves(g, g.nextTurn);
    AI.PickBest(moves, MoveScores(g, moves))
  }

  /** No move is chosen exactly when the player to move has none, and a
      chosen move is one of the valid moves. */
  lemma ChooseMoveSome(g: Games.GameRepr)
    requires Games.Valid(g)
    ensures ChooseMove(g).None? <==> |Games.ValidMoves(g, g.nextTurn)| == 0
    ensures ChooseMove(g).Some? ==> ChooseMove(g).value in Games.ValidMoves(g, g.nextTurn)
  {
    var moves := Games.ValidMoves(g, g.nextTurn);
    AI.PickBestMeaning(moves, MoveScores(g, moves));
  }

  /** The chosen move leaves the mover at least as far ahead as any other
      valid move. */
  lemma ChooseMoveBest(g: Games.GameRepr, m: Move)
    requires Games.Valid(g) && m in Games.ValidMoves(g, g.nextTurn)
    ensures ChooseMove(g).Some? && Boards.CanApply(g.board, ChooseMove(g).value) && Boards.CanApply(g.board, m)
    ensures EvaluateMove(g, m) <= EvaluateMove(g, ChooseMove(g).value)
  {
    var moves := Games.ValidMoves(g, g.nextTurn);
    var keys := MoveScores(g, moves);
    var i := AI.LastMaxIndex(keys);
    AI.LastMaxIndexBest(keys);
    var j :| 0 <= j < |moves| && moves[j] == m;
    MoveScoresAt(g, moves, i);
    MoveScoresAt(g, moves, j);
  }

  /** Among tied moves the last wins: every valid move listed after the
      chosen one leaves the mover strictly less far ahead. */
  lemma ChooseMoveLast(g: Games.GameRepr, k: int)
    requires Games.Valid(g) && ChooseMove(g).Some?
    requires 0 <= k < |Games.ValidMoves(g, g.nextTurn)|
    requires forall j :: 0 <= j < |Games.ValidMoves(g, g.nextTurn)| && Games.ValidMoves(g, g.nextTurn)[j] == ChooseMove(g).value ==> j < k
    ensures Boards.CanApply(g.board, ChooseMove(g).value) && Boards.CanApply(g.board, Games.ValidMoves(g, g.nextTurn)[k])
    ensures EvaluateMove(g, Games.ValidMoves(g, g.nextTurn)[k]) < EvaluateMove(g, ChooseMove(g).value)
  {
    var moves := Games.ValidMoves(g, g.nextTurn);
    var keys := MoveScores(g, moves);
    var i := AI.LastMaxIndex(keys);
    AI.LastMaxIndexBest(keys);
    MoveScoresAt(g, moves, i);
    MoveScoresAt(g, moves, k);
  }
}
