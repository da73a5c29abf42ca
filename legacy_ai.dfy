/** The older search code of src/ai/mod.rs and src/ai/minimax.rs, over the
    dense game of src/game.rs: the static evaluation as a scan of the
    squares, the choice of the best-scoring move by a loop that keeps the
    first of the tied moves, and the minimax player built on the two. */
module LegacyAI {
  import opened Core
  import DB = DefaultBoard
  import Boards
  import Games
  import Legacy
  import AI
  import Minimax

  /** `evaluate_immediate`: every square scanned row by row, +1 for a disc
      of the player and -1 for a disc of the other colour. */
  method EvaluateImmediate(g: Legacy.Game, player: Colour) returns (score: int)
    ensures score == DB.Tally(g.board, Some(player)) - DB.Tally(g.board, Some(player.Opponent()))
  {
    ghost var own, other := Some(player), Some(player.Opponent());
    score := 0;
    ghost var k := 0;
    for r := 0 to 8
      invariant k == r * 8
      invariant score + DB.TallyFrom(g.board, own, k) - DB.TallyFrom(g.board, other, k) ==
        DB.Tally(g.board, own) - DB.Tally(g.board, other)
    {
      for c := 0 to 8
        invariant k == r * 8 + c
        invariant score + DB.TallyFrom(g.board, own, k) - DB.TallyFrom(g.board, other, k) ==
          DB.Tally(g.board, own) - DB.Tally(g.board, other)
      {
        DB.TallyStep(g.board, r, c, k);
        k := k + 1;
        var piece := DB.Get(g.board, r, c);
        if piece.None? {
          continue;
        }
        var val := if piece.value == player then 1 else -1;
        score := score + val;
      }
    }
  }

  /** The game of src/game.rs seen as a game over the default board. */
  function AsRepr(g: Legacy.Game): (r: Games.GameRepr)
    ensures Games.Valid(r) && r.nextTurn == g.nextTurn && Boards.DenseOf(r.board) == g.board
  {
    Games.GameRepr(g.nextTurn, Boards.Dense(g.board))
  }

  /** The scan agrees with the crate's `evaluate_immediate`, which takes
      Black's score minus White's times the player's sign, and lies in
      -64..64. */
  lemma EvaluateAgrees(g: Legacy.Game, player: Colour)
    ensures DB.Tally(g.board, Some(player)) - DB.Tally(g.board, Some(player.Opponent())) ==
      AI.EvaluateImmediate(AsRepr(g), player)
    ensures -64 <= DB.Tally(g.board, Some(player)) - DB.Tally(g.board, Some(player.Opponent())) <= 64
  {
    AI.EvaluateOwn(AsRepr(g), player);
  }

  // ---------------------------------------------------------------------
  // Choosing the best-scoring move.

  /** The scores the evaluation closure gives the moves, in order. */
  function Scored(g: Legacy.Game, moves: seq<Move>, evaluate: (Legacy.Game, Move) -> int): seq<int>
  {
    seq(|moves|, i requires 0 <= i < |moves| => evaluate(g, moves[i]))
  }

  /** One more score: the first greatest stays unless the new score is
      strictly greater. */
  lemma FirstMaxStep(keys: seq<int>, n: nat)
    requires 0 < n < |keys|
    ensures AI.FirstMaxIndex(keys[..n + 1]) ==
      if keys[n] > keys[AI.FirstMaxIndex(keys[..n])] then n else AI.FirstMaxIndex(keys[..n])
  {
    assert keys[..n + 1][..n] == keys[..n];
  }

  /** `pick_best_move`: takes the iterator's first move as the best, then
      replaces it by each later move with a strictly greater score; None
      when the iterator yields nothing. */
  method PickBestMove(g: Legacy.Game, evaluate: (Legacy.Game, Move) -> int) returns (best: Option<Move>)
    ensures var moves := DB.Moves(g.board, g.nextTurn);
      best == AI.PickFirstBest(moves, Scored(g, moves, evaluate))
  {
    ghost var moves := DB.Moves(g.board, g.nextTurn);
    ghost var keys := Scored(g, moves, evaluate);
    var it := new Legacy.ValidMoveIterator(g);
    best := it.Next();
    if best.Some? {
      var bestScore := evaluate(g, best.value);
      ghost var n := 1;
      ghost var bi := 0;
      while true
        invariant it.Valid() && it.game == g
        invariant 1 <= n <= |moves| && it.Pending() == moves[n..]
        invariant bi == AI.FirstMaxIndex(keys[..n]) && best == Some(moves[bi]) && bestScore == keys[bi]
        decreases |it.Pending()|
      {
        var m := it.Next();
        if m.None? {
          break;
        }
        FirstMaxStep(keys, n);
        var newScore := evaluate(g, m.value);
        if newScore > bestScore {
          bestScore := newScore;
          best := m;
          bi := n;
        }
        n := n + 1;
      }
      assert keys[..|moves|] == keys;
    }
  }

  // ---------------------------------------------------------------------
  // The minimax player.

  /** The closure of `MinimaxAI::choose_move`: the game after the move,
      valued `depth` levels deep by `evaluate_to_depth` for `player`.  The
      closure is only ever given the game's own legal moves; any other
      move is scored 0. */
  function MoveValue(g: Legacy.Game, m: Move, player: Colour, depth: nat): int
  {
    if Boards.CanApply(AsRepr(g).board, m) then Minimax.Value(Games.Apply(AsRepr(g), m), player, depth) else 0
  }

  /** The closure itself, for the player to move and the depth. */
  function Scorer(player: Colour, depth: nat): (Legacy.Game, Move) -> int
  {
    (h: Legacy.Game, m: Move) => MoveValue(h, m, player, depth)
  }

  /** The choice `choose_move` makes. */
  function Choice(g: Legacy.Game, depth: nat): Option<Move>
  {
    var moves := DB.Moves(g.board, g.nextTurn);
    AI.PickFirstBest(moves, Scored(g, moves, Scorer(g.nextTurn, depth)))
  }

  /** `MinimaxAI`: the search depth. */
  datatype MinimaxAI = MinimaxAI(maxDepth: nat)
  {
    /** `choose_move`: `pick_best_move` with every move scored by the
        minimax value, for the player to move, of the game after it. */
    method ChooseMove(g: Legacy.Game) returns (mov: Option<Move>)
      ensures mov == Choice(g, maxDepth)
    {
      mov := PickBestMove(g, Scorer(g.nextTurn, maxDepth));
    }
  }

  /** A listed move of the player to move can be applied, and its score is
      the minimax value of the game after it. */
  lemma ListedValue(g: Legacy.Game, depth: nat, i: int)
    requires 0 <= i < |DB.Moves(g.board, g.nextTurn)|
    ensures var m := DB.Moves(g.board, g.nextTurn)[i];
      Boards.CanApply(AsRepr(g).board, m) && Games.Valid(Games.Apply(AsRepr(g), m)) &&
      MoveValue(g, m, g.nextTurn, depth) == Minimax.Value(Games.Apply(AsRepr(g), m), g.nextTurn, depth)
  {
    var m := DB.Moves(g.board, g.nextTurn)[i];
    Games.ApplyListed(AsRepr(g), g.nextTurn, m);
  }

  /** With a legal move to make, a legal move is chosen, and every legal
      move is worth at most the chosen one. */
  lemma ChoiceBest(g: Legacy.Game, depth: nat, j: int)
    requires 0 <= j < |DB.Moves(g.board, g.nextTurn)|
    ensures var moves := DB.Moves(g.board, g.nextTurn);
      && Choice(g, depth).Some? && Choice(g, depth).value in moves
      && Boards.CanApply(AsRepr(g).board, moves[j]) && Boards.CanApply(AsRepr(g).board, Choice(g, depth).value)
      && Minimax.Value(Games.Apply(AsRepr(g), moves[j]), g.nextTurn, depth) <=
         Minimax.Value(Games.Apply(AsRepr(g), Choice(g, depth).value), g.nextTurn, depth)
  {
    var moves := DB.Moves(g.board, g.nextTurn);
    var keys := Scored(g, moves, Scorer(g.nextTurn, depth));
    var i := AI.FirstMaxIndex(keys);
    AI.FirstMaxIndexBest(keys);
    ListedValue(g, depth, i);
    ListedValue(g, depth, j);
    assert keys[i] == MoveValue(g, moves[i], g.nextTurn, depth);
    assert keys[j] == MoveValue(g, moves[j], g.nextTurn, depth);
  }

  /** Among tied moves the first wins: every move listed before the chosen
      one is worth strictly less. */
  lemma ChoiceFirst(g: Legacy.Game, depth: nat, k: int)
    requires Choice(g, depth).Some?
    requires 0 <= k < |DB.Moves(g.board, g.nextTurn)|
    requires forall j :: 0 <= j <= k ==> DB.Moves(g.board, g.nextTurn)[j] != Choice(g, depth).value
    ensures var moves := DB.Moves(g.board, g.nextTurn);
      && Boards.CanApply(AsRepr(g).board, moves[k]) && Boards.CanApply(AsRepr(g).board, Choice(g, depth).value)
      && Minimax.Value(Games.Apply(AsRepr(g), moves[k]), g.nextTurn, depth) <
         Minimax.Value(Games.Apply(AsRepr(g), Choice(g, depth).value), g.nextTurn, depth)
  {
    var moves := DB.Moves(g.board, g.nextTurn);
    var keys := Scored(g, moves, Scorer(g.nextTurn, depth));
    var i := AI.FirstMaxIndex(keys);
    AI.FirstMaxIndexBest(keys);
    ListedValue(g, depth, i);
    ListedValue(g, depth, k);
    assert keys[i] == MoveValue(g, moves[i], g.nextTurn, depth);
    assert keys[k] == MoveValue(g, moves[k], g.nextTurn, depth);
  }

  /** No move is chosen exactly when the player to move has none. */
  lemma ChoiceNone(g: Legacy.Game, depth: nat)
    ensures Choice(g, depth).None? <==> |DB.Moves(g.board, g.nextTurn)| == 0
  {
  }
}
