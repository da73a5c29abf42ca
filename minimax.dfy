/** The minimax search of crates/othello_ai/src/minimax.rs.  `Value` is
    also the `evaluate_to_depth` of the older src/ai/minimax.rs, which
    counts no nodes; that file's `choose_move` neither converts the game to
    a bit board nor uses `max_by_key`, and is modelled with the older
    `pick_best_move` in LegacyAI. */
module Minimax {
  import opened Core
  import Boards
  import Games
  import AI

  function Min(a: int, b: int): int
  {
    if a <= b then a else b
  }

  /** The value `evaluate_to_depth` gives `g` from `player`'s side: at depth
      0, or when the opponent has no reply, the static evaluation; otherwise
      the worst, for `player`, of the opponent's replies, each searched one
      level less deep. */
  function Value(g: Games.GameRepr, player: Colour, depth: nat): int
    requires Games.Valid(g)
    decreases depth, 0
  {
    if depth == 0 then AI.EvaluateImmediate(g, player)
    else
      var replies := Games.ValidMoves(g, player.Opponent());
      if |replies| == 0 then AI.EvaluateImmediate(g, player)
      else WorstReply(g, player, |replies|, depth - 1)
  }

  /** One reply's value for `player`: the game after it, searched `below`
      levels deep from the opponent's side, negated. */
  function ReplyValue(g: Games.GameRepr, player: Colour, m: Move, below: nat): int
    requires Games.Valid(g) && m in Games.ValidMoves(g, player.Opponent())
    decreases below, 1
  {
    Games.ApplyListed(g, player.Opponent(), m);
    -Value(Games.Apply(g, m), player.Opponent(), below)
  }

  /** The least reply value over the opponent's first n replies, folded from
      the front as `Iterator::min` does. */
  function WorstReply(g: Games.GameRepr, player: Colour, n: nat, below: nat): int
    requires Games.Valid(g) && 0 < n <= |Games.ValidMoves(g, player.Opponent())|
    decreases below, 2, n
  {
    var v := ReplyValue(g, player, Games.ValidMoves(g, player.Opponent())[n - 1], below);
    if n == 1 then v else Min(WorstReply(g, player, n - 1, below), v)
  }

  /** The fold is a lower bound: none of the first n replies is valued
      lower. */
  lemma {:induction false} WorstReplyLower(g: Games.GameRepr, player: Colour, n: int, below: int)
    requires below >= 0
    requires Games.Valid(g) && 0 < n <= |Games.ValidMoves(g, player.Opponent())|
    ensures forall i :: 0 <= i < n ==>
      WorstReply(g, player, n, below) <= ReplyValue(g, player, Games.ValidMoves(g, player.Opponent())[i], below)
  {
    if n > 1 {
      WorstReplyLower(g, player, n - 1, below);
    }
  }

  /** The fold is attained: one of the first n replies, the one returned,
      has exactly that value. */
  lemma {:induction false} WorstReplyAttained(g: Games.GameRepr, player: Colour, n: int, below: int) returns (i: int)
    requires below >= 0
    requires Games.Valid(g) && 0 < n <= |Games.ValidMoves(g, player.Opponent())|
    ensures 0 <= i < n
    ensures WorstReply(g, player, n, below) == ReplyValue(g, player, Games.ValidMoves(g, player.Opponent())[i], below)
  {
    i := n - 1;
    if n > 1 {
      var j := WorstReplyAttained(g, player, n - 1, below);
      if WorstReply(g, player, n - 1, below) <= ReplyValue(g, player, Games.ValidMoves(g, player.Opponent())[n - 1], below) {
        i := j;
      }
    }
  }

  /** What the source promises of `evaluate_to_depth`, independently of the
      order the replies are folded in. */
  lemma ValueMeaning(g: Games.GameRepr, player: Colour, depth: int)
    requires depth >= 0
    requires Games.Valid(g)
    ensures depth == 0 ==> Value(g, player, depth) == AI.EvaluateImmediate(g, player)
    ensures depth > 0 && |Games.ValidMoves(g, player.Opponent())| == 0 ==>
      Value(g, player, depth) == AI.EvaluateImmediate(g, player)
    ensures depth > 0 ==> forall m :: m in Games.ValidMoves(g, player.Opponent()) ==>
      Value(g, player, depth) <= ReplyValue(g, player, m, depth - 1)
    ensures depth > 0 && |Games.ValidMoves(g, player.Opponent())| > 0 ==>
      exists m :: m in Games.ValidMoves(g, player.Opponent()) && Value(g, player, depth) == ReplyValue(g, player, m, depth - 1)
  {
    if depth > 0 && |Games.ValidMoves(g, player.Opponent())| > 0 {
      ValueIsWorst(g, player, depth);
    }
  }

  lemma ValueIsWorst(g: Games.GameRepr, player: Colour, depth: int)
    requires Games.Valid(g) && depth > 0 && |Games.ValidMoves(g, player.Opponent())| > 0
    ensures forall m :: m in Games.ValidMoves(g, player.Opponent()) ==>
      Value(g, player, depth) <= ReplyValue(g, player, m, depth - 1)
    ensures exists m :: m in Games.ValidMoves(g, player.Opponent()) && Value(g, player, depth) == ReplyValue(g, player, m, depth - 1)
  {
    var replies := Games.ValidMoves(g, player.Opponent());
    var below := depth - 1;
    assert Value(g, player, depth) == WorstReply(g, player, |replies|, below);
    WorstReplyLower(g, player, |replies|, below);
    var i := WorstReplyAttained(g, player, |replies|, below);
    assert replies[i] in replies;
    forall m | m in replies
      ensures Value(g, player, depth) <= ReplyValue(g, player, m, below)
    {
      var j :| 0 <= j < |replies| && replies[j] == m;
    }
  }

  /** A reply can be applied, and its value is that of the game after it. */
  lemma ReplyFacts(g: Games.GameRepr, player: Colour, m: Move, below: int)
    requires below >= 0
    requires Games.Valid(g) && m in Games.ValidMoves(g, player.Opponent())
    ensures Boards.CanApply(g.board, m) && Games.Valid(Games.Apply(g, m))
    ensures ReplyValue(g, player, m, below) == -Value(Games.Apply(g, m), player.Opponent(), below)
    ensures ReplySubtree(g, player, m, below) == Nodes(Games.Apply(g, m), player.Opponent(), below)
  {
    Games.ApplyListed(g, player.Opponent(), m);
  }

  /** At depth 1 each reply is valued by the static evaluation, from
      `player`'s side, of the game after it, and the value is the least of
      those. */
  lemma DepthOne(g: Games.GameRepr, player: Colour, m: Move)
    requires Games.Valid(g) && m in Games.ValidMoves(g, player.Opponent())
    ensures Boards.CanApply(g.board, m) && Games.Valid(Games.Apply(g, m))
    ensures ReplyValue(g, player, m, 0) == AI.EvaluateImmediate(Games.Apply(g, m), player)
    ensures Value(g, player, 1) <= AI.EvaluateImmediate(Games.Apply(g, m), player)
  {
    ReplyFacts(g, player, m, 0);
    AI.EvaluateOwn(Games.Apply(g, m), player);
    ValueMeaning(g, player, 1);
  }

  /** Every value lies within the static evaluation's bounds, -64..64. */
  lemma {:induction false} ValueBounded(g: Games.GameRepr, player: Colour, depth: int)
    requires depth >= 0
    requires Games.Valid(g)
    ensures -64 <= Value(g, player, depth) <= 64
    decreases depth, 0
  {
    AI.EvaluateOwn(g, player);
    var replies := Games.ValidMoves(g, player.Opponent());
    if depth > 0 && |replies| > 0 {
      WorstReplyBounded(g, player, |replies|, depth - 1);
    }
  }

  lemma {:induction false} WorstReplyBounded(g: Games.GameRepr, player: Colour, n: int, below: int)
    requires below >= 0
    requires Games.Valid(g) && 0 < n <= |Games.ValidMoves(g, player.Opponent())|
    ensures -64 <= WorstReply(g, player, n, below) <= 64
    decreases below, 2, n
  {
    ReplyBounded(g, player, Games.ValidMoves(g, player.Opponent())[n - 1], below);
    if n > 1 {
      WorstReplyBounded(g, player, n - 1, below);
    }
  }

  lemma {:induction false} ReplyBounded(g: Games.GameRepr, player: Colour, m: Move, below: int)
    requires below >= 0
    requires Games.Valid(g) && m in Games.ValidMoves(g, player.Opponent())
    ensures -64 <= ReplyValue(g, player, m, below) <= 64
    decreases below, 1
  {
    ReplyFacts(g, player, m, below);
    ValueBounded(Games.Apply(g, m), player.Opponent(), below);
  }

  // ---------------------------------------------------------------------
  // Nodes.

  /** The nodes `evaluate_to_depth` counts: one per call. */
  function Nodes(g: Games.GameRepr, player: Colour, depth: nat): nat
    requires Games.Valid(g)
    decreases depth, 0
  {
    if depth == 0 then 1
    else 1 + ReplyNodes(g, player, |Games.ValidMoves(g, player.Opponent())|, depth - 1)
  }

  /** The nodes below the opponent's first n replies. */
  function ReplyNodes(g: Games.GameRepr, player: Colour, n: nat, below: nat): nat
    requires Games.Valid(g) && n <= |Games.ValidMoves(g, player.Opponent())|
    decreases below, 2, n
  {
    if n == 0 then 0
    else ReplyNodes(g, player, n - 1, below) + ReplySubtree(g, player, Games.ValidMoves(g, player.Opponent())[n - 1], below)
  }

  /** The nodes below one reply. */
  function ReplySubtree(g: Games.GameRepr, player: Colour, m: Move, below: nat): nat
    requires Games.Valid(g) && m in Games.ValidMoves(g, player.Opponent())
    decreases below, 1
  {
    Games.ApplyListed(g, player.Opponent(), m);
    Nodes(Games.Apply(g, m), player.Opponent(), below)
  }

  /** One more reply folded into the least value and the node count. */
  lemma FoldStep(g: Games.GameRepr, player: Colour, k: int, below: int, best: Option<int>, s: int)
    requires below >= 0
    requires Games.Valid(g) && 0 <= k < |Games.ValidMoves(g, player.Opponent())|
    requires best.None? <==> k == 0
    requires k > 0 ==> best == Some(WorstReply(g, player, k, below))
    requires -s == ReplyValue(g, player, Games.ValidMoves(g, player.Opponent())[k], below)
    ensures (if best.None? then -s else Min(best.value, -s)) == WorstReply(g, player, k + 1, below)
    ensures ReplyNodes(g, player, k + 1, below) ==
      ReplyNodes(g, player, k, below) + ReplySubtree(g, player, Games.ValidMoves(g, player.Opponent())[k], below)
  {
  }

  /** `evaluate_to_depth` (crates/othello_ai/src/minimax.rs): counts itself
      as a node, then evaluates, or takes the least negated value of the
      opponent's replies searched one level down. */
  method EvaluateToDepth(g: Games.GameRepr, player: Colour, depth: int, info: AI.AIInfo) returns (score: int)
    requires Games.Valid(g) && depth >= 0
    modifies info
    ensures score == Value(g, player, depth)
    ensures info.lastNodesSearched == old(info.lastNodesSearched) + Nodes(g, player, depth)
    ensures info.totalNodesSearched == old(info.totalNodesSearched) && info.lastNumChoices == old(info.lastNumChoices)
    decreases depth
  {
    info.AddNode();
    if depth == 0 {
      return AI.EvaluateImmediate(g, player);
    }
    var below := depth - 1;
    var opponent := player.Opponent();
    var replies := Games.ValidMoves(g, opponent);
    var best: Option<int> := None;
    for k := 0 to |replies|
      invariant best.None? <==> k == 0
      invariant k > 0 ==> best == Some(WorstReply(g, player, k, below))
      invariant info.lastNodesSearched == old(info.lastNodesSearched) + 1 + ReplyNodes(g, player, k, below)
      invariant info.totalNodesSearched == old(info.totalNodesSearched) && info.lastNumChoices == old(info.lastNumChoices)
    {
      var m := replies[k];
      ReplyFacts(g, player, m, below);
      var s := EvaluateToDepth(Games.Apply(g, m), opponent, below, info);
      FoldStep(g, player, k, below, best, s);
      best := if best.None? then Some(-s) else Some(Min(best.value, -s));
    }
    score := if best.None? then AI.EvaluateImmediate(g, player) else best.value;
  }

  // ---------------------------------------------------------------------
  // The value depends on the discs only.

  /** Games whose boards hold the same discs, of whatever kinds, have the
      same value and the same node count. */
  lemma {:induction false} ValueSameCells(a: Games.GameRepr, b: Games.GameRepr, player: Colour, depth: int)
    requires depth >= 0
    requires Games.Valid(a) && Games.Valid(b) && Boards.SameCells(a.board, b.board)
    ensures Value(a, player, depth) == Value(b, player, depth)
    ensures Nodes(a, player, depth) == Nodes(b, player, depth)
    decreases depth, 0
  {
    AI.EvaluateSameCells(a, b, player);
    if depth > 0 {
      Boards.Interchangeable(a.board, b.board, player.Opponent());
      RepliesSameCells(a, b, player, |Games.ValidMoves(a, player.Opponent())|, depth - 1);
    }
  }

  lemma {:induction false} RepliesSameCells(a: Games.GameRepr, b: Games.GameRepr, player: Colour, n: int, below: int)
    requires below >= 0
    requires Games.Valid(a) && Games.Valid(b) && Boards.SameCells(a.board, b.board)
    requires Games.ValidMoves(a, player.Opponent()) == Games.ValidMoves(b, player.Opponent())
    requires 0 <= n <= |Games.ValidMoves(a, player.Opponent())|
    ensures n > 0 ==> WorstReply(a, player, n, below) == WorstReply(b, player, n, below)
    ensures ReplyNodes(a, player, n, below) == ReplyNodes(b, player, n, below)
    decreases below, 2, n
  {
    if n > 0 {
      ChildSameCells(a, b, player, Games.ValidMoves(a, player.Opponent())[n - 1], below);
      RepliesSameCells(a, b, player, n - 1, below);
    }
  }

  lemma {:induction false} ChildSameCells(a: Games.GameRepr, b: Games.GameRepr, player: Colour, m: Move, below: int)
    requires below >= 0
    requires Games.Valid(a) && Games.Valid(b) && Boards.SameCells(a.board, b.board)
    requires m in Games.ValidMoves(a, player.Opponent()) && m in Games.ValidMoves(b, player.Opponent())
    ensures ReplyValue(a, player, m, below) == ReplyValue(b, player, m, below)
    ensures ReplySubtree(a, player, m, below) == ReplySubtree(b, player, m, below)
    decreases below, 1
  {
    ReplyFacts(a, player, m, below);
    ReplyFacts(b, player, m, below);
    Boards.MovesLegal(a.board, player.Opponent());
    Boards.ApplyInterchangeable(a.board, b.board, m);
    ValueSameCells(Games.Apply(a, m), Games.Apply(b, m), player.Opponent(), below);
  }

  // ---------------------------------------------------------------------
  // Choosing a move.

  /** The score `choose_move` gives each listed move of the player to move:
      the game after it, valued `depth` levels deep from that player's
      side. */
  function MoveScores(g: Games.GameRepr, moves: seq<Move>, depth: nat): (keys: seq<int>)
    requires Games.Valid(g) && forall m :: m in moves ==> m in Games.ValidMoves(g, g.nextTurn)
    ensures |keys| == |moves|
  {
    if |moves| == 0 then []
    else
      var m := moves[|moves| - 1];
      Games.ApplyListed(g, g.nextTurn, m);
      MoveScores(g, moves[..|moves| - 1], depth) + [Value(Games.Apply(g, m), g.nextTurn, depth)]
  }

  /** The nodes the searches of all those moves count. */
  function SearchNodes(g: Games.GameRepr, moves: seq<Move>, depth: nat): nat
    requires Games.Valid(g) && forall m :: m in moves ==> m in Games.ValidMoves(g, g.nextTurn)
  {
    if |moves| == 0 then 0
    else
      var m := moves[|moves| - 1];
      Games.ApplyListed(g, g.nextTurn, m);
      SearchNodes(g, moves[..|moves| - 1], depth) + Nodes(Games.Apply(g, m), g.nextTurn, depth)
  }

  /** The scores and node counts depend on the discs only. */
  lemma {:induction false} MoveScoresSameCells(a: Games.GameRepr, b: Games.GameRepr, moves: seq<Move>, depth: int)
    requires depth >= 0
    requires Games.Valid(a) && Games.Valid(b) && Boards.SameCells(a.board, b.board) && a.nextTurn == b.nextTurn
    requires forall m :: m in moves ==> m in Games.ValidMoves(a, a.nextTurn)
    ensures forall m :: m in moves ==> m in Games.ValidMoves(b, b.nextTurn)
    ensures MoveScores(a, moves, depth) == MoveScores(b, moves, depth)
    ensures SearchNodes(a, moves, depth) == SearchNodes(b, moves, depth)
  {
    Boards.Interchangeable(a.board, b.board, a.nextTurn);
    if |moves| > 0 {
      var m := moves[|moves| - 1];
      MoveScoresSameCells(a, b, moves[..|moves| - 1], depth);
      Games.ApplyListed(a, a.nextTurn, m);
      Games.ApplyListed(b, b.nextTurn, m);
      Boards.MovesLegal(a.board, a.nextTurn);
      Boards.ApplyInterchangeable(a.board, b.board, m);
      ValueSameCells(Games.Apply(a, m), Games.Apply(b, m), a.nextTurn, depth);
    }
  }

  /** The game a `&dyn Game` stands for: its turn and discs on the
      reference board. */
  ghost function Reference(g: Games.GameRepr): (r: Games.GameRepr)
    ensures Games.Valid(r) && r.nextTurn == g.nextTurn && Boards.SameCells(r.board, g.board)
  {
    Games.GameRepr(g.nextTurn, Boards.Dense(Boards.DenseOf(g.board)))
  }

  /** The loop of `choose_move`: each listed move scored by a search of the
      game after it, every node counted. */
  method ScoreMoves(game: Games.GameRepr, moves: seq<Move>, depth: int, info: AI.AIInfo) returns (keys: seq<int>)
    requires Games.Valid(game) && depth >= 0
    requires forall m :: m in moves ==> m in Games.ValidMoves(game, game.nextTurn)
    modifies info
    ensures keys == MoveScores(game, moves, depth)
    ensures info.lastNodesSearched == old(info.lastNodesSearched) + SearchNodes(game, moves, depth)
    ensures info.lastNumChoices == old(info.lastNumChoices) && info.totalNodesSearched == old(info.totalNodesSearched)
  {
    keys := [];
    for k := 0 to |moves|
      invariant keys == MoveScores(game, moves[..k], depth)
      invariant info.lastNodesSearched == old(info.lastNodesSearched) + SearchNodes(game, moves[..k], depth)
      invariant info.lastNumChoices == old(info.lastNumChoices) && info.totalNodesSearched == old(info.totalNodesSearched)
    {
      var m := moves[k];
      assert moves[..k + 1][..k] == moves[..k];
      assert m in moves;
      Games.ApplyListed(game, game.nextTurn, m);
      var s := EvaluateToDepth(Games.Apply(game, m), game.nextTurn, depth, info);
      keys := keys + [s];
    }
    assert moves[..|moves|] == moves;
  }

  /** The converted game offers the same moves, with the same scores and
      node counts, as the game it was converted from. */
  lemma ChoiceAgrees(game: Games.GameRepr, g: Games.GameRepr, moves: seq<Move>, depth: int)
    requires depth >= 0
    requires Games.Valid(game) && game.nextTurn == g.nextTurn && Boards.SameCells(game.board, g.board)
    requires moves == Games.ValidMoves(game, game.nextTurn)
    ensures moves == Games.ValidMoves(Reference(g), g.nextTurn)
    ensures MoveScores(game, moves, depth) == MoveScores(Reference(g), moves, depth)
    ensures SearchNodes(game, moves, depth) == SearchNodes(Reference(g), moves, depth)
  {
    var r := Reference(g);
    Boards.Interchangeable(game.board, r.board, game.nextTurn);
    MoveScoresSameCells(game, r, moves, depth);
  }

  /** `MinimaxAI`: a search depth and the counters. */
  class MinimaxAI {
    const maxDepth: nat
    const info: AI.AIInfo

    /** `MinimaxAI::new`: the depth, and counters at zero. */
    constructor (maxDepth: nat)
      ensures this.maxDepth == maxDepth && fresh(info)
      ensures info.totalNodesSearched == 0 && info.lastNodesSearched == 0 && info.lastNumChoices == 0
    {
      this.maxDepth := maxDepth;
      info := new AI.AIInfo();
    }

    /** `choose_move`: converts the game to a bit board, starts a search over
        the player to move's choices, scores each move by searching the game
        after it `maxDepth` levels deep, picks with `max_by_key`, and adds
        the nodes to the total. */
    method ChooseMove(g: Games.GameRepr) returns (mov: Option<Move>)
      modifies info
      ensures var r := Reference(g);
        var moves := Games.ValidMoves(r, r.nextTurn);
        && mov == AI.PickBest(moves, MoveScores(r, moves, maxDepth))
        && info.lastNumChoices == |moves|
        && info.lastNodesSearched == SearchNodes(r, moves, maxDepth)
        && info.totalNodesSearched == old(info.totalNodesSearched) + info.lastNodesSearched
    {
      var game := Games.Convert(g, Boards.BitBoardKind);
      var moves := Games.ValidMoves(game, game.nextTurn);
      info.BeginSearch(|moves|);
      var keys := ScoreMoves(game, moves, maxDepth, info);
      mov := AI.PickBest(moves, keys);
      info.FinishSearch();
      ChoiceAgrees(game, g, moves, maxDepth);
    }

    /** `info`: a copy of the counters. */
    method Info() returns (copy: AI.AIInfo)
      ensures fresh(copy)
      ensures copy.totalNodesSearched == info.totalNodesSearched && copy.lastNodesSearched == info.lastNodesSearched
      ensures copy.lastNumChoices == info.lastNumChoices
    {
      copy := info.Copy();
    }
  }
}
