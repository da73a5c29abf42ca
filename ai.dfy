/** The shared part of the search crate (crates/othello_ai/src/lib.rs): the
    static evaluation, the choice of the best-scoring move, and the search
    counters. */
module AI {
  import opened Core
  import Boards
  import Games

  /** `evaluate_immediate`: Black's discs minus White's, times the sign of
      the player it is seen from. */
  function EvaluateImmediate(g: Games.GameRepr, player: Colour): int
  {
    var (black, white) := Games.Scores(g);
    (black - white) * player.Sign()
  }

  /** The evaluation is the player's own discs minus the other player's, on
      the reference board; it lies in -64..64, and the two players'
      evaluations are each other's negation (negamax). */
  lemma EvaluateOwn(g: Games.GameRepr, player: Colour)
    requires Games.Valid(g)
    ensures EvaluateImmediate(g, player) ==
      Boards.DB.Tally(Boards.DenseOf(g.board), Some(player)) - Boards.DB.Tally(Boards.DenseOf(g.board), Some(player.Opponent()))
    ensures -64 <= EvaluateImmediate(g, player) <= 64
    ensures EvaluateImmediate(g, player.Opponent()) == -EvaluateImmediate(g, player)
  {
    Boards.ScoresReference(g.board);
  }

  /** Boards with the same discs evaluate alike. */
  lemma EvaluateSameCells(a: Games.GameRepr, b: Games.GameRepr, player: Colour)
    requires Games.Valid(a) && Games.Valid(b) && Boards.SameCells(a.board, b.board)
    ensures EvaluateImmediate(a, player) == EvaluateImmediate(b, player)
  {
    Boards.Interchangeable(a.board, b.board, player);
  }

  // ---------------------------------------------------------------------
  // Choosing the best-scoring move.

  /** The index Rust's `max_by_key` picks among `keys`: a greatest key, the
      last of those tied (each later key at least as large replaces it). */
  function LastMaxIndex(keys: seq<int>): (i: int)
    requires |keys| > 0
    ensures 0 <= i < |keys|
  {
    if |keys| == 1 then 0
    else
      var j := LastMaxIndex(keys[..|keys| - 1]);
      if keys[|keys| - 1] >= keys[j] then |keys| - 1 else j
  }

  /** `max_by_key` yields a greatest key, and no later key ties it. */
  lemma {:induction false} LastMaxIndexBest(keys: seq<int>)
    requires |keys| > 0
    ensures forall k :: 0 <= k < |keys| ==> keys[k] <= keys[LastMaxIndex(keys)]
    ensures forall k :: LastMaxIndex(keys) < k < |keys| ==> keys[k] < keys[LastMaxIndex(keys)]
  {
    if |keys| > 1 {
      var init := keys[..|keys| - 1];
      LastMaxIndexBest(init);
      assert forall k :: 0 <= k < |init| ==> init[k] == keys[k];
    }
  }

  /** `pick_best_move`: the moves, scored by `keys` (one score per move, as
      the evaluation closure gives them), reduced with `max_by_key`. */
  function PickBest(moves: seq<Move>, keys: seq<int>): Option<Move>
    requires |keys| == |moves|
  {
    if |moves| == 0 then None else Some(moves[LastMaxIndex(keys)])
  }

  /** No move is picked exactly when there is none; a picked move is one of
      the moves, its score is the greatest, and no later move scores as
      much. */
  lemma PickBestMeaning(moves: seq<Move>, keys: seq<int>)
    requires |keys| == |moves|
    ensures PickBest(moves, keys).None? <==> |moves| == 0
    ensures PickBest(moves, keys).Some? ==>
      exists i :: 0 <= i < |moves| && moves[i] == PickBest(moves, keys).value &&
        (forall k :: 0 <= k < |keys| ==> keys[k] <= keys[i]) &&
        (forall k :: i < k < |keys| ==> keys[k] < keys[i])
  {
    if |moves| > 0 {
      LastMaxIndexBest(keys);
      var i := LastMaxIndex(keys);
      assert moves[i] == PickBest(moves, keys).value;
    }
  }

  /** The index the legacy `pick_best_move` (src/ai/mod.rs) picks: a
      greatest key, the first of those tied (only a strictly greater key
      replaces it). */
  function FirstMaxIndex(keys: seq<int>): (i: int)
    requires |keys| > 0
    ensures 0 <= i < |keys|
  {
    if |keys| == 1 then 0
    else
      var j := FirstMaxIndex(keys[..|keys| - 1]);
      if keys[|keys| - 1] > keys[j] then |keys| - 1 else j
  }

  /** The first-max index yields a greatest key, and no earlier key ties it. */
  lemma {:induction false} FirstMaxIndexBest(keys: seq<int>)
    requires |keys| > 0
    ensures forall k :: 0 <= k < |keys| ==> keys[k] <= keys[FirstMaxIndex(keys)]
    ensures forall k :: 0 <= k < FirstMaxIndex(keys) ==> keys[k] < keys[FirstMaxIndex(keys)]
  {
    if |keys| > 1 {
      var init := keys[..|keys| - 1];
      FirstMaxIndexBest(init);
      assert forall k :: 0 <= k < |init| ==> init[k] == keys[k];
    }
  }

  /** The legacy choice: the first move with a greatest score. */
  function PickFirstBest(moves: seq<Move>, keys: seq<int>): Option<Move>
    requires |keys| == |moves|
  {
    if |moves| == 0 then None else Some(moves[FirstMaxIndex(keys)])
  }

  /** No move is picked exactly when there is none; a picked move is one of
      the moves, its score is the greatest, and every earlier move scores
      strictly less. */
  lemma PickFirstBestMeaning(moves: seq<Move>, keys: seq<int>)
    requires |keys| == |moves|
    ensures PickFirstBest(moves, keys).None? <==> |moves| == 0
    ensures PickFirstBest(moves, keys).Some? ==>
      exists i :: 0 <= i < |moves| && moves[i] == PickFirstBest(moves, keys).value &&
        (forall k :: 0 <= k < |keys| ==> keys[k] <= keys[i]) &&
        (forall k :: 0 <= k < i ==> keys[k] < keys[i])
  {
    if |moves| > 0 {
      FirstMaxIndexBest(keys);
      var i := FirstMaxIndex(keys);
      assert moves[i] == PickFirstBest(moves, keys).value;
    }
  }

  // ---------------------------------------------------------------------
  // The search counters.

  /** `AIInfo`: counters the searches update through shared cells. */
  class AIInfo {
    var totalNodesSearched: nat
    var lastNodesSearched: nat
    var lastNumChoices: nat

    /** `AIInfo::default`: every counter at zero. */
    constructor ()
      ensures totalNodesSearched == 0 && lastNodesSearched == 0 && lastNumChoices == 0
    {
      totalNodesSearched := 0;
      lastNodesSearched := 0;
      lastNumChoices := 0;
    }

    /** `add_node`: one more node in the current search. */
    method AddNode()
      modifies this
      ensures lastNodesSearched == old(lastNodesSearched) + 1
      ensures totalNodesSearched == old(totalNodesSearched) && lastNumChoices == old(lastNumChoices)
    {
      lastNodesSearched := lastNodesSearched + 1;
    }

    /** `begin_search`: records the number of choices and restarts the node
        count. */
    method BeginSearch(numChoices: nat)
      modifies this
      ensures lastNumChoices == numChoices && lastNodesSearched == 0
      ensures totalNodesSearched == old(totalNodesSearched)
    {
      lastNumChoices := numChoices;
      lastNodesSearched := 0;
    }

    /** `finish_search`: adds the search's nodes to the total, which never
        decreases. */
    method FinishSearch()
      modifies this
      ensures totalNodesSearched == old(totalNodesSearched) + lastNodesSearched
      ensures totalNodesSearched >= old(totalNodesSearched)
      ensures lastNodesSearched == old(lastNodesSearched) && lastNumChoices == old(lastNumChoices)
    {
      totalNodesSearched := totalNodesSearched + lastNodesSearched;
    }

    /** `Clone`: a fresh set of counters with the same values. */
    method Copy() returns (copy: AIInfo)
      ensures fresh(copy)
      ensures copy.totalNodesSearched == totalNodesSearched && copy.lastNodesSearched == lastNodesSearched
      ensures copy.lastNumChoices == lastNumChoices
    {
      copy := new AIInfo();
      copy.totalNodesSearched := totalNodesSearched;
      copy.lastNodesSearched := lastNodesSearched;
      copy.lastNumChoices := lastNumChoices;
    }
  }
}
