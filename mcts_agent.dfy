/**
 * The MCTS agent: it answers a game with the move found by one search of a fresh
 * self-play tree rooted at that game. The opponent the search plays against is the
 * agent itself in the original program; here it is the `reply` function, which has the
 * shape of `BestMove` itself: a move or the error the search ended in.
 */
module MctsAgents {
  import opened Wrappers
  import opened Games
  import opened Nodes
  import opened Trees
  import opened SelfPlay

  class MCTSAgent {
    const color: Color

    constructor (color: Color)
      ensures this.color == color
    {
      this.color := color;
    }

    /**
     * The move for `game`: the null move once the game has a result, otherwise the move
     * a search of a new tree rooted at the game returns. The fresh root's only child is
     * the expansion of the last legal move `a`, so the move returned is the last
     * half-move of that child: the opponent's reply to `a` when it was played, else `a`
     * itself, and the null move when `a` was the game's first half-move and ended it.
     * A position without legal moves and without a result leaves the search nothing
     * to choose from, and an opponent that fails to answer `a` makes the search fail.
     */
    method BestMove(game: Game, reply: Opponent, floats: Floats, now: string)
      returns (r: Result<Move, SearchError>)
      ensures game.Result().Some? ==> r == Success(NULL_MOVE)
      ensures game.Result().None? && game.LegalMoves() == [] ==> r == Failure(EmptyArgmax)
      ensures game.Result().None? && game.LegalMoves() != [] ==>
        var a := game.LegalMoves()[|game.LegalMoves()| - 1];
        var h := game.history + [a];
        if ResultOf(game.rules, h).None? && reply(h).Failure? then r == Failure(reply(h).error)
        else r == Success(
          if ResultOf(game.rules, h).None? && reply(h).value in game.rules.legalMoves(h) then reply(h).value
          else if |game.history| == 0 then NULL_MOVE
          else a)
    {
      r := Success(NULL_MOVE);
      if game.Result().None? {
        var tree := new SelfPlayTree.FromGame(game, floats, now);
        ghost var root := tree.nodes[tree.root];
        assert IsLeaf(root) && !IsTerminalState(tree.rules, root);
        var found;
        ghost var explored, expanded, selected, v, ends;
        found, explored, expanded, selected, v, ends := tree.SearchMove(reply, true, false, now);
        if found.Failure? {
          r := Failure(found.error);
        } else {
          r := Success(found.value.move);
        }
      }
    }

    /** A new agent playing the same colour. */
    method GetCopy() returns (c: MCTSAgent)
      ensures fresh(c) && c.color == color
    {
      c := new MCTSAgent(color);
    }
  }
}
