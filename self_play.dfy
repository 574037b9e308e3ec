/**
 * The self-play Monte Carlo tree search: select, expand, simulate and backpropagate on a
 * tree held in an arena, the policy vector over the root's children, and the move the
 * search answers with. The search runs sequentially, so the node locks are plain blocks.
 */
module SelfPlay {
  import opened Wrappers
  import opened Games
  import opened Nodes
  import opened Trees
  import Simulation

  /** The search's answer: our move with the opponent's expected reply, or a single move. */
  datatype SearchMoves = Pair(ours: Move, theirs: Move) | Single(move: Move)

  /**
   * The moves read off the chosen child's history: its last two half-moves, or null moves
   * for both when it has fewer than two; only the last one without `aiMove`.
   */
  function MovesOf(history: seq<Move>, aiMove: bool): (r: SearchMoves)
    ensures r.Pair? <==> aiMove
    ensures |history| < 2 ==> r == (if aiMove then Pair(NULL_MOVE, NULL_MOVE) else Single(NULL_MOVE))
    ensures |history| >= 2 && !aiMove ==> r.move == history[|history| - 1]
    ensures |history| >= 2 && aiMove ==> r.ours == history[|history| - 2] && r.theirs == history[|history| - 1]
  {
    var ours := if |history| >= 2 then history[|history| - 2] else NULL_MOVE;
    var theirs := if |history| >= 2 then history[|history| - 1] else NULL_MOVE;
    if aiMove then Pair(ours, theirs) else Single(theirs)
  }

  /**
   * The policy vector over the children of node `i`, without exploration noise: below 30
   * half-moves the temperature is 1 and each entry is the child's visit count divided by
   * the node's; from 30 on the annealed ratio is left uninterpreted.
   */
  function ComputePolicy(nodes: seq<Node>, i: nat, f: Floats): (policy: seq<real>)
    requires i < |nodes| && ChildrenInArena(nodes) && nodes[i].visits > 0
    ensures |policy| == |nodes[i].children|
  {
    var vs := ChildVisits(nodes, i);
    var moves := |nodes[i].state|;
    var total := nodes[i].visits;
    if moves < 30 then seq(|vs|, k requires 0 <= k < |vs| => vs[k] as real / total as real)
    else seq(|vs|, k requires 0 <= k < |vs| => f.annealed(moves, vs[k], total))
  }

  /** Below 30 half-moves each entry is the child's share of the node's visits, never negative. */
  lemma PolicyIsVisitShare(nodes: seq<Node>, i: nat, f: Floats)
    requires i < |nodes| && ChildrenInArena(nodes) && nodes[i].visits > 0
    requires |nodes[i].state| < 30
    ensures var policy := ComputePolicy(nodes, i, f);
      forall k :: 0 <= k < |policy| ==>
        policy[k] == nodes[nodes[i].children[k]].visits as real / nodes[i].visits as real &&
        policy[k] >= 0.0
  {
  }

  /** Below 30 half-moves the arg-max of the policy is the first most-visited child. */
  lemma PolicyPicksMostVisited(nodes: seq<Node>, i: nat, f: Floats)
    requires i < |nodes| && ChildrenInArena(nodes) && nodes[i].visits > 0
    requires |nodes[i].state| < 30 && !IsLeaf(nodes[i])
    ensures ArgMax(ComputePolicy(nodes, i, f)) == ArgMax(Reals(ChildVisits(nodes, i)))
  {
    var policy := ComputePolicy(nodes, i, f);
    var vs := Reals(ChildVisits(nodes, i));
    var t := nodes[i].visits as real;
    var m := ArgMax(vs);
    forall j | 0 <= j < |policy|
      ensures policy[j] <= policy[m]
      ensures j < m ==> policy[j] < policy[m]
    {
      Simulation.DivisionKeepsOrder(vs[j], vs[m], t);
    }
    ArgMaxUnique(policy, m);
  }

  /** The playouts a simulation averages, and the half-moves each may play at most. */
  const SIM_REPETITIONS: nat := 500
  const SIM_MAX_MOVES: nat := 100

  /**
   * `v` is a value the simulation may find for `state`: its result when it has one,
   * otherwise the mean outcome of 500 chained random playouts of at most 100 half-moves
   * from it, whose final histories are `ends`.
   */
  ghost predicate Estimated(rules: Rules, state: seq<Move>, v: real, ends: seq<seq<Move>>) {
    var result := ResultOf(rules, state);
    if result.Some? then v == result.value as real
    else
      |ends| == SIM_REPETITIONS && Simulation.Repetitions(rules, state, ends, SIM_MAX_MOVES) &&
      v == Simulation.Mean(Simulation.Outcomes(rules, ends))
  }

  /** A simulated value lies between -1 and 1. */
  lemma EstimatedInRange(rules: Rules, state: seq<Move>, v: real, ends: seq<seq<Move>>)
    requires Estimated(rules, state, v, ends)
    ensures -1.0 <= v <= 1.0
  {
    if ResultOf(rules, state).None? {
      Simulation.MeanInRange(Simulation.Outcomes(rules, ends));
    }
  }

  /**
   * The arena after one search iteration that stopped at node `i` (after expanding node
   * `expanded`, if any), put a virtual loss on it and backpropagated `v` from it.
   */
  ghost function Iteration(rules: Rules, a: seq<Node>, expanded: Option<nat>, reply: Opponent, i: nat, v: real): (b: seq<Node>)
    requires ParentsBefore(a)
    requires expanded.Some? ==> Expands(rules, a, expanded.value, reply) && i == |a|
    requires expanded.None? ==> i < |a|
    ensures |b| == |a| + (if expanded.Some? then 1 else 0)
  {
    var pre := if expanded.Some? then ExpandAt(rules, a, expanded.value, reply) else a;
    Backpropagated(AddVirtualLoss(pre, i), i, v, true)
  }

  /**
   * One iteration changes the old nodes only where it says: the expanded node lost its
   * last action and gained the new child; every node on the path of `i` gained one visit
   * and `v`; no virtual loss or prior changed. A new node holds the expanded history,
   * one visit and `v`.
   */
  lemma IterationEffect(rules: Rules, a: seq<Node>, expanded: Option<nat>, reply: Opponent, i: nat, v: real)
    requires ParentsBefore(a)
    requires expanded.Some? ==> Expands(rules, a, expanded.value, reply) && i == |a|
    requires expanded.None? ==> i < |a|
    ensures var b := Iteration(rules, a, expanded, reply, i, v);
      && ParentsBefore(b) && i < |b|
      && (forall j :: 0 <= j < |a| ==>
            && b[j].parent == a[j].parent && b[j].state == a[j].state
            && b[j].children == a[j].children + (if expanded == Some(j) then [|a|] else [])
            && b[j].unexpandedActions ==
                 (if expanded == Some(j) then WithoutLastAction(a[j]).unexpandedActions else a[j].unexpandedActions)
            && b[j].visits == a[j].visits + (if j in Path(b, i) then 1 else 0)
            && b[j].value == a[j].value + (if j in Path(b, i) then v else 0.0)
            && b[j].vloss == a[j].vloss && b[j].prior == a[j].prior)
      && (expanded.Some? ==>
            var p := expanded.value;
            b[i] == NewNode(rules, ExpandedState(rules, a[p].state, LastAction(a[p]), reply).value, Some(p))
                      .(visits := 1, value := v))
  {
    var pre := if expanded.Some? then ExpandAt(rules, a, expanded.value, reply) else a;
    if expanded.Some? {
      ExpandAtEffect(rules, a, expanded.value, reply);
    }
    LossThenBackprop(pre, i, v);
    var m := AddVirtualLoss(pre, i);
    BackpropagatedParents(m, i, v, true);
    PathFrame(pre, m, i);
  }

  /**
   * `after` and `r` are what one search iteration from `root` makes of the arena
   * `before`. Selection fails where `Descend` fails, leaving the arena as it was. A
   * terminal node it stops at is simulated and backpropagated. Any other node it stops at
   * is expanded: when the opponent fails, the search fails with the node's last action
   * popped; otherwise the new child is simulated and backpropagated. `expanded` is the
   * node expanded, `selected` the node simulated, `v` its value and `ends` the playouts
   * behind it.
   */
  ghost predicate Explored(rules: Rules, f: Floats, before: seq<Node>, root: nat, reply: Opponent,
                           after: seq<Node>, r: Result<(), SearchError>,
                           expanded: Option<nat>, selected: nat, v: real, ends: seq<seq<Move>>)
    requires Wf(rules, before) && root < |before|
  {
    WfProperties(rules, before);
    var d := Descend(rules, before, root, f);
    if d.Failure? then
      r == Failure(d.error) && expanded.None? && after == before
    else if IsTerminalState(rules, before[d.value]) then
      && r == Success(()) && expanded.None? && selected == d.value
      && Estimated(rules, before[selected].state, v, ends)
      && after == Iteration(rules, before, None, reply, selected, v)
    else
      var p := d.value;
      var e := ExpandedState(rules, before[p].state, LastAction(before[p]), reply);
      && expanded == Some(p)
      && if e.Failure? then r == Failure(e.error) && after == Popped(before, p)
         else
           && r == Success(()) && selected == |before|
           && Estimated(rules, e.value, v, ends)
           && after == Iteration(rules, before, expanded, reply, selected, v)
  }

  /**
   * What one iteration does at the root: when it succeeds, the root gains one visit and
   * at most the one child expanded from it. From a leaf root it stops at once: a
   * terminal root stays a leaf, a fully expanded one fails, and any other is expanded,
   * failing with its opponent or gaining exactly the child over the expanded history.
   */
  lemma ExploredRoot(rules: Rules, f: Floats, before: seq<Node>, root: nat, reply: Opponent,
                     after: seq<Node>, r: Result<(), SearchError>,
                     expanded: Option<nat>, selected: nat, v: real, ends: seq<seq<Move>>)
    requires Wf(rules, before) && root < |before|
    requires Explored(rules, f, before, root, reply, after, r, expanded, selected, v, ends)
    requires r.Success? ==> ParentsBefore(after) && selected < |after| && root in Path(after, selected)
    ensures r.Success? ==>
      && root < |after| && after[root].state == before[root].state
      && after[root].visits == before[root].visits + 1
      && after[root].children == before[root].children + (if expanded == Some(root) then [|before|] else [])
    ensures IsLeaf(before[root]) && IsTerminalState(rules, before[root]) ==>
      r.Success? && root < |after| && IsLeaf(after[root])
    ensures IsLeaf(before[root]) && !IsTerminalState(rules, before[root]) && IsFullyExpanded(before[root]) ==>
      r.Failure?
    ensures IsLeaf(before[root]) && !IsTerminalState(rules, before[root]) && !IsFullyExpanded(before[root]) ==>
      var e := ExpandedState(rules, before[root].state, LastAction(before[root]), reply);
      && (e.Failure? ==> r == Failure(e.error))
      && (e.Success? ==>
            r.Success? && root < |before| < |after| &&
            after[root].children == [|before|] && after[|before|].state == e.value)
  {
    WfProperties(rules, before);
    if r.Success? {
      IterationEffect(rules, before, expanded, reply, selected, v);
    }
  }

  class SelfPlayTree {
    const rules: Rules
    const floats: Floats
    var nodes: seq<Node>
    var root: nat

    ghost predicate Valid()
      reads this
    {
      root < |nodes| && Wf(rules, nodes) && ParentsBefore(nodes) && ChildrenInArena(nodes)
    }

    /** A tree over a copy of `game`: a single root node whose visit count is set to 1. */
    constructor FromGame(game: Game, floats: Floats, now: string)
      ensures Valid() && rules == game.rules && this.floats == floats
      ensures root == 0 && nodes == [NewNode(game.rules, game.history, None).(visits := 1)]
    {
      rules := game.rules;
      this.floats := floats;
      var copy := game.GetCopy(now);
      nodes := [NewNode(copy.rules, copy.history, None).(visits := 1)];
      root := 0;
      new;
      assert NodeWf(rules, nodes, 0);
      WfProperties(rules, nodes);
    }

    /** A tree whose root is node `r` of an existing arena, as it is, but with its visit count set to 1. */
    constructor FromNode(rules: Rules, floats: Floats, arena: seq<Node>, r: nat)
      requires r < |arena| && Wf(rules, arena)
      ensures Valid() && this.rules == rules && this.floats == floats
      ensures root == r && nodes == arena[r := arena[r].(visits := 1)]
    {
      this.rules := rules;
      this.floats := floats;
      nodes := arena[r := arena[r].(visits := 1)];
      root := r;
      new;
      WfShape(rules, arena, nodes);
      WfProperties(rules, nodes);
    }

    /** Removes and returns the last unexpanded action of node `i`. */
    method PopUnexpandedAction(i: nat) returns (a: Move)
      requires i < |nodes| && !IsFullyExpanded(nodes[i])
      modifies this
      ensures a == LastAction(old(nodes[i]))
      ensures nodes == Popped(old(nodes), i) && root == old(root)
    {
      var n := nodes[i];
      a := n.unexpandedActions[|n.unexpandedActions| - 1];
      nodes := nodes[i := n.(unexpandedActions := n.unexpandedActions[..|n.unexpandedActions| - 1])];
    }

    /**
     * Pops the last unexpanded action of node `i`, plays it on a copy of the node's game
     * followed by the opponent's reply while the game has no result, and appends the new
     * child, which it returns. When the opponent fails, the expansion fails with it after
     * the pop, and no child is added.
     */
    method Expand(i: nat, reply: Opponent, now: string) returns (c: Result<nat, SearchError>)
      requires Valid() && i < |nodes| && !IsFullyExpanded(nodes[i])
      modifies this
      ensures root == old(root)
      ensures c.Success? <==> Expands(rules, old(nodes), i, reply)
      ensures c.Failure? ==>
        c.error == ExpandedState(rules, old(nodes)[i].state, LastAction(old(nodes)[i]), reply).error &&
        nodes == Popped(old(nodes), i)
      ensures c.Success? ==>
        Valid() && c.value == old(|nodes|) && nodes == ExpandAt(rules, old(nodes), i, reply)
    {
      ghost var before := nodes;
      var newState := new Game.OnBoard(rules, nodes[i].state, now);
      var a := PopUnexpandedAction(i);
      var ok := newState.Move(a);
      if newState.Result().None? {
        var bm := reply(newState.history);
        if bm.Failure? {
          c := Failure(bm.error);
          return;
        }
        ok := newState.Move(bm.value);
      }
      assert Success(newState.history) == ExpandedState(rules, before[i].state, a, reply);
      ExpandAtAfterPop(rules, before, i, reply);
      ExpandAtWf(rules, before, i, reply);
      var n := |nodes|;
      nodes := nodes[i := nodes[i].(children := nodes[i].children + [n])] + [NewNode(rules, newState.history, Some(i))];
      WfProperties(rules, nodes);
      c := Success(n);
    }

    /**
     * Descends from the root by best child through nodes that are neither terminal nor
     * left with an action, as `Descend` does, and expands the node it stops at unless it
     * is terminal; the node returned gets one virtual loss. `expanded` is the node that
     * was expanded, if any.
     */
    method Select(reply: Opponent, now: string)
      returns (r: Result<nat, SearchError>, ghost expanded: Option<nat>)
      requires Valid()
      modifies this
      ensures root == old(root)
      ensures var d := Descend(rules, old(nodes), old(root), floats);
        && (d.Failure? ==> r == Failure(d.error) && expanded.None? && nodes == old(nodes))
        && (d.Success? && IsTerminalState(rules, old(nodes)[d.value]) ==>
              r == Success(d.value) && expanded.None? && nodes == AddVirtualLoss(old(nodes), d.value))
        && (d.Success? && !IsTerminalState(rules, old(nodes)[d.value]) ==> expanded == Some(d.value))
      ensures expanded.Some? ==>
        var p := expanded.value;
        && p < |old(nodes)| && !IsFullyExpanded(old(nodes)[p])
        && if Expands(rules, old(nodes), p, reply) then
             r == Success(|old(nodes)|) && nodes == AddVirtualLoss(ExpandAt(rules, old(nodes), p, reply), |old(nodes)|)
           else
             r == Failure(ExpandedState(rules, old(nodes)[p].state, LastAction(old(nodes)[p]), reply).error) &&
             nodes == Popped(old(nodes), p)
      ensures r.Success? ==> Valid() && r.value < |nodes| && root in Path(nodes, r.value)
    {
      expanded := None;
      var current := root;
      PathBelow(nodes, root);
      while !IsTerminalState(rules, nodes[current])
        invariant Valid() && root == old(root) && nodes == old(nodes) && expanded.None?
        invariant current < |nodes| && root in Path(nodes, current)
        invariant Descend(rules, nodes, current, floats) == Descend(rules, nodes, root, floats)
        decreases |nodes| - current
      {
        if !IsFullyExpanded(nodes[current]) {
          ghost var p := current;
          ghost var before := nodes;
          var c := Expand(current, reply, now);
          expanded := Some(p);
          if c.Failure? {
            r := Failure(c.error);
            return;
          }
          current := c.value;
          PathFrame(before, nodes, p);
          break;
        } else if IsLeaf(nodes[current]) {
          r := Failure(EmptyArgmax);
          return;
        } else {
          var next := GetBestChild(nodes, current, floats);
          assert NodeWf(rules, nodes, current);
          current := next;
        }
      }
      MarkVirtualLoss(current);
      r := Success(current);
    }

    /** Adds the virtual loss to node `i`, which keeps the tree's shape. */
    method MarkVirtualLoss(i: nat)
      requires Valid() && i < |nodes|
      modifies this
      ensures Valid() && root == old(root)
      ensures nodes == AddVirtualLoss(old(nodes), i)
      ensures Path(nodes, i) == Path(old(nodes), i)
    {
      ghost var before := nodes;
      nodes := AddVirtualLoss(nodes, i);
      WfShape(rules, before, nodes);
      WfProperties(rules, nodes);
      PathFrame(before, nodes, i);
    }

    /**
     * The value of node `i`: its game's result when it has one, otherwise the mean of
     * 500 random playouts of at most 100 half-moves on a copy of its game. `ends` are the
     * playouts' final histories.
     */
    method Simulate(i: nat, now: string) returns (v: real, ghost ends: seq<seq<Move>>)
      requires i < |nodes|
      ensures Estimated(rules, nodes[i].state, v, ends)
      ensures -1.0 <= v <= 1.0
    {
      var result := ResultOf(rules, nodes[i].state);
      ends := [];
      if result.Some? {
        v := result.value as real;
      } else {
        var copy := new Game.OnBoard(rules, nodes[i].state, now);
        var sim := new Simulation.RandomSimulation(copy);
        var mean: Option<real>;
        ghost var results: seq<int>;
        mean, results, ends := sim.Run(SIM_MAX_MOVES, SIM_REPETITIONS);
        v := mean.value;
      }
      EstimatedInRange(rules, nodes[i].state, v, ends);
    }

    /**
     * Adds a visit and `v` to node `i` and to each of its ancestors; only node `i` loses
     * its virtual loss, and only when asked, since the recursive call uses the default.
     */
    method Backprop(i: nat, v: real, removeVirtualLoss: bool)
      requires Valid() && i < |nodes|
      modifies this
      ensures Valid() && root == old(root)
      ensures nodes == Backpropagated(old(nodes), i, v, removeVirtualLoss)
      decreases i
    {
      ghost var before := nodes;
      var n := nodes[i];
      nodes := nodes[i := Visited(n, v, removeVirtualLoss)];
      WfShape(rules, before, nodes);
      WfProperties(rules, nodes);
      if n.parent.Some? {
        var p := n.parent.value;
        ghost var mid := nodes;
        Backprop(p, v, false);
        PathFrame(before, mid, p);
        PathBelow(before, p);
        forall j | 0 <= j < |nodes|
          ensures nodes[j] == Backpropagated(before, i, v, removeVirtualLoss)[j]
        {
        }
      } else {
        forall j | 0 <= j < |nodes|
          ensures nodes[j] == Backpropagated(before, i, v, removeVirtualLoss)[j]
        {
        }
      }
    }

    /**
     * One search iteration from the root: select (and maybe expand) a node, estimate its
     * value, and backpropagate it to the root, removing the selected node's virtual loss.
     * The ghost results say which node was expanded and which simulated, its value and
     * the playouts behind it.
     */
    method ExploreTree(reply: Opponent, now: string)
      returns (r: Result<(), SearchError>, ghost expanded: Option<nat>, ghost selected: nat,
               ghost v: real, ghost ends: seq<seq<Move>>)
      requires Valid()
      modifies this
      ensures root == old(root)
      ensures Explored(rules, floats, old(nodes), old(root), reply, nodes, r, expanded, selected, v, ends)
      ensures r.Success? ==> Valid() && selected < |nodes| && root in Path(nodes, selected)
    {
      ghost var before := nodes;
      var sel: Result<nat, SearchError>;
      sel, expanded := Select(reply, now);
      if sel.Failure? {
        r, selected, v, ends := Failure(sel.error), 0, 0.0, [];
        return;
      }
      selected := sel.value;
      var value;
      value, ends := Simulate(sel.value, now);
      v := value;
      if expanded.Some? {
        ExpandAtEffect(rules, before, expanded.value, reply);
      }
      ghost var mid := nodes;
      Backprop(sel.value, value, true);
      BackpropagatedParents(mid, selected, v, true);
      r := Success(());
    }

    /**
     * Stores the predicted priors on the children of node `i`, pairing the first prior
     * with the last child created, the second with the one before, and so on; pairing
     * stops at the shorter of the two.
     */
    method UpdatePrior(i: nat, priors: seq<real>)
      requires Valid() && i < |nodes|
      modifies this
      ensures Valid() && root == old(root) && |nodes| == |old(nodes)|
      ensures forall j :: 0 <= j < |nodes| ==> nodes[j] == old(nodes)[j].(prior := nodes[j].prior)
      ensures forall j :: 0 <= j < |nodes| && j !in old(nodes)[i].children ==> nodes[j] == old(nodes)[j]
      ensures var cs := old(nodes)[i].children;
        forall p :: 0 <= p < |cs| ==>
          nodes[cs[p]].prior == if |cs| - 1 - p < |priors| then priors[|cs| - 1 - p] else old(nodes)[cs[p]].prior
    {
      var cs := nodes[i].children;
      assert NodeWf(rules, nodes, i);
      var k := 0;
      while k < |priors| && k < |cs|
        invariant 0 <= k <= |cs| && k <= |priors|
        invariant forall a, b :: 0 <= a < b < |cs| ==> cs[a] < cs[b]
        invariant forall p :: 0 <= p < |cs| ==> cs[p] < |nodes|
        invariant |nodes| == |old(nodes)| && root == old(root)
        invariant forall j :: 0 <= j < |nodes| ==> nodes[j] == old(nodes)[j].(prior := nodes[j].prior)
        invariant forall j :: 0 <= j < |nodes| && j !in cs ==> nodes[j] == old(nodes)[j]
        invariant forall p :: 0 <= p < |cs| ==>
          nodes[cs[p]].prior == if |cs| - 1 - p < k then priors[|cs| - 1 - p] else old(nodes)[cs[p]].prior
      {
        var c := cs[|cs| - 1 - k];
        nodes := nodes[c := nodes[c].(prior := priors[k])];
        k := k + 1;
      }
      WfShape(rules, old(nodes), nodes);
      WfProperties(rules, nodes);
    }

    /**
     * The answer read off the root's policy: the child with the highest entry (with
     * noise, any child), as the last two half-moves of its history, or the last one only
     * without `aiMove`; argmax fails on a root without children.
     */
    method AnswerFromPolicy(noise: bool, aiMove: bool) returns (r: Result<SearchMoves, SearchError>)
      requires Valid() && nodes[root].visits > 0
      ensures r.Failure? <==> IsLeaf(nodes[root])
      ensures r.Success? ==>
        exists k :: 0 <= k < |nodes[root].children| && r.value == MovesOf(nodes[nodes[root].children[k]].state, aiMove)
      ensures r.Success? && !noise && |nodes[root].state| < 30 ==>
        r.value == MovesOf(nodes[nodes[root].children[ArgMax(Reals(ChildVisits(nodes, root)))]].state, aiMove)
      ensures |nodes[root].children| == 1 ==> r == Success(MovesOf(nodes[nodes[root].children[0]].state, aiMove))
    {
      var policy := ComputePolicy(nodes, root, floats);
      if |policy| == 0 {
        r := Failure(EmptyArgmax);
        return;
      }
      var best: nat;
      if noise {
        best :| 0 <= best < |policy|;
      } else {
        best := ArgMax(policy);
        if |nodes[root].state| < 30 {
          PolicyPicksMostVisited(nodes, root, floats);
        }
      }
      var child := nodes[root].children[best];
      r := Success(MovesOf(nodes[child].state, aiMove));
    }

    /**
     * One search iteration, then the child of the root with the highest policy entry
     * (with noise, any child), answered as the last two half-moves of its history, or the
     * last one only without `aiMove`. The iteration count the caller asks for is not used.
     * `explored` is the outcome of the iteration, the other ghost results as in
     * `ExploreTree`.
     */
    method SearchMove(reply: Opponent, noise: bool, aiMove: bool, now: string)
      returns (r: Result<SearchMoves, SearchError>, ghost explored: Result<(), SearchError>,
               ghost expanded: Option<nat>, ghost selected: nat, ghost v: real, ghost ends: seq<seq<Move>>)
      requires Valid()
      modifies this
      ensures root == old(root)
      ensures Explored(rules, floats, old(nodes), old(root), reply, nodes, explored, expanded, selected, v, ends)
      ensures explored.Failure? ==> r == Failure(explored.error)
      ensures explored.Success? ==>
        && Valid()
        && nodes[root].visits == old(nodes)[root].visits + 1
        && nodes[root].children ==
             old(nodes)[root].children + (if expanded == Some(old(root)) then [|old(nodes)|] else [])
        && (r.Failure? <==> IsLeaf(nodes[root]))
      ensures r.Success? ==>
        Valid() &&
        exists k :: 0 <= k < |nodes[root].children| && r.value == MovesOf(nodes[nodes[root].children[k]].state, aiMove)
      ensures r.Success? && !noise && |nodes[root].state| < 30 ==>
        Valid() &&
        r.value == MovesOf(nodes[nodes[root].children[ArgMax(Reals(ChildVisits(nodes, root)))]].state, aiMove)
      ensures IsLeaf(old(nodes)[old(root)]) ==>
        var n := old(nodes)[old(root)];
        if IsTerminalState(rules, n) || IsFullyExpanded(n) then r.Failure?
        else
          var e := ExpandedState(rules, n.state, LastAction(n), reply);
          r == if e.Failure? then Failure(e.error) else Success(MovesOf(e.value, aiMove))
    {
      ghost var before := nodes;
      var e: Result<(), SearchError>;
      e, expanded, selected, v, ends := ExploreTree(reply, now);
      explored := e;
      if e.Failure? {
        r := Failure(e.error);
        return;
      }
      ExploredRoot(rules, floats, before, root, reply, nodes, e, expanded, selected, v, ends);
      r := AnswerFromPolicy(noise, aiMove);
    }
  }
}
