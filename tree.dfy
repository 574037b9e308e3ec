/**
 * The shape of a search tree held in an arena: what every tree built by the search
 * keeps true, the ancestor path of a node, and the pure effect of the tree operations.
 */
module Trees {
  import opened Wrappers
  import opened Games
  import opened Nodes

  /** What holds of node `i` of a well-formed arena. */
  ghost predicate NodeWf(rules: Rules, nodes: seq<Node>, i: nat)
    requires i < |nodes|
  {
    var n := nodes[i];
    && (n.parent.Some? ==> n.parent.value < i && i in nodes[n.parent.value].children)
    && (forall k :: 0 <= k < |n.children| ==>
          i < n.children[k] < |nodes| && nodes[n.children[k]].parent == Some(i))
    && (forall k, l :: 0 <= k < l < |n.children| ==> n.children[k] < n.children[l])
    && |n.children| + |n.unexpandedActions| == |rules.legalMoves(n.state)|
    && n.unexpandedActions == rules.legalMoves(n.state)[..|n.unexpandedActions|]
  }

  /**
   * A well-formed arena: parents come before their children, parent and child links
   * agree, children are in creation order, the actions a node has left are the first of
   * its legal moves (they are popped from the end), and it has one child for each legal
   * move after them.
   */
  ghost predicate Wf(rules: Rules, nodes: seq<Node>) {
    forall i :: 0 <= i < |nodes| ==> NodeWf(rules, nodes, i)
  }

  ghost predicate ParentsBefore(nodes: seq<Node>) {
    forall i :: 0 <= i < |nodes| && nodes[i].parent.Some? ==> nodes[i].parent.value < i
  }

  lemma WfProperties(rules: Rules, nodes: seq<Node>)
    requires Wf(rules, nodes)
    ensures ParentsBefore(nodes) && ChildrenInArena(nodes)
  {
    forall i | 0 <= i < |nodes| && nodes[i].parent.Some? ensures nodes[i].parent.value < i {
      assert NodeWf(rules, nodes, i);
    }
    forall i, k | 0 <= i < |nodes| && 0 <= k < |nodes[i].children|
      ensures nodes[i].children[k] < |nodes|
    {
      assert NodeWf(rules, nodes, i);
    }
  }

  /** Node `i` and its ancestors up to the node without a parent. */
  ghost function Path(nodes: seq<Node>, i: nat): set<nat>
    requires i < |nodes| && ParentsBefore(nodes)
    decreases i
  {
    if nodes[i].parent.None? then {i} else {i} + Path(nodes, nodes[i].parent.value)
  }

  /** No node on the path of `i` comes after `i`. */
  lemma {:induction false} PathBelow(nodes: seq<Node>, i: nat)
    requires i < |nodes| && ParentsBefore(nodes)
    ensures i in Path(nodes, i)
    ensures forall j :: j in Path(nodes, i) ==> j <= i
    decreases i
  {
    if nodes[i].parent.Some? {
      PathBelow(nodes, nodes[i].parent.value);
    }
  }

  /** The path of a node depends only on the parent links up to it. */
  lemma {:induction false} PathFrame(a: seq<Node>, b: seq<Node>, i: nat)
    requires i < |a| && i < |b| && ParentsBefore(a) && ParentsBefore(b)
    requires forall j :: 0 <= j <= i ==> a[j].parent == b[j].parent
    ensures Path(a, i) == Path(b, i)
    decreases i
  {
    if a[i].parent.Some? {
      PathFrame(a, b, a[i].parent.value);
    }
  }

  /** Two nodes agree on everything but their statistics. */
  predicate SameShape(x: Node, y: Node) {
    x.state == y.state && x.children == y.children && x.parent == y.parent &&
    x.unexpandedActions == y.unexpandedActions
  }

  /** Well-formedness depends only on the shapes of the nodes. */
  lemma WfShape(rules: Rules, a: seq<Node>, b: seq<Node>)
    requires Wf(rules, a) && |a| == |b|
    requires forall j :: 0 <= j < |a| ==> SameShape(a[j], b[j])
    ensures Wf(rules, b)
  {
    forall i | 0 <= i < |b| ensures NodeWf(rules, b, i) {
      assert NodeWf(rules, a, i);
    }
  }

  /**
   * The opponent: in a position, the reply it plays, or the error its own search ends in.
   * In the program it is the MCTS agent itself.
   */
  type Opponent = seq<Move> -> Result<Move, SearchError>

  /**
   * The history of a child created from `state` by the action `a`: the action is played
   * with the guarded move and, while the game has no result, so is the opponent's reply;
   * an opponent that fails makes the expansion fail with it.
   */
  function ExpandedState(rules: Rules, state: seq<Move>, a: Move, reply: Opponent): Result<seq<Move>, SearchError> {
    var afterOurs := if a in rules.legalMoves(state) then state + [a] else state;
    if ResultOf(rules, afterOurs).Some? then Success(afterOurs)
    else
      match reply(afterOurs)
      case Failure(e) => Failure(e)
      case Success(b) => Success(if b in rules.legalMoves(afterOurs) then afterOurs + [b] else afterOurs)
  }

  /**
   * Expanding by a legal action fails exactly when the game has no result after it and
   * the opponent fails there; otherwise the child's history extends its parent's by the
   * action, and by the opponent's reply exactly when the game had no result after the
   * action and the reply is legal.
   */
  lemma ExpandedStateShape(rules: Rules, state: seq<Move>, a: Move, reply: Opponent)
    requires a in rules.legalMoves(state)
    ensures var s := ExpandedState(rules, state, a, reply);
      var h := state + [a];
      && (s.Failure? <==> ResultOf(rules, h).None? && reply(h).Failure?)
      && (s.Failure? ==> s.error == reply(h).error)
      && (s.Success? ==>
            var answered := ResultOf(rules, h).None? && reply(h).value in rules.legalMoves(h);
            s.value[..|state| + 1] == h &&
            |s.value| == |state| + (if answered then 2 else 1) &&
            (answered ==> s.value[|state| + 1] == reply(h).value))
  {
  }

  /** Node `p` has an action left, and the opponent answers the position that action leads to. */
  predicate Expands(rules: Rules, nodes: seq<Node>, p: nat, reply: Opponent) {
    p < |nodes| && !IsFullyExpanded(nodes[p]) &&
    ExpandedState(rules, nodes[p].state, LastAction(nodes[p]), reply).Success?
  }

  /**
   * The arena after node `p` popped its last action: all that is left of an expansion
   * whose opponent failed.
   */
  function Popped(nodes: seq<Node>, p: nat): (r: seq<Node>)
    requires p < |nodes| && !IsFullyExpanded(nodes[p])
    ensures |r| == |nodes| && r[p].unexpandedActions + [LastAction(nodes[p])] == nodes[p].unexpandedActions
    ensures forall j :: 0 <= j < |r| ==> r[j].parent == nodes[j].parent && r[j].children == nodes[j].children
  {
    nodes[p := WithoutLastAction(nodes[p])]
  }

  /** The arena after node `p` popped its last action and gained the child it leads to. */
  function ExpandAt(rules: Rules, nodes: seq<Node>, p: nat, reply: Opponent): (r: seq<Node>)
    requires Expands(rules, nodes, p, reply)
    ensures |r| == |nodes| + 1
    ensures ParentsBefore(nodes) ==> ParentsBefore(r)
  {
    var n := nodes[p];
    var c := |nodes|;
    nodes[p := WithoutLastAction(n).(children := n.children + [c])]
      + [NewNode(rules, ExpandedState(rules, n.state, LastAction(n), reply).value, Some(p))]
  }

  /** Expanding is popping the last action, then appending the child it leads to. */
  lemma ExpandAtAfterPop(rules: Rules, nodes: seq<Node>, p: nat, reply: Opponent)
    requires Expands(rules, nodes, p, reply)
    ensures var q := Popped(nodes, p);
      var child := NewNode(rules, ExpandedState(rules, nodes[p].state, LastAction(nodes[p]), reply).value, Some(p));
      ExpandAt(rules, nodes, p, reply) == q[p := q[p].(children := q[p].children + [|nodes|])] + [child]
  {
  }

  /** Expanding keeps node `i` well formed: the new child, its parent and every other node. */
  lemma ExpandAtNodeWf(rules: Rules, nodes: seq<Node>, p: nat, reply: Opponent, i: nat)
    requires Wf(rules, nodes) && Expands(rules, nodes, p, reply) && i <= |nodes|
    ensures NodeWf(rules, ExpandAt(rules, nodes, p, reply), i)
  {
    if i == p {
      assert NodeWf(rules, nodes, p);
      var n := nodes[p];
      var legal := rules.legalMoves(n.state);
      var k := |n.unexpandedActions|;
      assert legal[..k][..k - 1] == legal[..k - 1];
    } else if i < |nodes| {
      assert NodeWf(rules, nodes, i);
    }
  }

  /** Expanding keeps the arena well formed. */
  lemma ExpandAtWf(rules: Rules, nodes: seq<Node>, p: nat, reply: Opponent)
    requires Wf(rules, nodes) && Expands(rules, nodes, p, reply)
    ensures Wf(rules, ExpandAt(rules, nodes, p, reply))
  {
    forall i | 0 <= i < |nodes| + 1 ensures NodeWf(rules, ExpandAt(rules, nodes, p, reply), i) {
      ExpandAtNodeWf(rules, nodes, p, reply, i);
    }
  }

  /** The arena with one more virtual loss on node `i`. */
  function AddVirtualLoss(nodes: seq<Node>, i: nat): (r: seq<Node>)
    requires i < |nodes|
    ensures |r| == |nodes| && r[i].vloss == nodes[i].vloss + VIRTUAL_LOSS
    ensures forall j :: 0 <= j < |r| ==> SameShape(r[j], nodes[j]) && (j != i ==> r[j] == nodes[j])
    ensures ParentsBefore(nodes) ==> ParentsBefore(r)
  {
    nodes[i := nodes[i].(vloss := nodes[i].vloss + VIRTUAL_LOSS)]
  }

  /** One backpropagation step on a node: one more visit, `v` more value, and the virtual loss removed if asked. */
  function Visited(n: Node, v: real, removeVirtualLoss: bool): Node {
    n.(visits := n.visits + 1, value := n.value + v,
       vloss := if removeVirtualLoss then n.vloss - VIRTUAL_LOSS else n.vloss)
  }

  /** The arena after backpropagating `v` from node `i`; only `i` may lose its virtual loss. */
  ghost function Backpropagated(nodes: seq<Node>, i: nat, v: real, removeVirtualLoss: bool): (r: seq<Node>)
    requires i < |nodes| && ParentsBefore(nodes)
    ensures |r| == |nodes|
  {
    seq(|nodes|, j requires 0 <= j < |nodes| =>
      if j in Path(nodes, i) then Visited(nodes[j], v, removeVirtualLoss && j == i) else nodes[j])
  }

  /** Two nodes carry the same statistics. */
  predicate SameStats(x: Node, y: Node) {
    x.value == y.value && x.visits == y.visits && x.prior == y.prior && x.vloss == y.vloss
  }

  /**
   * Expanding node `p` changes only its actions and children, and the new child starts
   * with no statistics.
   */
  lemma ExpandAtEffect(rules: Rules, nodes: seq<Node>, p: nat, reply: Opponent)
    requires Expands(rules, nodes, p, reply)
    ensures var r := ExpandAt(rules, nodes, p, reply);
      && (forall j :: 0 <= j < |nodes| ==> SameStats(r[j], nodes[j]) && r[j].parent == nodes[j].parent)
      && (forall j :: 0 <= j < |nodes| && j != p ==> r[j] == nodes[j])
      && r[p].children == nodes[p].children + [|nodes|]
      && r[p].state == nodes[p].state && r[p].unexpandedActions == nodes[p].unexpandedActions[..|nodes[p].unexpandedActions| - 1]
      && r[|nodes|].parent == Some(p) && r[|nodes|].children == []
      && r[|nodes|].state == ExpandedState(rules, nodes[p].state, LastAction(nodes[p]), reply).value
      && r[|nodes|].visits == 0 && r[|nodes|].value == 0.0 && r[|nodes|].vloss == 0
  {
  }

  /**
   * A virtual loss on node `i` followed by a backpropagation from `i` that removes it:
   * the nodes on the path of `i` gain one visit and the value, and nothing else changes.
   */
  lemma LossThenBackprop(a: seq<Node>, i: nat, v: real)
    requires i < |a| && ParentsBefore(a)
    ensures ParentsBefore(AddVirtualLoss(a, i))
    ensures var b := Backpropagated(AddVirtualLoss(a, i), i, v, true);
      forall j :: 0 <= j < |a| ==>
        && SameShape(b[j], a[j]) && b[j].prior == a[j].prior && b[j].vloss == a[j].vloss
        && b[j].visits == a[j].visits + (if j in Path(a, i) then 1 else 0)
        && b[j].value == a[j].value + (if j in Path(a, i) then v else 0.0)
  {
    var m := AddVirtualLoss(a, i);
    assert ParentsBefore(m);
    PathFrame(a, m, i);
    PathBelow(a, i);
  }

  /** Backpropagation keeps the parent links. */
  lemma BackpropagatedParents(a: seq<Node>, i: nat, v: real, removeVirtualLoss: bool)
    requires i < |a| && ParentsBefore(a)
    ensures var b := Backpropagated(a, i, v, removeVirtualLoss);
      ParentsBefore(b) && (forall j :: 0 <= j < |a| ==> SameShape(b[j], a[j])) && Path(b, i) == Path(a, i)
  {
    var b := Backpropagated(a, i, v, removeVirtualLoss);
    assert forall j :: 0 <= j < |a| ==> SameShape(b[j], a[j]);
    PathFrame(a, b, i);
  }

  /**
   * Where selection from node `i` stops: it follows the best child through nodes that
   * are neither terminal nor left with an action, stops at the first node that is, and
   * fails at a fully expanded leaf, where argmax has no child to choose from.
   */
  function Descend(rules: Rules, nodes: seq<Node>, i: nat, f: Floats): (r: Result<nat, SearchError>)
    requires Wf(rules, nodes) && i < |nodes|
    ensures r.Success? ==>
      i <= r.value < |nodes| && (IsTerminalState(rules, nodes[r.value]) || !IsFullyExpanded(nodes[r.value]))
    ensures r.Failure? ==> exists j :: i <= j < |nodes| && IsFullyExpanded(nodes[j]) && IsLeaf(nodes[j])
    decreases |nodes| - i
  {
    if IsTerminalState(rules, nodes[i]) || !IsFullyExpanded(nodes[i]) then Success(i)
    else if IsLeaf(nodes[i]) then Failure(EmptyArgmax)
    else
      WfProperties(rules, nodes);
      assert NodeWf(rules, nodes, i);
      Descend(rules, nodes, GetBestChild(nodes, i, f), f)
  }
}
