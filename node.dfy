/**
 * A vertex of the Monte Carlo search tree. The tree is an arena: nodes are records in a
 * sequence, and `children` and `parent` hold indices into it. The game-state snapshot of
 * a node is the half-move history of its game.
 */
module Nodes {
  import opened Wrappers
  import opened Games

  /** The penalty a selection puts on a node until its result is backpropagated. */
  const VIRTUAL_LOSS: int := 1

  /** Stands for an infinite score, so that the division by zero is never reached. */
  const SENTINEL: real := 99999999999.0

  /** The exploration constants of UCB1 and of the prior-weighted score. */
  const UCB_C: real := 2.0
  const PUCT_C: real := 10.0

  /**
   * The floating-point formulas the model leaves uninterpreted: the square root of the
   * children's visit sum, the UCB1 bonus sqrt(log(N) / n) for parent visits N and own
   * visits n, and visits^(1/tau) / total^(1/tau) for the annealed temperature at a
   * given number of half-moves.
   */
  datatype Floats = Floats(
    sqrt: nat -> real,
    ucbBonus: (nat, nat) -> real,
    annealed: (nat, nat, nat) -> real)

  datatype Node = Node(
    state: seq<Move>,
    children: seq<nat>,
    parent: Option<nat>,
    unexpandedActions: seq<Move>,
    value: real,
    visits: nat,
    prior: real,
    vloss: int)

  /** A fresh node over `state`: no children, no statistics, every legal move still to try. */
  function NewNode(rules: Rules, state: seq<Move>, parent: Option<nat>): (n: Node)
    ensures n.state == state && n.parent == parent && n.children == []
    ensures n.unexpandedActions == rules.legalMoves(state)
    ensures n.value == 0.0 && n.visits == 0 && n.prior == 1.0 && n.vloss == 0
  {
    Node(state, [], parent, rules.legalMoves(state), 0.0, 0, 1.0, 0)
  }

  /** A node without children. */
  predicate IsLeaf(n: Node) {
    |n.children| == 0
  }

  /** A node without an action left to expand. */
  predicate IsFullyExpanded(n: Node) {
    |n.unexpandedActions| == 0
  }

  /** A node whose game has a result. */
  predicate IsTerminalState(rules: Rules, n: Node) {
    ResultOf(rules, n.state).Some?
  }

  /** A node without a parent. */
  predicate IsRoot(n: Node) {
    n.parent.None?
  }

  /** The action `pop()` removes: the last one of the list. */
  function LastAction(n: Node): (a: Move)
    requires !IsFullyExpanded(n)
    ensures a in n.unexpandedActions
  {
    n.unexpandedActions[|n.unexpandedActions| - 1]
  }

  /** The node after the last unexpanded action was popped. */
  function WithoutLastAction(n: Node): (m: Node)
    requires !IsFullyExpanded(n)
    ensures m.unexpandedActions + [LastAction(n)] == n.unexpandedActions
    ensures m == n.(unexpandedActions := m.unexpandedActions)
  {
    n.(unexpandedActions := n.unexpandedActions[..|n.unexpandedActions| - 1])
  }

  /**
   * The UCB1 score of a node given its parent's visit count (None for a node without a
   * parent, whose score fails once it has been visited).
   */
  function GetUcb1(n: Node, parentVisits: Option<nat>, f: Floats): (r: Option<real>)
    ensures n.visits == 0 ==> r == Some(SENTINEL)
    ensures n.visits > 0 ==> (r.Some? <==> parentVisits.Some?)
    ensures n.visits > 0 && parentVisits.Some? ==>
      r.value - UCB_C * f.ucbBonus(parentVisits.value, n.visits) == n.value / n.visits as real
  {
    if n.visits == 0 then Some(SENTINEL)
    else if parentVisits.None? then None
    else Some(n.value / n.visits as real + UCB_C * f.ucbBonus(parentVisits.value, n.visits))
  }

  /**
   * The prior-weighted score Q + U minus the virtual loss, given the sum of the visits of
   * the node's children; a root scores the sentinel minus its virtual loss.
   */
  function GetValue(n: Node, childVisits: nat, f: Floats): real {
    var score :=
      if IsRoot(n) then SENTINEL
      else n.value / (1 + n.visits) as real + PUCT_C * n.prior * (f.sqrt(childVisits) / (1 + n.visits) as real);
    score - n.vloss as real
  }

  /** On a root the score is the sentinel, less the virtual loss. */
  lemma GetValueOfRoot(n: Node, childVisits: nat, f: Floats)
    requires IsRoot(n)
    ensures GetValue(n, childVisits, f) == SENTINEL - n.vloss as real
  {
  }

  /** Raising the virtual loss by k lowers the score by exactly k, everything else equal. */
  lemma GetValueVirtualLoss(n: Node, childVisits: nat, f: Floats, k: int)
    ensures GetValue(n.(vloss := n.vloss + k), childVisits, f) == GetValue(n, childVisits, f) - k as real
  {
  }

  /** A non-root node whose children have no visits has no exploration term. */
  lemma GetValueWithoutChildVisits(n: Node, f: Floats)
    requires !IsRoot(n) && f.sqrt(0) == 0.0
    ensures GetValue(n, 0, f) == n.value / (1 + n.visits) as real - n.vloss as real
  {
  }

  /** The index of the first maximum, as numpy's argmax returns it. */
  function ArgMax(xs: seq<real>): (k: nat)
    requires |xs| > 0
    ensures k < |xs|
    ensures forall j :: 0 <= j < |xs| ==> xs[j] <= xs[k]
    ensures forall j :: 0 <= j < k ==> xs[j] < xs[k]
    decreases |xs|
  {
    if |xs| == 1 then 0
    else
      var k := ArgMax(xs[..|xs| - 1]);
      if xs[|xs| - 1] > xs[k] then |xs| - 1 else k
  }

  /** The first maximum is the only index with both properties of `ArgMax`. */
  lemma ArgMaxUnique(xs: seq<real>, k: nat)
    requires k < |xs|
    requires forall j :: 0 <= j < |xs| ==> xs[j] <= xs[k]
    requires forall j :: 0 <= j < k ==> xs[j] < xs[k]
    ensures ArgMax(xs) == k
  {
  }

  /** numpy's argmax over an empty sequence raises ValueError. */
  datatype SearchError = EmptyArgmax

  /** Every child index of every node lies inside the arena. */
  ghost predicate ChildrenInArena(nodes: seq<Node>) {
    forall i, k :: 0 <= i < |nodes| && 0 <= k < |nodes[i].children| ==> nodes[i].children[k] < |nodes|
  }

  /** The sum of the visit counts of the nodes at `indices`. */
  function SumVisits(nodes: seq<Node>, indices: seq<nat>): nat
    requires forall k :: 0 <= k < |indices| ==> indices[k] < |nodes|
    decreases |indices|
  {
    if indices == [] then 0
    else SumVisits(nodes, indices[..|indices| - 1]) + nodes[indices[|indices| - 1]].visits
  }

  /** The visit counts of the children of node `i`, in order. */
  function ChildVisits(nodes: seq<Node>, i: nat): (vs: seq<nat>)
    requires i < |nodes| && ChildrenInArena(nodes)
    ensures |vs| == |nodes[i].children|
    ensures forall k :: 0 <= k < |vs| ==> vs[k] == nodes[nodes[i].children[k]].visits
  {
    var cs := nodes[i].children;
    seq(|cs|, k requires 0 <= k < |cs| => nodes[cs[k]].visits)
  }

  /** Natural numbers as reals, in order. */
  function Reals(xs: seq<nat>): (rs: seq<real>)
    ensures |rs| == |xs| && forall k :: 0 <= k < |xs| ==> rs[k] == xs[k] as real
  {
    seq(|xs|, k requires 0 <= k < |xs| => xs[k] as real)
  }

  /** The score of every child of node `i`, in order. */
  function ChildValues(nodes: seq<Node>, i: nat, f: Floats): (vs: seq<real>)
    requires i < |nodes| && ChildrenInArena(nodes)
    ensures |vs| == |nodes[i].children|
  {
    var cs := nodes[i].children;
    seq(|cs|, k requires 0 <= k < |cs| =>
      GetValue(nodes[cs[k]], SumVisits(nodes, nodes[cs[k]].children), f))
  }

  /** The child with the highest score, the first one on a tie. */
  function GetBestChild(nodes: seq<Node>, i: nat, f: Floats): (c: nat)
    requires i < |nodes| && ChildrenInArena(nodes) && !IsLeaf(nodes[i])
    ensures c in nodes[i].children
    ensures var vs := ChildValues(nodes, i, f); var k := ArgMax(vs);
      c == nodes[i].children[k] &&
      (forall j :: 0 <= j < |vs| ==> vs[j] <= vs[k]) &&
      (forall j :: 0 <= j < k ==> vs[j] < vs[k])
  {
    nodes[i].children[ArgMax(ChildValues(nodes, i, f))]
  }
}
