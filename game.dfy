/**
 * The game environment: a chess game is its history of half-moves played from the
 * standard initial position. The chess rules themselves (which moves are legal, when
 * a draw can be claimed, checkmate) are not modelled: they are uninterpreted
 * functions of the history, gathered in `Rules`.
 */
module Games {
  import opened Wrappers

  /** A half-move in UCI notation, such as "e2e4". */
  type Move = string

  /** The move the engines answer with when they have no move to offer. */
  const NULL_MOVE: Move := "00000"

  datatype Color = White | Black

  /** The chess rules, as functions of the half-moves played from the initial position. */
  datatype Rules = Rules(
    legalMoves: seq<Move> -> seq<Move>,
    canClaimFiftyMoves: seq<Move> -> bool,
    isInsufficientMaterial: seq<Move> -> bool,
    isCheckmate: seq<Move> -> bool)

  /** Every board starts from the initial position, so white is to move after an even number of half-moves. */
  predicate WhiteToMove(history: seq<Move>) {
    |history| % 2 == 0
  }

  /**
   * The result for the white pieces, None while the game goes on. The draw checks come
   * first; a checkmate with white to move is scored 1, as the game environment does.
   */
  function ResultOf(rules: Rules, history: seq<Move>): (r: Option<int>)
    ensures r.Some? ==> r.value in {-1, 0, 1}
    ensures r.None? <==>
      !rules.canClaimFiftyMoves(history) && !rules.isInsufficientMaterial(history) && !rules.isCheckmate(history)
    ensures rules.canClaimFiftyMoves(history) || rules.isInsufficientMaterial(history) ==> r == Some(0)
  {
    if rules.canClaimFiftyMoves(history) || rules.isInsufficientMaterial(history) then Some(0)
    else if rules.isCheckmate(history) then (if WhiteToMove(history) then Some(1) else Some(-1))
    else None
  }

  /** Every half-move of `history` from index `from` on was legal where it was played. */
  ghost predicate LegalSince(rules: Rules, history: seq<Move>, from: nat) {
    forall j :: from <= j < |history| ==> history[j] in rules.legalMoves(history[..j])
  }

  /** Plays `moves` after `start` with the guarded move of `Game`: an illegal half-move is skipped. */
  function Replay(rules: Rules, start: seq<Move>, moves: seq<Move>): (h: seq<Move>)
    ensures |start| <= |h| <= |start| + |moves|
    ensures h[..|start|] == start
    decreases |moves|
  {
    if moves == [] then start
    else
      var next := if moves[0] in rules.legalMoves(start) then start + [moves[0]] else start;
      Replay(rules, next, moves[1..])
  }

  /** Replaying keeps every half-move exactly when each was legal in its turn. */
  lemma {:induction false} ReplayKeepsAllIffLegal(rules: Rules, start: seq<Move>, moves: seq<Move>)
    ensures Replay(rules, start, moves) == start + moves <==> LegalSince(rules, start + moves, |start|)
    decreases |moves|
  {
    if moves == [] {
      assert start + moves == start;
    } else {
      var m, rest := moves[0], moves[1..];
      var all := start + moves;
      assert all == (start + [m]) + rest;
      assert all[..|start|] == start;
      assert all[|start|] == m;
      if m in rules.legalMoves(start) {
        ReplayKeepsAllIffLegal(rules, start + [m], rest);
        assert LegalSince(rules, all, |start|) <==> LegalSince(rules, all, |start| + 1);
      } else {
        var h := Replay(rules, start, rest);
        assert |h| <= |start| + |rest| < |all|;
        assert !LegalSince(rules, all, |start|);
      }
    }
  }

  /** Replaying one more half-move applies the guarded move once more, after the others. */
  lemma {:induction false} ReplaySnoc(rules: Rules, start: seq<Move>, moves: seq<Move>, m: Move)
    ensures var h := Replay(rules, start, moves);
      Replay(rules, start, moves + [m]) == if m in rules.legalMoves(h) then h + [m] else h
    decreases |moves|
  {
    if moves == [] {
      assert [m][1..] == [];
    } else {
      var next := if moves[0] in rules.legalMoves(start) then start + [moves[0]] else start;
      assert (moves + [m])[0] == moves[0];
      assert (moves + [m])[1..] == moves[1..] + [m];
      ReplaySnoc(rules, next, moves[1..], m);
    }
  }

  /** Replaying one more half-move of `moves` applies the guarded move once more. */
  lemma ReplayPrefixStep(rules: Rules, start: seq<Move>, moves: seq<Move>, i: nat)
    requires i < |moves|
    ensures var h := Replay(rules, start, moves[..i]);
      Replay(rules, start, moves[..i + 1]) == if moves[i] in rules.legalMoves(h) then h + [moves[i]] else h
  {
    ReplaySnoc(rules, start, moves[..i], moves[i]);
    assert moves[..i + 1] == moves[..i] + [moves[i]];
  }

  /** Replaying a prefix of a history whose every half-move was legal gives back that prefix. */
  lemma ReplayLegalPrefix(rules: Rules, history: seq<Move>, k: nat)
    requires LegalSince(rules, history, 0) && k <= |history|
    ensures Replay(rules, [], history[..k]) == history[..k]
  {
    var p := history[..k];
    assert [] + p == p;
    forall j | 0 <= j < |p| ensures p[j] in rules.legalMoves(p[..j]) {
      assert p[..j] == history[..j];
    }
    ReplayKeepsAllIffLegal(rules, [], p);
  }

  /** A serialised game: its half-moves in UCI notation, its result, its point of view and its date. */
  datatype Record = Record(moves: seq<Move>, result: Option<int>, playerColor: Color, date: string)

  /** A game: its board is represented by the half-moves played on it. */
  class Game {
    const rules: Rules
    var history: seq<Move>
    const playerColor: Color
    const date: string

    /** A new game from the initial position; without a date the clock's reading `now` is used. */
    constructor (rules: Rules, playerColor: Color, date: Option<string>, now: string)
      ensures this.rules == rules && history == []
      ensures this.playerColor == playerColor
      ensures this.date == if date.Some? then date.value else now
    {
      this.rules := rules;
      history := [];
      this.playerColor := playerColor;
      this.date := if date.Some? then date.value else now;
    }

    /** A game over a copy of an existing board: white's point of view and the current date. */
    constructor OnBoard(rules: Rules, history: seq<Move>, now: string)
      ensures this.rules == rules && this.history == history
      ensures playerColor == White && date == now
    {
      this.rules := rules;
      this.history := history;
      playerColor := White;
      date := now;
    }

    function LegalMoves(): seq<Move>
      reads this
    {
      rules.legalMoves(history)
    }

    function Result(): Option<int>
      reads this
    {
      ResultOf(rules, history)
    }

    /** The number of half-moves played. */
    function Length(): nat
      reads this
    {
      |history|
    }

    /** The game as a record. */
    function GetHistory(): Record
      reads this
    {
      Record(history, Result(), playerColor, date)
    }

    /** Plays `m` if it is legal now; an illegal move changes nothing. */
    method Move(m: Move) returns (success: bool)
      modifies this
      ensures success <==> m in old(LegalMoves())
      ensures history == if success then old(history) + [m] else old(history)
      ensures Length() == old(Length()) + (if success then 1 else 0)
      ensures LegalSince(rules, old(history), 0) ==> LegalSince(rules, history, 0)
    {
      success := false;
      if m in LegalMoves() {
        history := history + [m];
        success := true;
        forall j | 0 <= j < |old(history)|
          ensures history[..j] == old(history)[..j]
        {
        }
      }
    }

    /** A copy of this game: same half-moves, but white's point of view and a fresh date. */
    method GetCopy(now: string) returns (g: Game)
      ensures fresh(g)
      ensures g.rules == rules && g.history == history
      ensures g.playerColor == White && g.date == now
    {
      g := new Game.OnBoard(rules, history, now);
    }

    /** The legal moves together with a copy of the game advanced by each of them. */
    method LegalMovesWithStates(now: string) returns (moves: seq<Move>, states: seq<Game>)
      ensures moves == LegalMoves()
      ensures |states| == |moves|
      ensures forall i :: 0 <= i < |states| ==>
        fresh(states[i]) && states[i].rules == rules && states[i].history == history + [moves[i]]
      ensures forall i, j :: 0 <= i < j < |states| ==> states[i] != states[j]
    {
      moves := LegalMoves();
      states := [];
      for i := 0 to |moves|
        invariant |states| == i
        invariant forall k :: 0 <= k < i ==>
          fresh(states[k]) && states[k].rules == rules && states[k].history == history + [moves[k]]
        invariant forall k, l :: 0 <= k < l < i ==> states[k] != states[l]
      {
        var gi := GetCopy(now);
        var ok := gi.Move(moves[i]);
        states := states + [gi];
      }
    }
  }
}
