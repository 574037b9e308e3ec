/**
 * The rollout estimator: random playouts on a game, averaged. The random choice of a
 * legal move is a nondeterministic choice.
 */
module Simulation {
  import opened Wrappers
  import opened Games

  /** The sum of the recorded outcomes. */
  function Sum(xs: seq<int>): int
    decreases |xs|
  {
    if xs == [] then 0 else Sum(xs[..|xs| - 1]) + xs[|xs| - 1]
  }

  function Mean(xs: seq<int>): real
    requires |xs| > 0
  {
    Sum(xs) as real / |xs| as real
  }

  /** Outcomes between -1 and 1 sum to at most their number in absolute value. */
  lemma {:induction false} SumBounded(xs: seq<int>)
    requires forall k :: 0 <= k < |xs| ==> -1 <= xs[k] <= 1
    ensures -|xs| <= Sum(xs) <= |xs|
    decreases |xs|
  {
    if xs != [] {
      SumBounded(xs[..|xs| - 1]);
    }
  }

  /** Dividing by a positive number keeps the order. */
  lemma DivisionKeepsOrder(x: real, y: real, t: real)
    requires t > 0.0
    ensures x <= y <==> x / t <= y / t
    ensures x < y <==> x / t < y / t
  {
    assert x / t * t == x;
    assert y / t * t == y;
    if x / t <= y / t {
      assert (y / t - x / t) * t >= 0.0;
    }
    if x / t < y / t {
      assert (y / t - x / t) * t > 0.0;
    }
  }

  /** The mean of outcomes between -1 and 1 lies between -1 and 1. */
  lemma MeanInRange(xs: seq<int>)
    requires |xs| > 0
    requires forall k :: 0 <= k < |xs| ==> -1 <= xs[k] <= 1
    ensures -1.0 <= Mean(xs) <= 1.0
  {
    SumBounded(xs);
    var n := |xs| as real;
    var s := Sum(xs) as real;
    assert -n <= s <= n;
    DivisionKeepsOrder(-n, s, n);
    DivisionKeepsOrder(s, n, n);
    assert n / n == 1.0 by {
      assert (n / n - 1.0) * n == n / n * n - n;
    }
    assert -n / n == -(n / n);
  }

  /** The outcome a playout records: the game's result, or 0 (a draw) if it is unfinished. */
  function Outcome(rules: Rules, history: seq<Move>): (o: int)
    ensures -1 <= o <= 1
    ensures ResultOf(rules, history).Some? ==> o == ResultOf(rules, history).value
    ensures ResultOf(rules, history).None? ==> o == 0
  {
    var r := ResultOf(rules, history);
    if r.Some? then r.value else 0
  }

  /** The outcome recorded for each history in `ends`. */
  function Outcomes(rules: Rules, ends: seq<seq<Move>>): (os: seq<int>)
    ensures |os| == |ends|
    ensures forall k :: 0 <= k < |os| ==> os[k] == Outcome(rules, ends[k])
    decreases |ends|
  {
    if ends == [] then [] else Outcomes(rules, ends[..|ends| - 1]) + [Outcome(rules, ends[|ends| - 1])]
  }

  /**
   * One repetition took the game from `before` to `after`: at most `maxMoves` legal
   * half-moves, each played while the game had no result, and it stopped early only on a
   * result or when no legal move remained.
   */
  ghost predicate Playout(rules: Rules, before: seq<Move>, after: seq<Move>, maxMoves: nat) {
    && |before| <= |after| <= |before| + maxMoves
    && after[..|before|] == before
    && (forall j :: |before| <= j < |after| ==>
          after[j] in rules.legalMoves(after[..j]) && ResultOf(rules, after[..j]).None?)
    && (|after| < |before| + maxMoves ==>
          ResultOf(rules, after).Some? || rules.legalMoves(after) == [])
  }

  /** A playout from a finished game plays nothing. */
  lemma PlayoutFromFinished(rules: Rules, before: seq<Move>, after: seq<Move>, maxMoves: nat)
    requires Playout(rules, before, after, maxMoves)
    requires ResultOf(rules, before).Some?
    ensures after == before
  {
  }

  /** Each history in `ends` is one playout from the one before it, the first from `start`. */
  ghost predicate Repetitions(rules: Rules, start: seq<Move>, ends: seq<seq<Move>>, maxMoves: nat)
    decreases |ends|
  {
    ends == [] ||
    (Repetitions(rules, start, ends[..|ends| - 1], maxMoves) &&
     Playout(rules, if |ends| == 1 then start else ends[|ends| - 2], ends[|ends| - 1], maxMoves))
  }

  /** A further playout from the last history extends a run. */
  lemma RepetitionsExtend(rules: Rules, start: seq<Move>, ends: seq<seq<Move>>, next: seq<Move>, maxMoves: nat)
    requires Repetitions(rules, start, ends, maxMoves)
    requires Playout(rules, if ends == [] then start else ends[|ends| - 1], next, maxMoves)
    ensures Repetitions(rules, start, ends + [next], maxMoves)
  {
    assert (ends + [next])[..|ends|] == ends;
  }

  /** The k-th repetition of a run is a playout. */
  lemma {:induction false} RepetitionAt(rules: Rules, start: seq<Move>, ends: seq<seq<Move>>, maxMoves: nat, k: nat)
    requires Repetitions(rules, start, ends, maxMoves) && k < |ends|
    ensures Playout(rules, if k == 0 then start else ends[k - 1], ends[k], maxMoves)
    decreases |ends|
  {
    if k < |ends| - 1 {
      var prefix := ends[..|ends| - 1];
      RepetitionAt(rules, start, prefix, maxMoves, k);
      assert prefix[k] == ends[k];
      assert k > 0 ==> prefix[k - 1] == ends[k - 1];
    }
  }

  class RandomSimulation {
    const game: Game

    constructor (game: Game)
      ensures this.game == game
    {
      this.game := game;
    }

    /** One repetition: random legal half-moves until a result, no legal move, or `maxMoves` moves. */
    method PlayRepetition(maxMoves: nat)
      modifies game
      ensures Playout(game.rules, old(game.history), game.history, maxMoves)
    {
      ghost var before := game.history;
      var nMov := 0;
      while nMov < maxMoves && game.Result().None?
        invariant 0 <= nMov <= maxMoves
        invariant |game.history| == |before| + nMov
        invariant game.history[..|before|] == before
        invariant forall j :: |before| <= j < |game.history| ==>
          game.history[j] in game.rules.legalMoves(game.history[..j]) &&
          ResultOf(game.rules, game.history[..j]).None?
      {
        var legalMoves := game.LegalMoves();
        if |legalMoves| > 0 {
          var k :| 0 <= k < |legalMoves|;
          ghost var h := game.history;
          var ok := game.Move(legalMoves[k]);
          assert game.history == h + [legalMoves[k]];
          forall j | 0 <= j <= |h|
            ensures game.history[..j] == h[..j]
          {
          }
          nMov := nMov + 1;
        } else {
          break;
        }
      }
    }

    /**
     * Plays `repetitions` random playouts of at most `maxMoves` half-moves on the same
     * game, which is never reset, and returns the mean outcome (None, for numpy's NaN,
     * when there is no repetition). `results` and `ends` are the recorded outcomes and
     * the history at the end of each repetition.
     */
    method Run(maxMoves: nat, repetitions: nat)
      returns (mean: Option<real>, ghost results: seq<int>, ghost ends: seq<seq<Move>>)
      modifies game
      ensures |results| == repetitions && |ends| == repetitions
      ensures Repetitions(game.rules, old(game.history), ends, maxMoves)
      ensures results == Outcomes(game.rules, ends)
      ensures game.history == if repetitions == 0 then old(game.history) else ends[repetitions - 1]
      ensures mean == if repetitions == 0 then None else Some(Mean(results))
      ensures mean.Some? ==> -1.0 <= mean.value <= 1.0
    {
      var res: seq<int> := [];
      results, ends := [], [];
      var i := 0;
      while i < repetitions
        invariant 0 <= i <= repetitions
        invariant |res| == i && results == res && |ends| == i
        invariant Repetitions(game.rules, old(game.history), ends, maxMoves)
        invariant res == Outcomes(game.rules, ends)
        invariant game.history == if i == 0 then old(game.history) else ends[i - 1]
      {
        PlayRepetition(maxMoves);
        var result := game.Result();
        res := res + [if result.Some? then result.value else 0];
        results := res;
        RepetitionsExtend(game.rules, old(game.history), ends, game.history, maxMoves);
        ghost var prevEnds := ends;
        ends := ends + [game.history];
        assert ends[..i] == prevEnds;
        i := i + 1;
      }
      if repetitions == 0 {
        mean := None;
      } else {
        MeanInRange(res);
        mean := Some(Mean(res));
      }
    }
  }

  /** Once a repetition ends on a result, every later repetition records the same outcome. */
  lemma {:induction false} SettledOutcomeRepeats(
    rules: Rules, start: seq<Move>, results: seq<int>, ends: seq<seq<Move>>, maxMoves: nat, k: nat, l: nat)
    requires Repetitions(rules, start, ends, maxMoves)
    requires results == Outcomes(rules, ends)
    requires k <= l < |ends| && ResultOf(rules, ends[k]).Some?
    ensures ends[l] == ends[k] && results[l] == results[k]
    decreases l - k
  {
    if k < l {
      RepetitionAt(rules, start, ends, maxMoves, k + 1);
      PlayoutFromFinished(rules, ends[k], ends[k + 1], maxMoves);
      SettledOutcomeRepeats(rules, start, results, ends, maxMoves, k + 1, l);
    }
  }
}
