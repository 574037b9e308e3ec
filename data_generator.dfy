/**
 * The training-data generator: the store's games cut into batches of `batchSize`
 * games, each batch turned into one sample per half-move of its games. A sample is
 * the position before the half-move, the half-move played from it and the game's
 * final result; the board-tensor and one-hot encodings of the network are not
 * modelled, so the position is its list of half-moves and the target is the move.
 */
module DataGenerators {
  import opened Wrappers
  import opened Games
  import opened GameStores

  /** The entries of `games`, game after game, each augmented with the clock's reading `now`. */
  function BatchEntries(games: seq<Game>, now: string): seq<Entry>
    reads games
    decreases |games|
  {
    if games == [] then []
    else
      var n := |games| - 1;
      var g := games[n];
      BatchEntries(games[..n], now) + Augmented(g.rules, g.history, g.Result(), g.playerColor, g.date, now)
  }

  /** The number of half-moves of all of `games`. */
  function TotalMoves(games: seq<Game>): nat
    reads games
    decreases |games|
  {
    if games == [] then 0 else TotalMoves(games[..|games| - 1]) + |games[|games| - 1].history|
  }

  /** A batch holds one entry per half-move of its games. */
  lemma {:induction false} BatchEntriesLength(games: seq<Game>, now: string)
    ensures |BatchEntries(games, now)| == TotalMoves(games)
    decreases |games|
  {
    if games != [] {
      var n := |games| - 1;
      var g := games[n];
      BatchEntriesLength(games[..n], now);
      AugmentedEntries(g.rules, g.history, g.Result(), g.playerColor, g.date, now);
    }
  }

  /** The entries of two lists of games are those of the first followed by those of the second. */
  lemma {:induction false} BatchEntriesSplit(a: seq<Game>, b: seq<Game>, now: string)
    ensures BatchEntries(a + b, now) == BatchEntries(a, now) + BatchEntries(b, now)
    decreases |b|
  {
    if b == [] {
      assert a + b == a;
    } else {
      var b' := b[..|b| - 1];
      assert (a + b)[..|a + b| - 1] == a + b';
      BatchEntriesSplit(a, b', now);
    }
  }

  /**
   * Every entry of a batch belongs to one of its games: it carries that game's result
   * and one of its half-moves, played from a position no longer than the game.
   */
  lemma {:induction false} BatchEntriesFromGames(games: seq<Game>, now: string, k: nat)
    requires k < |BatchEntries(games, now)|
    ensures exists i :: (0 <= i < |games| &&
      BatchEntries(games, now)[k].result == games[i].Result() &&
      BatchEntries(games, now)[k].nextMove in games[i].history &&
      |BatchEntries(games, now)[k].position| < |games[i].history|)
    decreases |games|
  {
    var n := |games| - 1;
    var g := games[n];
    var prefix := BatchEntries(games[..n], now);
    var es := Augmented(g.rules, g.history, g.Result(), g.playerColor, g.date, now);
    assert BatchEntries(games, now) == prefix + es;
    if k < |prefix| {
      BatchEntriesFromGames(games[..n], now, k);
      var i :| 0 <= i < n && prefix[k].result == games[..n][i].Result() &&
        prefix[k].nextMove in games[..n][i].history && |prefix[k].position| < |games[..n][i].history|;
      assert games[..n][i] == games[i];
    } else {
      var j := k - |prefix|;
      AugmentedEntries(g.rules, g.history, g.Result(), g.playerColor, g.date, now);
      assert |Replay(g.rules, [], g.history[..j])| <= j;
      assert es[j].nextMove == g.history[j];
    }
  }

  /** The columns of a list of entries: positions, target moves and target values. */
  function Positions(es: seq<Entry>): seq<seq<Move>> {
    seq(|es|, k requires 0 <= k < |es| => es[k].position)
  }

  function NextMoves(es: seq<Entry>): seq<Move> {
    seq(|es|, k requires 0 <= k < |es| => es[k].nextMove)
  }

  function Results(es: seq<Entry>): seq<Option<int>> {
    seq(|es|, k requires 0 <= k < |es| => es[k].result)
  }

  /** Extending the columns by those of more entries gives the columns of all of them. */
  lemma ColumnsAppend(a: seq<Entry>, b: seq<Entry>)
    ensures Positions(a + b) == Positions(a) + Positions(b)
    ensures NextMoves(a + b) == NextMoves(a) + NextMoves(b)
    ensures Results(a + b) == Results(a) + Results(b)
  {
  }

  /** One step of the batch loop. */
  lemma BatchStep(games: seq<Game>, j: nat, now: string)
    requires j < |games|
    ensures var g := games[j];
      BatchEntries(games[..j + 1], now) ==
        BatchEntries(games[..j], now) + Augmented(g.rules, g.history, g.Result(), g.playerColor, g.date, now)
  {
    assert games[..j + 1][..j] == games[..j];
  }

  class DataGenerator {
    const dataset: GameStore
    const batchSize: nat

    /** The batch size is the requested one, capped by the number of games in the store. */
    constructor (dataset: GameStore, batchSize: nat)
      ensures this.dataset == dataset
      ensures this.batchSize == if batchSize < dataset.Length() then batchSize else dataset.Length()
      ensures this.batchSize <= dataset.Length() && (this.batchSize == batchSize || this.batchSize == dataset.Length())
    {
      this.dataset := dataset;
      this.batchSize := if batchSize < dataset.Length() then batchSize else dataset.Length();
    }

    /**
     * The number of full batches: the number of games divided by the batch size and
     * truncated, None where a zero batch size makes the division raise.
     */
    function Length(): (r: Option<nat>)
      reads dataset
      ensures r.None? <==> batchSize == 0
      ensures r.Some? ==> r.value * batchSize <= dataset.Length() < (r.value + 1) * batchSize
    {
      if batchSize == 0 then None else Some(dataset.Length() / batchSize)
    }

    /** The games of batch `idx`: the slice from `idx * batchSize` to `(idx + 1) * batchSize`, clipped. */
    function Batch(idx: nat): (b: seq<Game>)
      reads dataset
      ensures (idx + 1) * batchSize <= dataset.Length() ==>
        b == dataset.games[idx * batchSize..(idx + 1) * batchSize]
      ensures dataset.Length() <= idx * batchSize ==> b == []
      ensures |b| <= batchSize
    {
      dataset.GetSlice(idx * batchSize, (idx + 1) * batchSize)
    }

    /** Each batch below the length is a full one. */
    lemma FullBatches(idx: nat)
      requires Length().Some? && idx < Length().value
      ensures |Batch(idx)| == batchSize && Batch(idx) == dataset.games[idx * batchSize..(idx + 1) * batchSize]
    {
      var n := Length().value;
      assert (idx + 1) * batchSize <= n * batchSize;
    }

    /** The batches below `n`, one after the other, are the first `n * batchSize` games, each once and in order. */
    lemma {:induction false} BatchesCover(n: nat)
      requires Length().Some? && n <= Length().value
      ensures Batches(n) == dataset.games[..n * batchSize]
    {
      if n > 0 {
        BatchesCover(n - 1);
        FullBatches(n - 1);
        assert n * batchSize == (n - 1) * batchSize + batchSize;
        var games := dataset.games;
        assert games[..n * batchSize] == games[..(n - 1) * batchSize] + games[(n - 1) * batchSize..n * batchSize];
      }
    }

    /** The batches below `n`, one after the other. */
    function Batches(n: nat): seq<Game>
      reads dataset
    {
      if n == 0 then [] else Batches(n - 1) + Batch(n - 1)
    }

    /**
     * The samples of batch `idx`: for each of its games in order, one position, one
     * target move and one target value per half-move.
     */
    method GetItem(idx: nat, now: string) returns (positions: seq<seq<Move>>, nextMoves: seq<Move>, results: seq<Option<int>>)
      ensures var es := BatchEntries(Batch(idx), now);
        && |positions| == |es| && |nextMoves| == |es| && |results| == |es|
        && forall k :: 0 <= k < |es| ==>
             positions[k] == es[k].position && nextMoves[k] == es[k].nextMove && results[k] == es[k].result
      ensures |positions| == TotalMoves(Batch(idx))
    {
      var batch := dataset.GetSlice(idx * batchSize, (idx + 1) * batchSize);
      positions, nextMoves, results := [], [], [];
      ghost var es: seq<Entry> := [];
      for j := 0 to |batch|
        invariant es == BatchEntries(batch[..j], now)
        invariant positions == Positions(es) && nextMoves == NextMoves(es) && results == Results(es)
      {
        var augmented := dataset.AugmentGame(batch[j], now);
        BatchStep(batch, j, now);
        ColumnsAppend(es, augmented);
        positions := positions + Positions(augmented);
        nextMoves := nextMoves + NextMoves(augmented);
        results := results + Results(augmented);
        es := es + augmented;
      }
      assert batch[..|batch|] == batch;
      BatchEntriesLength(batch, now);
    }
  }
}
