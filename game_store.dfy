/**
 * The game store: a list of games, read from and written to lists of records (the JSON
 * encoding is not modelled), and the augmentation of a game into one training entry per
 * half-move.
 */
module GameStores {
  import opened Wrappers
  import opened Games

  /**
   * One training entry: the position before a half-move (the half-moves leading to it,
   * with the point of view and date of the game holding it), the half-move played from
   * it, and the final result of the whole game.
   */
  datatype Entry = Entry(position: seq<Move>, playerColor: Color, date: string, nextMove: Move, result: Option<int>)

  /** What can be appended to a store: a game, another store, or anything else (ignored). */
  datatype Item = GameItem(game: Game) | StoreItem(store: GameStore) | OtherItem

  /**
   * The entries of a game with half-moves `moves`: entry k holds the first k half-moves
   * replayed from the initial position. The first position is the game built from the
   * record, with its point of view and date; each later one is a copy, which takes
   * white's point of view and the clock's date `now`.
   */
  function Augmented(rules: Rules, moves: seq<Move>, result: Option<int>, playerColor: Color, date: string, now: string): seq<Entry>
    decreases |moves|
  {
    if moves == [] then []
    else
      var n := |moves| - 1;
      Augmented(rules, moves[..n], result, playerColor, date, now) +
        [Entry(Replay(rules, [], moves[..n]), if n == 0 then playerColor else White, if n == 0 then date else now, moves[n], result)]
  }

  /** One entry per half-move. */
  lemma {:induction false} AugmentedLength(rules: Rules, moves: seq<Move>, result: Option<int>, playerColor: Color, date: string, now: string)
    ensures |Augmented(rules, moves, result, playerColor, date, now)| == |moves|
    decreases |moves|
  {
    if moves != [] {
      AugmentedLength(rules, moves[..|moves| - 1], result, playerColor, date, now);
    }
  }

  /**
   * Entry k holds half-move k, the game's result and the first k half-moves replayed;
   * the first entry has the game's point of view and date, every later one white's and `now`.
   */
  lemma {:induction false} AugmentedAt(rules: Rules, moves: seq<Move>, result: Option<int>, playerColor: Color, date: string, now: string, k: nat)
    requires k < |moves|
    ensures |Augmented(rules, moves, result, playerColor, date, now)| == |moves|
    ensures var e := Augmented(rules, moves, result, playerColor, date, now)[k];
      && e.nextMove == moves[k] && e.result == result
      && e.position == Replay(rules, [], moves[..k])
      && e.playerColor == (if k == 0 then playerColor else White)
      && e.date == (if k == 0 then date else now)
    decreases |moves|
  {
    var n := |moves| - 1;
    AugmentedLength(rules, moves, result, playerColor, date, now);
    AugmentedLength(rules, moves[..n], result, playerColor, date, now);
    if k < n {
      AugmentedAt(rules, moves[..n], result, playerColor, date, now, k);
      assert moves[..n][..k] == moves[..k];
    }
  }

  /** One entry per half-move, in order, each with that half-move, the game's result and the replayed prefix before it. */
  lemma AugmentedEntries(rules: Rules, moves: seq<Move>, result: Option<int>, playerColor: Color, date: string, now: string)
    ensures var es := Augmented(rules, moves, result, playerColor, date, now);
      && |es| == |moves|
      && (forall k :: 0 <= k < |es| ==>
            es[k].nextMove == moves[k] && es[k].result == result &&
            es[k].position == Replay(rules, [], moves[..k]))
      && (|es| > 0 ==> es[0].playerColor == playerColor && es[0].date == date)
      && (forall k :: 1 <= k < |es| ==> es[k].playerColor == White && es[k].date == now)
  {
    AugmentedLength(rules, moves, result, playerColor, date, now);
    forall k | 0 <= k < |moves| {
      AugmentedAt(rules, moves, result, playerColor, date, now, k);
    }
  }

  /** For a game whose half-moves were all legal, entry k's position is exactly its first k half-moves. */
  lemma AugmentedLegalGame(rules: Rules, moves: seq<Move>, result: Option<int>, playerColor: Color, date: string, now: string)
    requires LegalSince(rules, moves, 0)
    ensures var es := Augmented(rules, moves, result, playerColor, date, now);
      |es| == |moves| && forall k :: 0 <= k < |es| ==> es[k].position == moves[..k]
  {
    AugmentedEntries(rules, moves, result, playerColor, date, now);
    forall k | 0 <= k < |moves| ensures Replay(rules, [], moves[..k]) == moves[..k] {
      ReplayLegalPrefix(rules, moves, k);
    }
  }

  /** One step of the augmentation loop. */
  lemma AugmentStep(rules: Rules, moves: seq<Move>, i: nat, result: Option<int>, playerColor: Color, date: string, now: string)
    requires i < |moves|
    ensures var h := Replay(rules, [], moves[..i]);
      Augmented(rules, moves[..i + 1], result, playerColor, date, now) ==
        Augmented(rules, moves[..i], result, playerColor, date, now) +
          [Entry(h, if i == 0 then playerColor else White, if i == 0 then date else now, moves[i], result)]
  {
    assert moves[..i + 1][..i] == moves[..i];
  }

  /** The record a loaded record gives back when saved: its half-moves replayed, and the result of the game they make. */
  function Loaded(rules: Rules, r: Record): Record {
    var h := Replay(rules, [], r.moves);
    Record(h, ResultOf(rules, h), r.playerColor, r.date)
  }

  /** The records of the games a load appends: one per record with at least one half-move, in order. */
  function LoadedRecords(rules: Rules, records: seq<Record>): seq<Record>
    decreases |records|
  {
    if records == [] then []
    else
      var n := |records| - 1;
      LoadedRecords(rules, records[..n]) + (if records[n].moves != [] then [Loaded(rules, records[n])] else [])
  }

  /** A load appends as many games as records exactly when no record is empty. */
  lemma {:induction false} LoadedRecordsCount(rules: Rules, records: seq<Record>)
    ensures |LoadedRecords(rules, records)| <= |records|
    ensures |LoadedRecords(rules, records)| == |records| <==> forall k :: 0 <= k < |records| ==> records[k].moves != []
    decreases |records|
  {
    if records != [] {
      var n := |records| - 1;
      LoadedRecordsCount(rules, records[..n]);
      assert forall k :: 0 <= k < n ==> records[..n][k] == records[k];
    }
  }

  /** When no record is empty, the k-th loaded record is the load of the k-th record. */
  lemma {:induction false} LoadedRecordsAt(rules: Rules, records: seq<Record>, k: nat)
    requires forall j :: 0 <= j < |records| ==> records[j].moves != []
    requires k < |records|
    ensures |LoadedRecords(rules, records)| == |records|
    ensures LoadedRecords(rules, records)[k] == Loaded(rules, records[k])
    decreases |records|
  {
    var n := |records| - 1;
    LoadedRecordsCount(rules, records);
    LoadedRecordsCount(rules, records[..n]);
    if k < n {
      LoadedRecordsAt(rules, records[..n], k);
    }
  }

  /**
   * Records whose half-moves are all legal load and save back with the same half-moves,
   * point of view and date.
   */
  lemma LoadedRecordsKeepLegalGames(rules: Rules, records: seq<Record>)
    requires forall k :: 0 <= k < |records| ==> records[k].moves != [] && LegalSince(rules, records[k].moves, 0)
    ensures var rs := LoadedRecords(rules, records);
      |rs| == |records| &&
      forall k :: 0 <= k < |rs| ==>
        rs[k].moves == records[k].moves && rs[k].playerColor == records[k].playerColor &&
        rs[k].date == records[k].date
  {
    LoadedRecordsCount(rules, records);
    forall k | 0 <= k < |records|
      ensures LoadedRecords(rules, records)[k].moves == records[k].moves
      ensures LoadedRecords(rules, records)[k] == Loaded(rules, records[k])
    {
      LoadedRecordsAt(rules, records, k);
      var r := records[k];
      ReplayLegalPrefix(rules, r.moves, |r.moves|);
      assert r.moves[..|r.moves|] == r.moves;
    }
  }

  /** The records of `games`, one per game, in order. */
  function Histories(games: seq<Game>): (rs: seq<Record>)
    reads games
    ensures |rs| == |games|
    ensures forall k :: 0 <= k < |games| ==>
      rs[k].moves == games[k].history && rs[k].result == games[k].Result() &&
      rs[k].playerColor == games[k].playerColor && rs[k].date == games[k].date
    decreases |games|
  {
    if games == [] then [] else Histories(games[..|games| - 1]) + [games[|games| - 1].GetHistory()]
  }

  /** The records of two lists of games, one after the other. */
  lemma {:induction false} HistoriesSplit(a: seq<Game>, b: seq<Game>)
    ensures Histories(a + b) == Histories(a) + Histories(b)
    decreases |b|
  {
    if b == [] {
      assert a + b == a;
    } else {
      var b' := b[..|b| - 1];
      assert (a + b)[..|a + b| - 1] == a + b';
      HistoriesSplit(a, b');
    }
  }

  /**
   * The game a record loads into: a new game with the record's date and point of view,
   * and its half-moves played in order with the guarded move.
   */
  method LoadGame(rules: Rules, item: Record, now: string) returns (g: Game)
    ensures fresh(g) && g.rules == rules && g.GetHistory() == Loaded(rules, item)
  {
    g := new Game(rules, item.playerColor, Some(item.date), now);
    for j := 0 to |item.moves|
      invariant g.rules == rules && g.playerColor == item.playerColor && g.date == item.date
      invariant g.history == Replay(rules, [], item.moves[..j])
    {
      ReplayPrefixStep(rules, [], item.moves, j);
      var ok := g.Move(item.moves[j]);
    }
    assert item.moves[..|item.moves|] == item.moves;
  }

  /** One step of the load loop. */
  lemma LoadStep(rules: Rules, records: seq<Record>, i: nat, added: seq<Game>, g: Game)
    requires i < |records| && g.GetHistory() == Loaded(rules, records[i])
    requires Histories(added) == LoadedRecords(rules, records[..i])
    ensures Histories(if records[i].moves != [] then added + [g] else added) == LoadedRecords(rules, records[..i + 1])
  {
    assert records[..i + 1][..i] == records[..i];
    assert (added + [g])[..|added|] == added;
  }

  class GameStore {
    var games: seq<Game>

    /** A store holding the given list, or an empty one. */
    constructor (games: Option<seq<Game>>)
      ensures this.games == if games.Some? then games.value else []
    {
      this.games := [];
      if games.Some? {
        this.games := games.value;
      }
    }

    function Length(): nat
      reads this
    {
      |games|
    }

    /** Python indexing: from the end for a negative key, None where it raises IndexError. */
    function GetItem(key: int): (r: Option<Game>)
      reads this
      ensures r.Some? <==> -|games| <= key < |games|
      ensures 0 <= key < |games| ==> r == Some(games[key])
      ensures -|games| <= key < 0 ==> r == Some(games[|games| + key])
    {
      if 0 <= key < |games| then Some(games[key])
      else if -|games| <= key < 0 then Some(games[|games| + key])
      else None
    }

    /** Python slicing between two non-negative bounds, clipped to the list. */
    function GetSlice(start: nat, stop: nat): (s: seq<Game>)
      reads this
      ensures |s| == if start < stop && start < |games| then (if stop < |games| then stop else |games|) - start else 0
      ensures forall k :: 0 <= k < |s| ==> s[k] == games[start + k]
    {
      var hi := if stop < |games| then stop else |games|;
      if start < hi then games[start..hi] else []
    }

    /**
     * One entry per half-move of `game`: a new game from the initial position with the
     * game's date and point of view, then for each half-move an entry for the current
     * position, and a copy of it advanced by the half-move.
     */
    method AugmentGame(game: Game, now: string) returns (entries: seq<Entry>)
      ensures entries == Augmented(game.rules, game.history, game.Result(), game.playerColor, game.date, now)
    {
      var hist := game.GetHistory();
      var moves, result := hist.moves, hist.result;
      entries := [];
      var g := new Game(game.rules, hist.playerColor, Some(hist.date), now);
      for i := 0 to |moves|
        invariant entries == Augmented(game.rules, moves[..i], result, game.playerColor, game.date, now)
        invariant g.rules == game.rules && g.history == Replay(game.rules, [], moves[..i])
        invariant g.playerColor == (if i == 0 then game.playerColor else White)
        invariant g.date == (if i == 0 then game.date else now)
      {
        entries := entries + [Entry(g.history, g.playerColor, g.date, moves[i], result)];
        AugmentStep(game.rules, moves, i, result, game.playerColor, game.date, now);
        ReplayPrefixStep(game.rules, [], moves, i);
        g := g.GetCopy(now);
        var ok := g.Move(moves[i]);
      }
      assert moves[..|moves|] == moves;
    }

    /**
     * Loads a list of records: each record becomes a new game, which is appended only
     * when the record has at least one half-move.
     */
    method Loads(rules: Rules, records: seq<Record>, now: string)
      modifies this
      ensures |old(games)| <= |games| && games[..|old(games)|] == old(games)
      ensures Histories(games[|old(games)|..]) == LoadedRecords(rules, records)
    {
      var loaded: seq<Game> := [];
      for i := 0 to |records|
        invariant Histories(loaded) == LoadedRecords(rules, records[..i])
        modifies {}
      {
        var item := records[i];
        var g := LoadGame(rules, item, now);
        LoadStep(rules, records, i, loaded, g);
        if |item.moves| > 0 {
          loaded := loaded + [g];
        }
      }
      assert records[..|records|] == records;
      games := games + loaded;
      assert games[|old(games)|..] == loaded;
    }

    /** Appends a game, or every game of a store in order; anything else changes nothing. */
    method Append(other: Item)
      modifies this
      ensures games == match other
        case GameItem(g) => old(games) + [g]
        case StoreItem(s) => old(games) + old(s.games)
        case OtherItem => old(games)
      ensures Length() == old(Length()) + match other
        case GameItem(_) => 1
        case StoreItem(s) => old(s.Length())
        case OtherItem => 0
    {
      match other
      case GameItem(g) => games := games + [g];
      case StoreItem(s) => games := games + s.games;
      case OtherItem =>
    }

    /** The `+` operator: appends to this store and returns it. */
    method Add(other: Item) returns (r: GameStore)
      modifies this
      ensures r == this
      ensures games == match other
        case GameItem(g) => old(games) + [g]
        case StoreItem(s) => old(games) + old(s.games)
        case OtherItem => old(games)
    {
      Append(other);
      r := this;
    }

    /**
     * What saving writes: the records of the games loaded from the existing file, when
     * there is one, followed by the records of this store's games.
     */
    method Save(rules: Rules, file: Option<seq<Record>>, now: string) returns (written: seq<Record>)
      ensures written == (if file.Some? then LoadedRecords(rules, file.value) else []) + Histories(games)
    {
      var existing := new GameStore(None);
      if file.Some? {
        existing.Loads(rules, file.value, now);
      }
      var union := existing.games + games;
      written := Histories(union);
      HistoriesSplit(existing.games, games);
      assert existing.games[0..] == existing.games;
    }
  }
}
