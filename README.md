# MCTS chess engine: a verified model

This project models the Monte Carlo tree search chess engine in Dafny. It covers:

- the search tree's nodes;
- the self-play tree that runs select → expand → simulate → backpropagate;
- the random rollout;
- the game environment that the search plays on;
- the game store that turns games into training entries;
- the data generator that cuts the store into batches;
- the MCTS agent that answers a game with the move a search finds.

Everything runs sequentially, so the node locks are plain blocks.

Modules, one file each:

- `Games` (`game.dfy`): a game is its history of half-moves (UCI strings) from the initial position.
  - The chess rules (legal moves, fifty-move claim, insufficient material, checkmate) are uninterpreted functions of that history, gathered in `Rules`.
  - `Game` is a class whose `Move` is guarded: an illegal half-move changes nothing.
- `Nodes` (`node.dfy`): a node is a record in an arena (a sequence of nodes). Children and parent are indices into the arena, and the game snapshot is the node's history.
  - The floating-point formulas (square root, UCB1 bonus, annealed temperature) are uninterpreted functions in `Floats`.
- `Trees` (`tree.dfy`): the well-formedness of an arena, the ancestor path of a node, and the pure effect of expansion, virtual loss and backpropagation.
- `Simulation` (`simulation.dfy`): the rollout class `RandomSimulation`, with the random choice of a legal move as a nondeterministic choice.
- `SelfPlay` (`self_play.dfy`): the class `SelfPlayTree` over an arena and a root index; the policy vector; the moves a search answers with.
- `GameStores` (`game_store.dfy`): the class `GameStore` over a list of games, records as values, and the augmentation into entries.
- `DataGenerators` (`data_generator.dfy`): the class `DataGenerator` and its batch arithmetic.
- `MctsAgents` (`mcts_agent.dfy`): the class `MCTSAgent`.
- `Wrappers` (`wrappers.dfy`): `Option` and `Result`.

Where the parts meet:

- **The opponent.** Expansion asks an agent for the opponent's reply. The opponent is a parameter `reply` of type `Opponent = seq<Move> -> Result<Move, SearchError>`: a reply, or the error its own search ended in. In the program it is the MCTS agent itself (`best_move` passes `self` to the search), searching recursively. `MCTSAgent.BestMove` has exactly this shape. A failing opponent makes the expansion fail after the node's last action was popped, and the failure runs up through select, the iteration, the search and `best_move`.
- **Clock readings.** Game dates taken from the clock are a `now` parameter.
- **A missing value becomes an error value.** numpy's `argmax` over an empty list raises, which `SearchError.EmptyArgmax` models. The mean of no outcomes is NaN, which is `None`.

Where the documentation and the code disagree, the model follows the code:

- **What `search_move` returns.** With `ai_move` false it returns the last half-move of the chosen child's history (src/mcts/self_play.py:56-74). This is the opponent's reply whenever one was played. The docstring describes the move made before it. So `MCTSAgent.best_move` answers with the predicted reply to the agent's own move.
- **The sign of a checkmate.** `get_result` scores a checkmate with white to move as 1 (src/envs/game.py:103-105), although white is the side that has been mated. The model keeps this sign.
- **Only one iteration.** `search_move` runs one search iteration whatever `max_iters` is (src/mcts/self_play.py:43). In a fresh tree the only child is the expansion of the last legal move.

## Model

| member | source | states |
|---|---|---|
| Games.ResultOf | src/envs/game.py:94-108 | The result is None exactly when there is no fifty-move claim, no insufficient material and no checkmate; the two draw checks come first and give 0; any result is -1, 0 or 1 |
| Games.Replay | src/envs/game.py:31-44 | Playing a list of half-moves with the guarded move keeps the starting history as a prefix and adds at most one half-move per half-move given |
| Games.ReplayKeepsAllIffLegal | src/envs/game_store.py:58-59 | Replaying keeps every half-move exactly when each one was legal in the position where it was played (both directions) |
| Games.ReplayLegalPrefix | src/envs/game_store.py:40-41 | For a history whose every half-move was legal, replaying any prefix from the initial position gives back that prefix |
| Games.Game.constructor | src/envs/game.py:19-29 | A new game starts from the initial position with the given point of view, and with the given date or else the clock's reading |
| Games.Game.OnBoard | src/envs/game.py:81-82 | A game over a copied board has the same history, white's point of view and the current date |
| Games.Game.Move | src/envs/game.py:31-44 | The move succeeds exactly when it is a legal move; it then appends exactly that half-move and the length grows by one, otherwise nothing changes; a legal history stays legal |
| Games.Game.LegalMoves | src/envs/game.py:46-60 | The legal moves of the current position: the rules applied to the game's history |
| Games.Game.Result | src/envs/game.py:94-108 | The result of the current position, as `ResultOf` defines it |
| Games.Game.Length | src/envs/game.py:110-111 | The number of half-moves played |
| Games.Game.GetHistory | src/envs/game.py:62-68 | The record of the game: its half-moves, its result, its point of view and its date |
| Games.Game.GetCopy | src/envs/game.py:81-82 | The copy is a new game with the same history, white's point of view and the clock's date |
| Games.Game.LegalMovesWithStates | src/envs/game.py:46-60 | The moves are the legal moves; there is one new, distinct state per move, which is a copy advanced by exactly that move; the original is untouched |
| Nodes.NewNode | src/mcts/node.py:22-31 | A new node has no children, zero visits, value and virtual loss, prior 1, and every legal move of its state still unexpanded |
| Nodes.IsLeaf | src/mcts/node.py:33-35 | A leaf has no children |
| Nodes.IsFullyExpanded | src/mcts/node.py:37-39 | A fully expanded node has no action left to expand |
| Nodes.IsTerminalState | src/mcts/node.py:41-43 | A terminal node's game has a result |
| Nodes.IsRoot | src/mcts/node.py:45-47 | A root has no parent |
| Nodes.LastAction | src/mcts/node.py:49-50 | The action `pop()` returns is one of the node's unexpanded actions, the last |
| Nodes.WithoutLastAction | src/mcts/node.py:49-50 | After the pop, appending the popped action gives back the old list; nothing else of the node changes |
| Nodes.GetUcb1 | src/mcts/node.py:52-63 | An unvisited node scores the sentinel 99999999999; a visited one scores its mean value plus twice the exploration bonus, and fails without a parent |
| Nodes.GetValue | src/mcts/node.py:65-81 | Q + U minus the virtual loss, the sentinel minus the virtual loss at a root; its properties are stated by the three lemmas below |
| Nodes.GetValueOfRoot | src/mcts/node.py:75-81 | A root scores the sentinel minus its virtual loss |
| Nodes.GetValueVirtualLoss | src/mcts/node.py:78-81 | Raising the virtual loss by k lowers the score by exactly k |
| Nodes.GetValueWithoutChildVisits | src/mcts/node.py:78-81 | A non-root node whose children have no visits has no exploration term: its score is value / (1 + visits) minus the virtual loss |
| Nodes.ArgMax | src/mcts/node.py:88 | The index returned holds a maximum and every earlier index holds a strictly smaller value, as numpy's argmax picks the first maximum |
| Nodes.ArgMaxUnique | src/mcts/node.py:88 | The first maximum is the only index with those two properties |
| Nodes.ChildVisits | src/mcts/self_play.py:193-194 | One visit count per child, in child order |
| Nodes.ChildValues | src/mcts/node.py:88 | One score per child, in child order |
| Nodes.GetBestChild | src/mcts/node.py:83-89 | The child returned is a child of the node, at the first index of maximal score |
| Trees.WfProperties | src/mcts/self_play.py:127 | In a well-formed arena parents come before their children and child indices lie inside the arena |
| Trees.PathBelow | src/mcts/self_play.py:174-175 | A node is on its own path to the root, and every node on that path comes no later than it |
| Trees.PathFrame | src/mcts/self_play.py:174-175 | The path to the root depends only on the parent links up to the node |
| Trees.WfShape | src/mcts/self_play.py:168-172 | Changing only statistics (visits, value, prior, virtual loss) keeps an arena well formed |
| Trees.ExpandedState | src/mcts/self_play.py:119-124 | The new child's history, or the opponent's failure; stated by ExpandedStateShape |
| Trees.ExpandedStateShape | src/mcts/self_play.py:119-124 | Expanding by a legal action fails exactly when the game has no result after it and the opponent fails there, with the opponent's error; otherwise the child's history is the parent's plus the action, plus the opponent's reply exactly when the game had no result after the action and the reply is legal |
| Trees.Expands | src/mcts/self_play.py:119-124 | The node has an action left and the opponent answers the position it leads to |
| Trees.Popped | src/mcts/self_play.py:119-120 | The arena after the pop alone: the node loses exactly its last action; parents and children are unchanged everywhere |
| Trees.ExpandAt | src/mcts/self_play.py:119-127 | Expansion adds exactly one node to the arena and keeps parents before children |
| Trees.ExpandAtAfterPop | src/mcts/self_play.py:119-127 | Expansion is the pop followed by appending the new child's index to the node and the new child to the arena |
| Trees.ExpandAtNodeWf | src/mcts/self_play.py:119-127 | Expansion keeps every single node well formed: the node expanded, the new child and every other node |
| Trees.ExpandAtWf | src/mcts/self_play.py:119-127 | Expansion keeps the arena well formed: at every node the actions left are the first of its legal moves, and children + actions left = legal moves |
| Trees.ExpandAtEffect | src/mcts/self_play.py:119-127 | Expansion pops exactly the last action and appends exactly one child, whose parent is the node and which has no statistics; the parent's state and every other node are unchanged |
| Trees.AddVirtualLoss | src/mcts/self_play.py:103-104 | Only the node changes, and only its virtual loss, which rises by 1; shapes and parent order are kept |
| Trees.Backpropagated | src/mcts/self_play.py:157-175 | The arena keeps its size; what each node gains is stated by LossThenBackprop and BackpropagatedParents |
| Trees.LossThenBackprop | src/mcts/self_play.py:85 | A virtual loss on the selected node followed by a backpropagation that removes it: every node on the path gains one visit and the value, and no node's virtual loss, prior or shape changes |
| Trees.BackpropagatedParents | src/mcts/self_play.py:157-175 | Backpropagation keeps parent links, shapes and the path to the root |
| Trees.Descend | src/mcts/self_play.py:93-100 | Selection from a node by best children stops at a node that is terminal or has an action left, at or after the start; it fails only when it reaches a fully expanded leaf |
| SelfPlay.MovesOf | src/mcts/self_play.py:54-75 | With two or more half-moves: the last two, or only the last without `ai_move`; otherwise null moves; a pair exactly when `ai_move` is set |
| SelfPlay.ComputePolicy | src/mcts/self_play.py:184-200 | One policy entry per child |
| SelfPlay.PolicyIsVisitShare | src/mcts/self_play.py:193-194 | Below 30 half-moves each entry is the child's visits divided by the node's visits, and is never negative |
| SelfPlay.PolicyPicksMostVisited | src/mcts/self_play.py:48-50 | Below 30 half-moves the argmax of the policy is the first most-visited child |
| SelfPlay.Estimated | src/mcts/self_play.py:146-155 | The simulated value: the result, or the mean outcome of 500 chained playouts of at most 100 half-moves from the node's history |
| SelfPlay.EstimatedInRange | src/mcts/self_play.py:146-155 | A simulated value lies in [-1, 1] |
| SelfPlay.Iteration | src/mcts/self_play.py:77-91 | The arena after one iteration: one node more exactly when a node was expanded |
| SelfPlay.IterationEffect | src/mcts/self_play.py:77-91 | After one iteration, each old node keeps its state and parent; only the expanded node loses its last action and gains the new child; the nodes on the path gain one visit and the value; no virtual loss or prior changes; the new node is a fresh node over the expanded history with one visit and the value |
| SelfPlay.Explored | src/mcts/self_play.py:77-135 | One iteration's outcome: fails where Descend fails and changes nothing; a terminal stop is simulated and backpropagated; any other stop is expanded, failing with the opponent after the pop, or else its new child is simulated and backpropagated |
| SelfPlay.ExploredRoot | src/mcts/self_play.py:77-135 | After a successful iteration the root has one more visit and at most the one child expanded from it; from a leaf root the iteration stops at the root: a terminal root stays a leaf, a fully expanded one fails, any other fails with its opponent or gains exactly the expanded child |
| SelfPlay.SelfPlayTree.FromGame | src/mcts/tree.py:15-21 | The root is a new parentless node over a copy of the game's history, with visits set to 1 |
| SelfPlay.SelfPlayTree.FromNode | src/mcts/tree.py:15-21 | The root is the given node of the arena, with visits set to 1 whatever they were |
| SelfPlay.SelfPlayTree.PopUnexpandedAction | src/mcts/node.py:49-50 | Returns the last unexpanded action; the arena becomes the popped arena, which keeps the actions before it |
| SelfPlay.SelfPlayTree.Expand | src/mcts/self_play.py:108-135 | Succeeds exactly when the opponent answers; then the arena is the expansion at the node, the returned child is the new last node and the tree stays well formed; otherwise it fails with the opponent's error and only the pop remains |
| SelfPlay.SelfPlayTree.Select | src/mcts/self_play.py:93-106 | Stops where Descend stops and fails where it fails, with the arena unchanged; a terminal stop gets one virtual loss; any other stop is expanded, and the new child gets the virtual loss, or the opponent's failure is returned after the pop; the root is on the selected node's path |
| SelfPlay.SelfPlayTree.MarkVirtualLoss | src/mcts/self_play.py:103-104 | Adds one virtual loss to the node and keeps the tree well formed |
| SelfPlay.SelfPlayTree.Simulate | src/mcts/self_play.py:137-155 | The value is the game's result when it has one, otherwise the mean outcome of 500 chained random playouts of at most 100 half-moves from the node's history; it lies in [-1, 1] |
| SelfPlay.SelfPlayTree.Backprop | src/mcts/self_play.py:157-175 | The arena becomes its backpropagation from the node, with the virtual loss removed only at the starting node |
| SelfPlay.SelfPlayTree.ExploreTree | src/mcts/self_play.py:77-91 | The new arena and the outcome are exactly one iteration's (Explored): the stop is Descend's, the value is a simulated value of the stop, and the arena is the iteration of the old one; the root is on the selected node's path |
| SelfPlay.SelfPlayTree.UpdatePrior | src/mcts/self_play.py:177-182 | Only priors of the node's children change: the k-th prior goes to the k-th child from the end, up to the shorter list |
| SelfPlay.SelfPlayTree.AnswerFromPolicy | src/mcts/self_play.py:48-75 | Fails exactly on a root without children; otherwise answers from some root child, from the first most-visited one without noise below 30 half-moves, and from the only one when there is one |
| SelfPlay.SelfPlayTree.SearchMove | src/mcts/self_play.py:26-75 | One iteration exactly as Explored states, whose failure is the search's; after a successful one the root has exactly one more visit and at most the one child expanded from it, and the answer fails exactly when the root has no child; without noise and below 30 half-moves it comes from the most-visited child; from a leaf root, it is the expansion of its last action or the opponent's failure |
| Simulation.SumBounded | src/mcts/simulation.py:30-34 | Outcomes in [-1, 1] sum to at most their number in absolute value |
| Simulation.MeanInRange | src/mcts/simulation.py:36 | The mean of outcomes in [-1, 1] lies in [-1, 1] |
| Simulation.Outcome | src/mcts/simulation.py:30-34 | The recorded outcome is the game's result, or 0 when it has none |
| Simulation.Outcomes | src/mcts/simulation.py:18-34 | One recorded outcome per repetition, each the outcome of that repetition's final history |
| Simulation.Playout | src/mcts/simulation.py:20-28 | One repetition: at most `max_moves` half-moves, each legal and played while the game had no result, stopping early only on a result or without legal moves |
| Simulation.Repetitions | src/mcts/simulation.py:19-34 | Each repetition is a playout from where the one before ended, the first from the start |
| Simulation.PlayoutFromFinished | src/mcts/simulation.py:22 | A repetition on a game that already has a result plays nothing |
| Simulation.RepetitionsExtend | src/mcts/simulation.py:19-34 | A further playout from the last history extends the run of repetitions |
| Simulation.RepetitionAt | src/mcts/simulation.py:19-34 | Each repetition of a run starts where the previous one ended |
| Simulation.SettledOutcomeRepeats | src/mcts/simulation.py:19-34 | The game is not reset: once a repetition ends on a result, every later one ends on the same history and records the same outcome |
| Simulation.RandomSimulation.constructor | src/mcts/simulation.py:10-14 | The simulation holds the given game |
| Simulation.RandomSimulation.PlayRepetition | src/mcts/simulation.py:20-28 | At most `max_moves` half-moves, each legal where it was played while the game had no result; stops early only on a result or when no legal move remains |
| Simulation.RandomSimulation.Run | src/mcts/simulation.py:16-36 | Exactly `repetitions` outcomes, each that of its repetition's end; repetitions chain without reset; the mean lies in [-1, 1], and is NaN (None) for no repetition |
| GameStores.AugmentedAt | src/envs/game_store.py:34-41 | Entry k holds half-move k, the game's result and the first k half-moves replayed; only entry 0 keeps the game's colour and date |
| GameStores.AugmentedLength | src/envs/game_store.py:36-39 | One entry per half-move |
| GameStores.AugmentedEntries | src/envs/game_store.py:26-43 | One entry per half-move, in order, with that half-move, the game's result and the replayed prefix; the first keeps the colour and date, the others are white's and the clock's |
| GameStores.Augmented | src/envs/game_store.py:21-43 | The entries of a game's augmentation; stated by AugmentedAt, AugmentedLength and AugmentedEntries |
| GameStores.AugmentedLegalGame | src/envs/game_store.py:34-41 | When the half-moves replay legally, entry k's position is exactly the first k half-moves |
| GameStores.LoadedRecordsCount | src/envs/game_store.py:55-60 | A load appends at most one game per record, and one per record exactly when no record is empty |
| GameStores.LoadedRecordsAt | src/envs/game_store.py:55-60 | With no empty record, the k-th game loaded comes from the k-th record |
| GameStores.LoadedRecordsKeepLegalGames | src/envs/game_store.py:55-60 | Records with legal, non-empty move lists load back with the same moves, colour and date, in order |
| GameStores.Loaded | src/envs/game_store.py:56-60 | The record a loaded record gives back: its half-moves replayed with the guarded move, with their result, colour and date |
| GameStores.LoadedRecords | src/envs/game_store.py:55-60 | The records of the games a load appends: one per non-empty record, in order; stated by the three lemmas above |
| GameStores.Histories | src/envs/game_store.py:69-70 | One record per game, in order, with its history, result, colour and date |
| GameStores.HistoriesSplit | src/envs/game_store.py:69-70 | The records of two lists of games joined are the records of each, one after the other |
| GameStores.LoadGame | src/envs/game_store.py:56-59 | A record becomes a new game with its colour and date and its half-moves replayed with the guarded move |
| GameStores.GameStore.constructor | src/envs/game_store.py:12-19 | The store holds the given list, or none |
| GameStores.GameStore.Length | src/envs/game_store.py:94-95 | The number of games held |
| GameStores.GameStore.GetItem | src/envs/game_store.py:97-98 | Python indexing: a game exactly for keys in [-len, len), counted from the end for negative keys |
| GameStores.GameStore.GetSlice | src/envs/game_store.py:97-98 | Python slicing between two non-negative bounds, clipped to the list: length and elements |
| GameStores.GameStore.AugmentGame | src/envs/game_store.py:21-43 | The entries are the augmentation of the game's history, result, colour and date |
| GameStores.GameStore.Loads | src/envs/game_store.py:52-60 | The old games stay in front, and the games appended are one per non-empty record, in input order |
| GameStores.GameStore.Append | src/envs/game_store.py:74-79 | A game is appended at the end, a store's games are appended in order, anything else changes nothing; the length grows accordingly |
| GameStores.GameStore.Add | src/envs/game_store.py:85-92 | Appends and returns the receiver itself |
| GameStores.GameStore.Save | src/envs/game_store.py:62-72 | Writes the games loaded from the existing file, if any, followed by this store's games |
| DataGenerators.BatchEntriesLength | src/models/data_generator.py:36-46 | A batch yields one sample per half-move of its games |
| DataGenerators.BatchEntriesSplit | src/models/data_generator.py:36-46 | The samples of two lists of games joined are those of each, one after the other |
| DataGenerators.BatchEntriesFromGames | src/models/data_generator.py:44-45 | Every sample comes from one of the batch's games: it carries that game's result and one of its half-moves |
| DataGenerators.BatchEntries | src/models/data_generator.py:36-46 | The samples of a list of games, game after game; stated by the three lemmas above |
| DataGenerators.DataGenerator.constructor | src/models/data_generator.py:20-24 | The batch size is the smaller of the requested size and the number of games |
| DataGenerators.DataGenerator.Length | src/models/data_generator.py:26-27 | The number of games divided by the batch size and truncated; the division fails exactly when the batch size is 0 |
| DataGenerators.DataGenerator.Batch | src/models/data_generator.py:30-31 | The games from idx·bs to (idx+1)·bs clipped to the store; empty past the end |
| DataGenerators.DataGenerator.FullBatches | src/models/data_generator.py:26-31 | Every batch below the length holds exactly bs games |
| DataGenerators.DataGenerator.BatchesCover | src/models/data_generator.py:26-31 | The batches below the length, joined, are the first length·bs games, each once and in order |
| DataGenerators.DataGenerator.GetItem | src/models/data_generator.py:29-48 | Positions, target moves and target values have one entry per half-move of the batch's games, in order, taken from their augmentations |
| MctsAgents.MCTSAgent.constructor | src/agents/mcts_agent.py:13-14 | The agent plays the given colour |
| MctsAgents.MCTSAgent.BestMove | src/agents/mcts_agent.py:16-33 | The null move on a finished game; otherwise argmax's failure without legal moves, the opponent's failure when it fails after the last legal move, else the last half-move of the expansion of the last legal move (the opponent's reply when one was played) |
| MctsAgents.MCTSAgent.GetCopy | src/agents/mcts_agent.py:35-37 | A new agent with the same colour |

## Left out

- Chess rules: legality, checkmate, the fifty-move claim and insufficient material are uninterpreted functions of the history. FEN access and board plotting are not modelled.
- Floating point: logarithm, square roots, the UCB1 bonus and the annealed temperature `nb_moves / (1 + nb_moves^1.3)` are uninterpreted functions. Arithmetic is on exact reals.
- SelfPlay.ComputePolicy: the Dirichlet exploration noise is not modelled. With noise the answer may come from any root child (nondeterministic choice).
- SelfPlay.ComputePolicy: requires the node to have been visited. The search only calls it on the root after an iteration, when its visits are at least 1; the division by zero visits is not modelled.
- Randomness: `random.choice` over legal moves is a nondeterministic choice. The random board flips of the data generator are not modelled.
- Threads and locks: the thread pool is commented out and the search is sequential, so `with lock` blocks are plain statements.
- The opponent agent: expansion's call into an agent's `best_move` is the `reply` function, of the same shape as `BestMove`. The recursion of an MCTS agent into its own search is therefore not unfolded: `reply` may be any such function.
- The abstract `Agent` base class (src/agents/agent.py) is not part of this model; its only logic is a guard against direct instantiation.
- Stockfish: the engine process, its player and its game are not part of this model (external process and file I/O).
- JSON and files: `load`, the JSON parsing of `loads`, `__str__` and the file writing of `save` work on lists of records. A missing file is `None`, and `Save` returns the record list written.
- GameStores.Entry: an entry holds a snapshot of its game (history, colour, date), not the game object.
- GameStores.GameStore.Loads: the loaded games are collected and appended once after the loop. The source appends them one by one; without exceptions the resulting list is the same.
- Tensor encodings in `__getitem__` are not modelled: the board tensor (`get_game_state`), the one-hot policy (`to_categorical` over the UCI labels) and numpy arrays. A sample is the position's half-moves, the next half-move and the game's result.
- DataGenerators.DataGenerator.constructor: the requested batch size is a natural number, so negative sizes are not modelled.
- DataGenerators.DataGenerator.GetItem: the batch index is a natural number, so Python's negative slice bounds are not modelled.
- SelfPlay.SelfPlayTree.FromNode: the root node is copied into the tree's own arena, so the caller's node is not updated in place (its visits set to 1) as the shared object is in the source.
- SelfPlay.SelfPlayTree.SearchMove: `max_iters` and `verbose` are ignored, as in the source. Timing and printing are not modelled.
- `__iad__` delegates to `__add__`. It has the same effect as `Add`, so it has no separate member.
- GameStores.GameStore.constructor: the store holds the value of the caller's list. The source keeps the caller's list object itself, so appends through the store are seen by the caller and the other way round; that aliasing is not modelled.
- GameStores.GameStore.AugmentGame: all clock readings during one call are the same `now`. The source reads the clock again at each `get_copy`, so its later entries may carry different dates; AugmentedEntries' "every later entry has date `now`" holds of the model only.
- DataGenerators.DataGenerator.GetItem: likewise one `now` serves every game of the batch, where the source reads the clock at each copy.
