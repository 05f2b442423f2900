# Farkle rules engine in Dafny

A model of the rules engine of the Farkle dice game AI, with proofs about it. It covers three layers:

- **Scoring rules** (`farkle_ai/game/rules.py`), in the modules `Rules`, `ScoreTable` and `Resolver`:
  - the scoring-pattern value type and its `+`;
  - the base catalog of 29 scoring patterns;
  - Counter-based containment of dice tuples;
  - the dynamic program that closes the catalog under additive combination, up to six dice, and the `pattern_score` lookup on the table it builds;
  - the per-roll queries `scorable_patterns` and `scorable_patterns_by_length`.
- **The turn and game state machine** (`farkle_ai/game/state.py`), in the module `State`.
  - The frozen `Parameters`, `TurnState` and `GameState` records become datatypes.
  - Every transition becomes a pure function returning a `Result`, whose failure names the exception the source raises.
- **The action engine** (`farkle_ai/game/engine.py`), over the action classes of `farkle_ai/game/actions.py`, in the module `Engine`. It covers legal-action enumeration, action application and the observation dict.

Two small helpers complete the model:

- `AbstractActions`: the abstract action space of the learning environment and its action mask (`farkle_ai/environment/actions.py`).
- `DiceMatch`: `_find_indices_for_pattern` (`main.py`), which finds the positions in a roll that a selected pattern takes.

Supporting modules:

- `Wrappers`: `Option`, `Result` and the error kinds.
- `Sorting`: Python's `sorted` on integer sequences. It is an insertion sort, proved to be the unique sorted permutation.

Modelling choices:

- **Dice tuples** are `seq<int>`. A multiset of dice is its sorted sequence, as in the source.
- **Dicts** are modelled as insertion-ordered (`ScoreTable.Dict`): the table's iteration order decides the order of `scorable_patterns`, so it matters.
  - The outer `defaultdict` of the dynamic program is seven layers plus the order in which lengths were first accessed.
  - `dp.values()` yields the layers in that order.
- **Random draws** are inputs. Every roll takes its outcome as a `dice` argument.
  - The state machine requires the drawn length and faces when the turn can roll and numpy can draw.
  - `Engine.DiceForAction` requires the roll's length and faces whenever `max_die_value >= 1`, even when the action fails before drawing. Since `dice` is free, this excludes no game state.
- **Python list indexing** is explicit:
  - a negative player number counts from the end of the list (`State.PyIndex`);
  - `%` is Python's floor modulo (`State.PyMod`).
- **Default parameters**: `State.DefaultParameters` holds the defaults of `Parameters()` (`farkle_ai/game/state.py:19-22`). These are two players, 5000 points to win, six dice and six faces.

## Model

| member | source | states |
|---|---|---|
| Rules.Add | farkle_ai/game/rules.py:29-36 | The sum of two patterns is sorted, its dice are the multiset union of both patterns' dice, and its score is the sum of their scores. |
| Rules.AddCommutes | farkle_ai/game/rules.py:29-36 | `a + b == b + a`, pattern and score. |
| Rules.AddAssociates | farkle_ai/game/rules.py:29-36 | `(a + b) + c == a + (b + c)`. |
| Rules.CatalogEntry | farkle_ai/game/rules.py:41-77 | Every catalog entry is a sorted pattern of 1..6 die faces worth a positive score. Only the two single-die entries have one die, and no entry has two. |
| Rules.CatalogDistinct | farkle_ai/game/rules.py:41-77 | No pattern appears twice in the catalog. |
| Rules.SubtractPatternsSpec | farkle_ai/game/rules.py:89-96 | The Counter difference has a key for every value of either tuple, holding the count in the roll minus the count in the pattern. Counts may go negative. |
| Rules.ValidDifferenceIsContainment | farkle_ai/game/rules.py:99-107 | `are_dice_valid(subtract_patterns(a, b))` holds exactly when `b` is a sub-multiset of `a`. |
| Rules.ContainsPattern | farkle_ai/game/rules.py:99-102 | `contains_pattern(a, b)` holds if and only if every value occurs in `b` at most as often as in `a`. |
| Rules.ContainsIgnoresOrder | farkle_ai/game/rules.py:99-107 | Permuting either tuple does not change containment. |
| Rules.ContainedIsShorter | farkle_ai/game/rules.py:99-107 | A contained pattern has at most as many dice as the roll. |
| Sorting.SortSpec | farkle_ai/game/rules.py:31 | `sorted` returns a sorted permutation of its input. |
| Sorting.SortedUnique | farkle_ai/game/rules.py:31 | Two sorted sequences with the same multiset are equal. So the sorted form is a canonical key for a multiset of dice. |
| ScoreTable.PutSpec | farkle_ai/game/rules.py:125 | `d[k] = v` maps `k` to `v` and keeps every other value. It appends a new key at the end of the iteration order, keeps the positions of old keys, and keeps keys unique. |
| ScoreTable.SeedSpec | farkle_ai/game/rules.py:121-125 | Seeding with a catalog of legal, distinct entries leaves every entry recorded with its own score, in a well-formed state. |
| ScoreTable.PutAllGet | farkle_ai/game/rules.py:137-139 | Copying a dict's items into an accumulator gives the copied value for copied keys and the old value otherwise. |
| ScoreTable.TableGet | farkle_ai/game/rules.py:137-139 | The flattened table holds, for each pattern, exactly what the dynamic program's layer of that pattern's length holds. Patterns longer than six dice are absent. |
| ScoreTable.TableEntries | farkle_ai/game/rules.py:119-139 | The table's keys are exactly the patterns with a positive value. Each key is a sorted pattern of one to six die faces. |
| ScoreTable.CatalogBound | farkle_ai/game/rules.py:121-135 | Every catalog pattern scores at least its catalog score: a seeded score is replaced only by a strictly larger sum. |
| ScoreTable.Superadditive | farkle_ai/game/rules.py:127-135 | For two scoring patterns with at most six dice together, the sorted union scores at least the sum of their scores. |
| ScoreTable.PairOfSingles | farkle_ai/game/rules.py:127-135 | (1, 1) scores at least 200, (1, 5) at least 150, and (5, 5) at least 100. |
| ScoreTable.PatternScore | farkle_ai/game/rules.py:142-144 | `pattern_score` is never negative. It is positive exactly for the table's keys, and then the tuple is sorted and has one to six die faces. |
| ScoreTable.SingleDieScore | farkle_ai/game/rules.py:142-144 | A single die scores 100 for a one, 50 for a five and nothing for any other face. |
| ScoreTable.UnsortedScoresNothing | farkle_ai/game/rules.py:142-144 | A tuple out of sorted order, such as (5, 1), scores 0. |
| Resolver.ScorablePatternsMembers | farkle_ai/game/rules.py:147-157 | `scorable_patterns(d)` lists exactly the scoring patterns that `d` contains, each with its table score. |
| Resolver.ScorablePatternsInTableOrder | farkle_ai/game/rules.py:147-157 | The list is the table's items in table order, with the uncontained ones deleted. |
| Resolver.ScorablePatternsIgnoreOrder | farkle_ai/game/rules.py:147-157 | Permuting the roll changes neither the list nor its order. |
| Resolver.ScorablePatternsOfNoDice | farkle_ai/game/rules.py:147-157 | The empty roll has no scorable patterns. |
| Resolver.ByLength | farkle_ai/game/rules.py:160-170 | The query as written has six slots, and it fails exactly when the roll contains a scoring pattern of six dice. |
| Resolver.ByLengthFails | farkle_ai/game/rules.py:164-168 | The as-written query fails if and only if some scoring pattern of six dice is contained in the roll. |
| Resolver.ByLengthSlots | farkle_ai/game/rules.py:164-170 | On success, slot 0 stays `((), 0)`. Slot `i` holds the first contained pattern of `i` dice whose score no other such pattern exceeds (strict `>`), or `((), 0)`. |
| Resolver.ByLengthCorrectedSlots | farkle_ai/game/rules.py:164-170 | The corrected query puts the best contained pattern of `k` dice in slot `k - 1`, under the same first-maximum rule. |
| Resolver.ByLengthCorrectedEmpty | farkle_ai/game/rules.py:164-170 | A slot of the corrected query is empty if and only if the roll contains no scoring pattern of that slot's length. |
| Resolver.SixOnesOverflow | farkle_ai/game/rules.py:166-168 | Six ones make the as-written query fail. The corrected query fills its last slot. |
| State.PyMod | farkle_ai/game/state.py:260 | Python's `%` lies in `[0, n)` for a positive divisor and in `(n, 0]` for a negative one. It is the identity on that range, `n % n == 0`, and `a - a % n` is a multiple of `n`, so the result is unique. |
| State.PyIndex | farkle_ai/game/state.py:231 | Python's `xs[i]` reads position `i` or `i + len`, and raises exactly when `i < -len` or `i >= len`. |
| State.SelectPattern | farkle_ai/game/state.py:35-61 | Fails exactly on an ended turn, before a roll, on a pattern longer than the roll, or on one the roll does not contain, each with its own error. On success: the turn score grows by the pattern's score and the roll is kept; the next roll takes the remaining dice, or `max_dice_count` when none remain. |
| State.RollDice | farkle_ai/game/state.py:63-99 | Fails on an ended or already-rolled turn. Otherwise it draws the pending count of dice, or `max_dice_count` when that count is 0, each in 1..`max_die_value`. The stored roll is exactly the injected draw. It keeps the score and marks the dice rolled. |
| State.PassTurn | farkle_ai/game/state.py:101-114 | Fails only on an ended turn. Otherwise it returns an ended turn with score 0, no dice, count 0 and no roll. |
| State.EndTurn | farkle_ai/game/state.py:116-131 | Fails on an ended turn or after a roll. Otherwise it keeps the score and ends the turn. |
| State.RollThenEndFails | farkle_ai/game/state.py:116-131 | Ending a turn right after a successful roll always fails. |
| State.SelectThenRoll | farkle_ai/game/state.py:35-99 | After a successful selection, the next roll succeeds on any drawn outcome and keeps the selected points. |
| State.NewGame | farkle_ai/game/state.py:146-181 | A new game keeps the given parameters and starts with `max_dice_count` dice pending and one zero score per player (none for a negative count). Player 0 is current, there is no winner, and it is turn 0, not quit. |
| State.GameSelectPattern | farkle_ai/game/state.py:183-195 | The turn's selection with the module's six dice for hot dice. It keeps everything else and resets `is_quit`. |
| State.GameRollDice | farkle_ai/game/state.py:197-211 | The turn's roll with the game's own dice count and faces. It keeps everything else and resets `is_quit`. |
| State.GamePassTurn | farkle_ai/game/state.py:213-225 | Fails only on an ended turn. It keeps scores, player and winner. |
| State.GameEndTurn | farkle_ai/game/state.py:227-247 | Adds the turn score to the current player's entry alone; the list index is read before the turn ends, so a bad index fails first. The winner is the current player exactly when the new total reaches `score_to_win`, and None otherwise, even if a winner was set before. |
| State.GameStartTurn | farkle_ai/game/state.py:249-271 | The next player is `(p + 1) % player_count` under Python's `%`, which fails on zero players. For a positive count it lies in `[0, player_count)`. The turn counter grows exactly when play reaches player 0. The turn is fresh with six dice, and scores and winner are kept. |
| State.StartTurnRoundRobin | farkle_ai/game/state.py:260-268 | For `-1 <= p < n`, play passes to `p + 1`, and from the last player to player 0, which starts a new round. |
| State.TransitionsKeepParameters | farkle_ai/game/state.py:183-271 | Every game transition keeps `parameters` and resets `is_quit` to False. |
| Engine.ActionPairs | farkle_ai/game/engine.py:27-29 | Position `2k` holds Continue of the `k`-th pattern and position `2k + 1` holds its Bank. |
| Engine.Actions | farkle_ai/game/engine.py:19-31 | The actions are Pass followed by one Continue/Bank pair per scorable pattern, `1 + 2k` in all. The pair for the `k`-th scorable pattern sits at positions `1 + 2k` and `2 + 2k`, in table order. |
| Engine.ActionsListScoringPatterns | farkle_ai/game/engine.py:19-31 | Continue `p` (and Bank `p`) is listed if and only if `p` is a scoring pattern that the roll contains. |
| Engine.ApplyAction | farkle_ai/game/engine.py:67-94 | Continue or Bank of a pattern scoring 0 fails with `NotScoring`. Quit returns the state unchanged. Every other success keeps the parameters, leaves a rolled hand and resets `is_quit`. |
| Engine.ContinueSpec | farkle_ai/game/engine.py:72-82 | Continue succeeds exactly when the pattern scores, the turn is live and rolled, the roll contains the pattern, and dice can be drawn. It keeps player, scores, winner and turn, adds the pattern's points to the turn, and rolls the remaining dice (six for hot dice). The new turn state is stated whole: the drawn dice, that many pending, the summed score, rolled and not ended. |
| Engine.BankSpec | farkle_ai/game/engine.py:72-87 | Bank adds the turn score plus the pattern's points to the current player's total alone. It recomputes the winner from that total and passes play to `(p + 1) % n` with no turn points and a roll of six dice. The round counter goes up exactly when play comes back to player 0. It also states exactly when it succeeds. |
| Engine.PassSpec | farkle_ai/game/engine.py:89-92 | Pass fails on an ended turn. Otherwise it keeps totals and winner, discards the turn points, and hands a roll of six dice to the next player. The round counter goes up exactly when play comes back to player 0. |
| Engine.Others | farkle_ai/game/engine.py:39-41 | The scores at the indices other than the player: each of them appears, nothing else does, and the list is empty only when no other index exists. |
| Engine.MaxOf | farkle_ai/game/engine.py:39-41 | Python's `max` of a non-empty list is a member not below any other member. |
| Engine.Observe | farkle_ai/game/engine.py:33-65 | Fails exactly on an out-of-range player, a game with no opponent, or (for the current player) a roll holding a six-dice scoring pattern. |
| Engine.ObserveSlots | farkle_ai/game/engine.py:33-65 | Remaining scores are `score_to_win` minus the own score and minus the best opponent's score. The current player sees the turn score, the roll's size and the slot scores; any other player sees zeros. |
| AbstractActions.DiceCount | farkle_ai/environment/actions.py:31-38 | Every abstract action holds between one and six dice. |
| AbstractActions.NamesRoundTrip | farkle_ai/environment/actions.py:8-38 | CONTINUE_k and BANK_k decode to their own type and to `k` dice, decoding and naming are inverse, and the continue actions are exactly the values 0..5. |
| AbstractActions.MaskLoop | farkle_ai/environment/actions.py:44-62 | After `n` iterations there are 12 entries in {0, 1}. `mask[i] == mask[i + 6]`, and entry `i` is set exactly when `i < n` and slot `i` holds a scoring pattern of `i + 1` dice. |
| AbstractActions.MaskOf | farkle_ai/environment/actions.py:44-64 | The mask has 12 entries in {0, 1}. CONTINUE_k and BANK_k agree, and are set exactly when slot `k - 1` holds a scoring pattern of `k` dice. |
| AbstractActions.ActionMask | farkle_ai/environment/actions.py:41-64 | The mask fails exactly when the by-length query fails, and otherwise has 12 entries. |
| AbstractActions.ActionMaskAlwaysEmpty | farkle_ai/environment/actions.py:47-55 | Every mask computed without error is all zeros. |
| AbstractActions.CorrectedMaskSpec | farkle_ai/environment/actions.py:47-62 | With the corrected query, CONTINUE_k is allowed exactly when the roll contains a scoring pattern of `k` dice, and BANK_k agrees. |
| AbstractActions.SingleOneMasks | farkle_ai/environment/actions.py:47-62 | For a roll of a single 1, the corrected mask allows CONTINUE_1 and BANK_1, while the as-written mask allows nothing. |
| DiceMatch.FindIndicesForPattern | main.py:62-82 | An empty pattern gives `[]`, and so does a pattern the roll does not contain. Otherwise the result has `len(pattern)` strictly increasing in-range positions, whose dice form the pattern's multiset. Each value takes its earliest positions: no untaken position holding the same value comes before a taken one. |

## Left out

- Random number generation (`rules.roll_dice`, `np.random.default_rng`): every roll's outcome is an input sequence.
- Errors are collapsed into error kinds:
  - `ValueError`, `RuntimeError`, `IndexError` and `ZeroDivisionError` map to one `Error` constructor per distinct cause;
  - numpy's own `ValueError`s on a negative sample size or an empty range of faces are kept as causes, but their exact message and precedence are not modelled.
- `@cache` memoisation: the cached functions are pure, so caching changes nothing.
- `are_dice_zero`: no modelled operation calls it.
- The Pygame and Tkinter front ends (everything in `main.py` except `_find_indices_for_pattern`, and `farkle_ai/game/gui.py`): rendering and event loops.
- The learning environment, training, matches and agents (`farkle_ai/environment/environment.py`, `train.py`, `match.py`, `farkle_ai/agents/`): external libraries and I/O.
- The observation and mask are Python lists, not numpy arrays: `int8` storage only holds 0 and 1 here, so nothing is lost.
- ScoreTable.PairOfSingles: states lower bounds for (1, 1), (1, 5) and (5, 5), not their exact table values. An exact value would need a proof about every other way the dynamic program can reach the same key.
- The size of the table (at most 924 keys) is not stated.

## Findings

| source | as written | input that shows it | evidently intended | confidence | as-written member | corrected member |
|---|---|---|---|---|---|---|
| farkle_ai/game/rules.py:167-168 | `scorable_patterns_by_length` indexes its six slots by `len(pattern)`, so slot 0 is never used and a contained pattern of six dice indexes slot 6, past the end (IndexError). | rolled dice `(1, 1, 1, 1, 1, 1)` | slot `len(pattern) - 1`: the best pattern of `k` dice in slot `k - 1`, never failing | high; not executed | Resolver.SixOnesOverflow | Resolver.ByLengthCorrectedEmpty |
| farkle_ai/environment/actions.py:49-55 | `action_mask` reads slot `k - 1` and requires a pattern of `k` dice there. With length-indexed slots that never holds, so every mask is all zeros. | rolled dice `(1,)`: `action_mask` is twelve zeros although CONTINUE_1 is playable | the actions for `k` dice are allowed exactly when the roll contains a scoring pattern of `k` dice | high; not executed | AbstractActions.ActionMaskAlwaysEmpty | AbstractActions.CorrectedMaskSpec |

The as-written query (`Resolver.ByLength`) is what `Engine.Observe` and `AbstractActions.ActionMask` use, as in the source. The corrected query (`Resolver.ByLengthCorrected`) and the corrected mask (`AbstractActions.CorrectedActionMask`) carry the intended properties.
