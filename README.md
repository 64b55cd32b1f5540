# Bulls and Cows engine, modelled in Dafny

This project models the game engine of `BullsAndCowsPro` in `game.py`. The game is a
Mastermind / Bulls-and-Cows puzzle. A hidden code of four symbols is drawn from an active
alphabet of `ACTIVE_ICONS = 4` symbols. The player has `ROWS = 5` rows to find it. Each
complete row gets a score:
- bulls: right symbol in the right place;
- cows: right symbol in the wrong place, where each occurrence in the code is used once.

The Tkinter class mixes this engine with drawing code. Only the engine is modelled. It has
three parts, one module each, plus `Config` for the constants:

- `Generation` (`generation.dfy`) builds the secret the way `init_game` does. The random
  choices are parameters: the branch taken, the list that `random.sample` returned, and the
  indices that `random.shuffle` drew. `Shuffle` is CPython's in-place Fisher-Yates loop on
  an array. `GeneratedShape` proves the shape of every code. Pair branch: one symbol twice,
  two symbols once. Other branch: four distinct symbols.
- `Scoring` (`scoring.dfy`) holds `start_result_sequence`'s two passes. They run on
  private array copies of the guess and the code, with `Consumed` in place of Python's
  `None`. The method is proved against a specification that does not depend on the
  algorithm:
  - bulls = `Bulls`, the number of agreeing positions;
  - bulls + cows = `Common`, the size of the multiset intersection of guess and code. For
    each symbol this is the smaller of its two occurrence counts, summed over all symbols.
- `Session` (`session.dfy`) is the class `GameSession`. Its fields are `secret_code`,
  `current_guess`, `history`, `row_count` and `is_animating`, under the names `secret`,
  `guess`, `history`, `rowCount` and `busy`. Its methods are the handlers that change
  those fields. `Valid()` is kept by every method. It says:
  - the guess holds at most four symbols;
  - the guess is full exactly while its row is being scored;
  - `rowCount == |history|`;
  - each record is its guess scored against the current secret.

  `InPlay()` adds that rows remain and that no row has been won. Every method that starts
  or resolves a row ensures `InPlay()` afterwards.

The animation delays are collapsed into single steps. A row is resolved by one call,
`ResolveRow`, taken while the row is busy. The fourth selection makes the row busy at once.
The source leaves a short gap before scoring instead (see Findings).

The model follows `game.py` as written:
- selected symbols are not range-checked and there is no error result for them;
- the alphabet size is a constant, so there is no error for an alphabet too small for a code;
- there is no terminal "won" or "lost" state: `check_game_end` starts a new game at once,
  and `CheckGameEnd` reports which outcome it was.

## Model

| member | source | states |
|---|---|---|
| `Scoring.Score` | game.py:212-219 | Bulls are the positions where guess and code agree. Bulls plus cows is the multiset intersection of guess and code, so each code slot yields at most one bull or cow. The total is at most 4. Bulls are 4 exactly when the guess equals the code. The arguments are not changed. |
| `Scoring.TakeBulls` | game.py:216-217 | The first pass counts exactly the agreeing positions. It leaves both copies with those positions consumed and all others intact. |
| `Scoring.TakeCows` | game.py:218-219 | The second pass counts exactly the size of the multiset intersection of the symbols still available in the two copies. Afterwards the secret copy holds exactly its old symbols minus that intersection. |
| `Scoring.FirstIndexOf` | game.py:219 | `list.index`: the returned position holds the value, and no earlier position does. |
| `Scoring.BullsAllIffEqual` | game.py:216-217 | Bulls never exceed the length. They equal it exactly when guess and code are equal element by element. |
| `Scoring.MaskSplit` | game.py:216-217 | After the bulls pass, a sequence's symbols split into the matched ones and the ones its copy still holds. |
| `Scoring.MatchedCount` | game.py:216-217 | The matched symbols number exactly the bulls. |
| `Scoring.CommonSplit` | game.py:214-219 | Bulls plus what the two copies still share after the first pass is the full intersection count, so the second pass must find exactly the cows. |
| `Scoring.ScoreBounds` | game.py:214-219 | 0 <= bulls <= bulls + cows <= length of the guess. |
| `Scoring.ScoreSymmetric` | game.py:214-219 | Exchanging the roles of guess and code changes neither bulls nor bulls + cows. |
| `Scoring.LiveConsume` | game.py:219 | Consuming a slot of a copy removes exactly its symbol, once, from what the copy offers. |
| `Scoring.LiveHas` | game.py:219 | The test `g_copy[i] in s_copy` holds exactly when the symbol is still available in the copy of the code. |
| `Scoring.CowTaken` | game.py:219 | A guess symbol that consumes a free code slot moves exactly that symbol from the code copy into the shared part, and what remains shared shrinks by it. |
| `Scoring.CowMissed` | game.py:219 | A guess symbol with no free copy in the code adds nothing to the shared part. |
| `Scoring.CowsTakenStep` | game.py:219 | One cow keeps the pass's bookkeeping: one more cow, one more consumed symbol, the rest of the intersection still to find. |
| `Scoring.CowsSkipStep` | game.py:218-219 | A consumed guess entry, or one with no free copy, keeps the bookkeeping unchanged. |
| `Scoring.RepeatedGuessSymbol` | game.py:214-219 | Code [1,1,2,3] against guess [1,1,1,1] gives bulls 2 and bulls + cows 2, so there are no cows. |
| `Scoring.SwappedPair` | game.py:214-219 | Code [1,1,2,3] against guess [1,2,1,3] gives 2 bulls and 2 cows, not 4 cows. |
| `Scoring.ReversedCode` | game.py:214-219 | Code [1,2,3,4] against guess [4,3,2,1] gives 0 bulls and 4 cows. |
| `Generation.ShufflePermutes` | game.py:98 | The shuffle steps keep the length and the multiset of symbols. |
| `Generation.Shuffle` | game.py:98 | In place, the array becomes the list that `random.shuffle` makes from the drawn indices, which is a permutation of the old contents. |
| `Generation.GeneratedShape` | game.py:89-101 | Every secret has 4 symbols, all in [0, ACTIVE_ICONS). Pair branch: the first sampled symbol occurs twice and the other two once each, with nothing else. Unique branch: all four are distinct. |
| `Generation.PairRepeats` | game.py:96 | A doubled symbol sits at two different positions, so a pair-branch code is not all distinct. |
| `Generation.NewSecret` | game.py:89-101 | Builds [a,a,b,c] and shuffles it, or takes the 4-sample as it is. The result is the specified code and has the shape above. |
| `Session.GameSession.constructor` | game.py:19-43 | A new session has a generated secret, an empty guess and history, row 0, and is not busy. |
| `Session.GameSession.InitGame` | game.py:84-104 | Sets a new generated secret and resets history, guess, row counter and busy flag. It is allowed in any state and leaves `rowCount == \|history\|`. |
| `Session.GameSession.Select` | game.py:192-210 | The call is refused, changing nothing, while busy or with four symbols. Otherwise it appends exactly that symbol. The guess never exceeds four symbols. A full guess is busy. Nothing else changes. |
| `Session.GameSession.Undo` | game.py:258-259 | Removes only the last symbol when the guess is non-empty and not busy. Otherwise nothing changes. |
| `Session.GameSession.RecordTurn` | game.py:234-237 | Appends exactly one record of the guess and its score. Advances the row counter by one, clears the guess and the busy flag, and keeps `rowCount == \|history\|`. |
| `Session.GameSession.CheckGameEnd` | game.py:251-256 | 4 bulls is a win. Otherwise `rowCount >= ROWS` is a loss that reveals the code. Either outcome starts a new game with empty history and row 0. Otherwise nothing changes. |
| `Session.GameSession.ResolveRow` | game.py:212-238 | The row is scored against the secret and recorded, then the game is won, lost or goes on. Afterwards the session is waiting for input again. |
| `Session.UndoOpenAfterFourthAsWritten` | game.py:207-259 | As written, `animate_move` followed by `undo_guess` on a three-symbol idle row leaves that same three-symbol guess, not busy. Such a guess cannot meet `Score`'s requirement of four symbols, which is the `IndexError` at `g_copy[3]`. |
| `Session.UndoRefusedBeforeScoring` | game.py:258-259 | In the model, an undo right after the fourth symbol is refused, and the row stays full and busy for scoring. |

## Left out

- Drawing: canvas layout, buttons, dots, window resizing and the instructions text (`draw_ui`, `create_btn`, `draw_static_dots`, `on_window_resize`). They are UI without game logic.
- Image loading, resizing and the glow blur (`load_resources`, `create_glow_version`). These are PIL library calls and file I/O.
- Floating-point screen geometry (`get_scales` and the coordinate arithmetic of the handlers).
- Animation timing: `time.sleep`, `canvas.update` and the `root.after` chains. A row's scoring, dot reveal and recording are one synchronous step. Because of this, the model does not capture that RESTART pressed during the dot reveal lets the pending callbacks record a row into the new game.
- The shuffle of `TOTAL_POOL` icons that picks the pictures of a session (`selected_indices`). It only maps symbols to pictures.
- The probability of each generation branch and the uniformity of `random.sample` and `random.shuffle`. Random results are parameters, and their preconditions (`IsSample`, `IsDraws`) state only what those library calls guarantee.
- The message boxes and the 1-based text of the revealed code. `Lost` carries the code itself.
- Session.GameSession.Select: requires the symbol to lie in the alphabet. The source does not check it. Its only callers are the buttons bound over `range(ACTIVE_ICONS)` in `draw_ui`, so no other index reaches it. An index of 4 or more would fail at `session_icons[index]` in `animate_move`. An index from -4 to -1 would instead wrap to a real icon and be appended as a negative symbol.

## Findings

| source | as written | input that shows it | evidently intended | confidence | as-written member | corrected member |
|---|---|---|---|---|---|---|
| game.py:207-210 | The fourth symbol is appended and `is_animating` is cleared. Scoring starts 100 ms later. | Select three symbols, then a fourth, then press Backspace within 100 ms. `undo_guess` pops a symbol, and `start_result_sequence` indexes `g_copy[3]` of a three-symbol guess. The `IndexError` leaves `is_animating` set, so input stays locked until RESTART. | No undo between the fourth symbol and its scoring. | not executed; depends on timing | `Session.UndoOpenAfterFourthAsWritten` | `Session.UndoRefusedBeforeScoring` |
