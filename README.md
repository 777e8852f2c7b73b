# Tic-tac-toe game engine and adversarial searches, in Dafny

This project models the engine of `tic-tac-toe.py` and proves properties of it. The engine plays k-in-a-row on an h × v board. Three searches pick a move for the side to play:

- exhaustive minimax (`minimax_decision`);
- minimax with alpha-beta pruning (`alpha_beta_search`);
- minimax with a depth limit (`depth_limit_search`).

The files follow the program's structure:

- `game.dfy` (module `Game`) covers the `State` record and `TicTacToe`: the initial state, `actions`, `result`, `utility`, `terminal_test`, `k_in_row` and `compute_utility`.
  - A state is an immutable value: the player to move, the cached utility (+1 when X has completed a line, -1 when O has), the board as rows of cells, and the remaining moves as a sequence. Their order is the order the searches try them in.
  - The parts of the source that work step by step are methods proved against specification functions:
    - `KInRow`: the two `while` loops of `k_in_row`;
    - `ComputeUtility`: the short-circuit `or` over the four directions;
    - `Result`: copy the board, mark one square, remove the move.
  - `Run`, `RunLength`, `MoveUtility` and `Successor` are the specification functions. Lemmas relate them to an independent notion: a line of k marks through the square just played.
- `choice.dfy` (module `Choice`) covers Python's `max(actions, key=...)`, which keeps the first action of greatest key. It also holds the integer sentinels -2 and +2 that stand for `-np.inf` and `np.inf`. Every game value lies in {-1, 0, 1}, so the sentinels lie strictly outside every value.
- `minimax.dfy` (module `Minimax`) covers `minimax_decision`.
  - The functions `MaxValue`/`MinValue` are the game values.
  - `MaxOver`/`MinOver` give the loop's accumulator after `n` actions.
  - The methods `SearchMax`, `SearchMin` and `MinimaxDecision` are the recursive searches with their `for` loops.
- `alpha_beta.dfy` (module `AlphaBeta`) covers `alpha_beta_search`.
  - The windowed `max_value`/`min_value` are fail-soft: inside the window (alpha, beta) they return the exact minimax value. Beyond a window edge they return a value between that edge and the true value.
  - From this it follows that the root loop picks the same action as `minimax_decision`.
- `depth_limited.dfy` (module `DepthLimited`) covers `depth_limit_search`.
  - The code as written cannot run. Line 53 of `tic-tac-toe.py` reads `cutoff_test` before it is assigned in the same scope, and refers to an undefined `d`. Line 54 reads `eval_fn` the same way.
  - The model therefore follows the evident intent. A node is cut off when its depth exceeds `depthLimit` (default 6) or the game is over. A cut-off node is evaluated as `utility(state, player)` for the root player. The root's successors are at depth 1.

## Model

| member | source | states |
|---|---|---|
| Game.Initial | tic-tac-toe.py:145-151 | The initial state has X to move and utility 0. Every square is empty. The moves are exactly the squares of the board, in row-major order. The state satisfies the reachable-state invariant. |
| Game.Cells | tic-tac-toe.py:149-150 | The move comprehension lists exactly the squares of the h × v board, strictly in row-major order (so each square appears once). |
| Game.RunLength | tic-tac-toe.py:184-196 | The run count is at least 1 when `move` holds the player's mark, and -1 otherwise. |
| Game.KInRow | tic-tac-toe.py:184-196 | The two walks return the forward run plus the backward run, minus 1. Both loops stop at the board's edge before reading a square. |
| Game.RunCells | tic-tac-toe.py:188-190 | Every square a forward walk passes over is on the board and holds the player's mark. |
| Game.RunAtLeast | tic-tac-toe.py:188-190 | A walk gets at least as far as any unbroken stretch of the player's marks that starts where it does. |
| Game.RunLengthGivesLine | tic-tac-toe.py:184-196 | A run count of at least k yields a line of k of the player's marks through `move` along the direction. |
| Game.LineGivesRunLength | tic-tac-toe.py:184-196 | A line of k of the player's marks through `move` along the direction makes the run count at least k. |
| Game.RunLengthIffLine | tic-tac-toe.py:184-196 | Both directions together: the run count reaches k if and only if such a line exists. |
| Game.MoveUtility | tic-tac-toe.py:199-203 | compute_utility's value is 0 or the mover's sign (+1 for X, -1 for O). |
| Game.UtilityAlong | tic-tac-toe.py:200-203 | The chain of `or` tests over the directions yields 0 or the mover's sign. |
| Game.UtilityAlongFindsRun | tic-tac-toe.py:200-203 | The chain yields the mover's sign exactly when some direction in it has a run count of at least k, and 0 otherwise. |
| Game.MoveUtilityDetectsLine | tic-tac-toe.py:199-203 | The utility is the mover's sign exactly when one of the four directions (0,1), (1,0), (1,-1), (1,1) has a line of k of the mover's marks through the square, and 0 otherwise. |
| Game.ComputeUtility | tic-tac-toe.py:199-203 | The short-circuit method computes that utility. |
| Game.RemoveFirst | tic-tac-toe.py:163-164 | Removing a move from the list shortens it by one when the move is present, and keeps only elements of the original. Where the move is absent the model returns the list unchanged, a case `result` never reaches because of its guard at line 159 (Python's `list.remove` would raise `ValueError` there). |
| Game.FirstIndex | tic-tac-toe.py:164 | The position found holds the element, and no earlier position does. |
| Game.RemoveFirstDropsFirst | tic-tac-toe.py:163-164 | `list.remove` deletes exactly the first occurrence and keeps the order of the rest. |
| Game.Successor | tic-tac-toe.py:158-167 | A move not in `moves` gives back the state unchanged. A legal move gives a well-formed state with one move fewer. |
| Game.SuccessorOfLegalMove | tic-tac-toe.py:161-167 | After a legal move, the board is the old one except at `move`, which holds the old mover's mark. The moves are the old list with the first occurrence of `move` removed and the order kept. The turn passes to the other player. The cached utility is compute_utility's value for the move. |
| Game.RemoveAtKeepsDistinct | tic-tac-toe.py:163-164 | Removing one entry from a list without repeats leaves a list without repeats that holds every other entry. |
| Game.SuccessorKeepsValid | tic-tac-toe.py:158-167 | result keeps the invariant: the moves are distinct and are exactly the empty squares. The move just played is no longer among them. |
| Game.Result | tic-tac-toe.py:158-167 | The imperative result matches the successor specification. |
| Game.SuccessorDetectsWin | tic-tac-toe.py:165-167 | A successor's utility is non-zero exactly when the mover has just completed a line of k through the square played. |
| Game.UtilityZeroSum | tic-tac-toe.py:175-176 | `utility(s, 'X') == -utility(s, 'O')`. |
| Game.TerminalIffWonOrFull | tic-tac-toe.py:179-180 | In a reachable state, terminal_test holds exactly when the cached utility is non-zero or no square is empty. |
| Game.ActionsAreLegal | tic-tac-toe.py:154-155 | Every action is an empty square on the board, and taking it leaves fewer moves. So every search terminates. |
| Choice.BestIndex | tic-tac-toe.py:25 | The index `max` settles on is one of the keys scanned. |
| Choice.BestIndexIsFirstMax | tic-tac-toe.py:25 | `max(..., key=...)` picks a key that no other key exceeds, and every earlier key is strictly smaller. |
| Minimax.MaxValue | tic-tac-toe.py:8-14 | max_value lies in {-1, 0, 1} (at least -1 and at most 1). |
| Minimax.MinValue | tic-tac-toe.py:16-22 | min_value lies in {-1, 0, 1}. |
| Minimax.MaxOver | tic-tac-toe.py:11-14 | max_value's accumulator is the sentinel before any action, and a game value after one. |
| Minimax.MinOver | tic-tac-toe.py:19-22 | min_value's accumulator is the sentinel before any action, and a game value after one. |
| Minimax.ChildMin | tic-tac-toe.py:13 | The min value of a successor is a game value. |
| Minimax.ChildMax | tic-tac-toe.py:21 | The max value of a successor is a game value. |
| Minimax.KeysUpTo | tic-tac-toe.py:25 | There is one key per action scanned, and each key is a game value. |
| Minimax.Keys | tic-tac-toe.py:25 | There is one key per action, and each key is a game value. |
| Minimax.KeysUpToAt | tic-tac-toe.py:25 | Entry `i` of the first `n` keys is min_value of the successor by action `i`. |
| Minimax.KeyAt | tic-tac-toe.py:25 | Entry `i` of the keys is min_value of the successor by action `i`. |
| Minimax.MinimaxChoice | tic-tac-toe.py:25 | There is no choice exactly when there are no actions. |
| Minimax.MinimaxChoiceIsFirstBest | tic-tac-toe.py:3-25 | minimax_decision returns an action of the state whose successor has the greatest min_value, and the first such action in `moves` order. |
| Minimax.MaxOverGrows | tic-tac-toe.py:12-13 | max_value's accumulator never decreases as it sees more actions. |
| Minimax.MinOverShrinks | tic-tac-toe.py:20-21 | min_value's accumulator never increases as it sees more actions. |
| Minimax.ZeroSumDuality | tic-tac-toe.py:8-22 | max_value for one player is minus min_value for the other, and the same the other way round. |
| Minimax.ZeroSumDualityOver | tic-tac-toe.py:11-14 | max_value's accumulator for one player is minus min_value's accumulator for the other, after any number of actions. |
| Minimax.ChildDuality | tic-tac-toe.py:13 | A successor's min value for one player is minus its max value for the other. |
| Minimax.SearchMax | tic-tac-toe.py:8-14 | The recursive max_value with its loop computes the max game value. |
| Minimax.SearchMin | tic-tac-toe.py:16-22 | The recursive min_value with its loop computes the min game value. |
| Minimax.ActionKey | tic-tac-toe.py:25 | The key lambda computes min_value of the action's successor. |
| Minimax.MinimaxDecision | tic-tac-toe.py:3-25 | minimax_decision returns the first action of greatest key, or none when there are no actions. |
| AlphaBeta.MaxStep | tic-tac-toe.py:69-73 | One loop turn of the windowed max_value, on numbers, keeps the window invariant. |
| AlphaBeta.MinStep | tic-tac-toe.py:80-84 | One loop turn of the windowed min_value, on numbers, keeps the window invariant. |
| AlphaBeta.MaxDone | tic-tac-toe.py:71-74 | Whether the max loop ends or cuts off at beta, its value is a fail-soft answer. |
| AlphaBeta.MinDone | tic-tac-toe.py:82-85 | Whether the min loop ends or cuts off at alpha, its value is a fail-soft answer. |
| AlphaBeta.MaxTurn | tic-tac-toe.py:69-73 | After a child's fail-soft answer, the max accumulator is bounded by the true fold. While it stays below beta, it is at least the fold. |
| AlphaBeta.MaxCut | tic-tac-toe.py:71-72 | Returning once the value reaches beta gives a value between beta and the node's minimax value. |
| AlphaBeta.MinTurn | tic-tac-toe.py:80-84 | After a child's fail-soft answer, the min accumulator is bounded by the true fold. While it stays above alpha, it is at most the fold. |
| AlphaBeta.MinCut | tic-tac-toe.py:82-83 | Returning once the value falls to alpha gives a value between the node's minimax value and alpha. |
| AlphaBeta.RootStep | tic-tac-toe.py:90-94 | With the window opened at the best score so far, a child beats that score exactly when its key is a new strict maximum. |
| AlphaBeta.MaxValue | tic-tac-toe.py:65-74 | The windowed max_value returns the minimax value when it lies strictly inside (alpha, beta). It returns a value in [v, alpha] when the value v is at most alpha, and in [beta, v] when v is at least beta. |
| AlphaBeta.MinValue | tic-tac-toe.py:76-85 | The same fail-soft guarantee for the windowed min_value. |
| AlphaBeta.AlphaBetaSearch | tic-tac-toe.py:87-95 | alpha_beta_search returns the same action as minimax_decision, and none when there are no actions. |
| DepthLimited.CutMax | tic-tac-toe.py:35-42 | The depth-limited max_value lies in {-1, 0, 1}. |
| DepthLimited.CutMin | tic-tac-toe.py:44-50 | The depth-limited min_value lies in {-1, 0, 1}. |
| DepthLimited.CutMaxOver | tic-tac-toe.py:39-42 | The accumulator is the sentinel before any action, and a game value after one. |
| DepthLimited.CutMinOver | tic-tac-toe.py:47-50 | The accumulator is the sentinel before any action, and a game value after one. |
| DepthLimited.CutChildMin | tic-tac-toe.py:41 | A successor's depth-limited min value, one level deeper, is a game value. |
| DepthLimited.CutChildMax | tic-tac-toe.py:49 | A successor's depth-limited max value, one level deeper, is a game value. |
| DepthLimited.NoCutoffAgrees | tic-tac-toe.py:35-53 | When depth + len(moves) <= depthLimit + 1, no depth cutoff can fire below the node, and the depth-limited values equal the minimax values. |
| DepthLimited.NoCutoffAgreesOver | tic-tac-toe.py:39-50 | Under the same bound, the loops' accumulators equal minimax's after any number of actions. |
| DepthLimited.NoCutoffChildAgrees | tic-tac-toe.py:41-49 | Under the same bound, a successor's depth-limited values equal its minimax values. |
| DepthLimited.CutKeysUpTo | tic-tac-toe.py:57 | There is one key per action scanned, and each key is a game value. |
| DepthLimited.CutKeys | tic-tac-toe.py:57 | There is one key per action, and each key is a game value. |
| DepthLimited.CutKeysUpToAt | tic-tac-toe.py:57 | Entry `i` of the first `n` keys is the depth-1 min value of action `i`'s successor. |
| DepthLimited.CutKeyAt | tic-tac-toe.py:57 | Entry `i` of the keys is the depth-1 min value of action `i`'s successor. |
| DepthLimited.DepthChoice | tic-tac-toe.py:57 | There is no choice exactly when there are no actions. |
| DepthLimited.DepthChoiceIsFirstBest | tic-tac-toe.py:31-57 | depth_limit_search returns a member of the actions. It is one whose depth-limited key is greatest, and the first such in `moves` order. |
| DepthLimited.DeepEnoughIsMinimax | tic-tac-toe.py:31-57 | With depthLimit >= len(moves) - 1 (so in particular depthLimit >= len(moves)), depth_limit_search picks what minimax_decision picks. |
| DepthLimited.SearchMax | tic-tac-toe.py:35-42 | The recursive depth-limited max_value computes the depth-limited max value. |
| DepthLimited.SearchMin | tic-tac-toe.py:44-50 | The recursive depth-limited min_value computes the depth-limited min value. |
| DepthLimited.ActionKey | tic-tac-toe.py:57 | The key lambda computes the depth-1 min value of the action's successor. |
| DepthLimited.DepthLimitSearch | tic-tac-toe.py:31-57 | depth_limit_search returns the first action of greatest depth-limited key, or none when there are no actions. |

## Left out

- The interactive driver (tic-tac-toe.py:209-267) is console input and output. It edits `TT.initial` in place and calls `exit()`. None of it is modelled.
- `Game.display`, `__repr__` and the `print(player)` of `minimax_decision` are output only.
- The abstract methods of the `Game` base class are not modelled. `TicTacToe` overrides every one that the searches use.
- numpy: `np.full` becomes a sequence of rows. `np.inf` and `-np.inf` become the integers +2 and -2; they only ever meet values in {-1, 0, 1}, so the comparisons come out the same.
- `depth_limit_search` takes only `(state, game, depthLimit=6)`. The names `cutoff_test` and `eval_fn` are free variables that line 53 and line 54 read before anything binds them, so no caller-supplied cutoff or evaluation exists. The model has only the default cutoff and evaluation that those lines evidently intend.
- Python's `max` over an empty action list raises `ValueError`. `MinimaxChoice` and `DepthChoice` return `None` in that case. `alpha_beta_search` returns Python's `None` there too.
- Game.Successor: requires `WellFormed`, which the source does not check. This means a board of h × v rows, a utility in {-1, 0, 1}, and moves that are squares of the board. Every state built from the initial one satisfies it; it makes the board indexing of `result` defined.
- AlphaBeta.MaxValue: requires `-2 <= alpha < beta <= 2`. Every window that `alpha_beta_search` passes down satisfies this, but a direct caller could pass an empty window.
- AlphaBeta.MinValue: requires `-2 <= alpha < beta <= 2`, for the same reason.
- `result` on a move that is not in `moves` returns the state unchanged, as the code does. It does not signal an illegal-move error. The code makes no configuration or precondition checks of its own. Its only errors are incidental: `np.full` raises `ValueError` for a negative h or v, and `max` raises on an empty move list (see above).
- Properties that depend on k, such as Game.MoveUtilityDetectsLine, require `k >= 1`. With k <= 0 every move wins at once; the run count itself is modelled for every k.
- The balance of X and O marks on the board is not stated as an invariant. No search relies on it.
- Node counts and the amount of pruning: the code promises nothing about them, so only values and choices are modelled.
- The source copies the state's board and move list before changing them. The model's states are immutable values, so the input state is unchanged by construction, and no aliasing can arise.
- Game.Config: h and v are natural numbers, so the model cannot express the negative board dimension for which `np.full` at line 151 raises `ValueError`. A negative k can be expressed; the model treats it like the code does (every mark already wins).
