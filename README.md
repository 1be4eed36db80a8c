# Champion pool and player board of soju-ai, in Dafny

This project models two stateful parts of the soju-ai auto-battler:

- **The champion pool** (`src/models/pool.py`).
  - `Pool` keeps `cost_to_counts`, the copies of each champion that no player holds, grouped by cost tier. It also keeps the instance-id counter `max_id` and the catalog `name_to_champ`.
  - `get` makes two weighted draws with `choose_rand_from_list`: first a cost tier, weighted by the player's drop-rate row, then a champion of that tier, weighted by its remaining copies. It takes one copy, bumps `max_id` and hands out a clone carrying the new id. If the drawn champion has no copies left, it calls itself again.
  - `put` gives back `3^(level-1)` copies of a returned champion.
- **The player board** (`src/models/boards/player_board.py`).
  - `PlayerBoard` is a fixed grid of optional champions plus a stored counter `num_champs`.
  - The operations are `add_champ`, `add_champ_from_carousel`, `is_full`, `move_champ` and `remove_champ`.

## Files

- `wrappers.dfy`: `Option`.
- `champion.dfy`: a champion, reduced to its name, cost, star level and instance id, and its `clone`.
- `pool.dfy` (module `Pool`):
  - the weighted choice: the spec function `Pick`, the independent characterisation `FirstReaching`, and the loop `ChooseRandFromList`;
  - cost tiers: ordered lists of name/count pairs, which is how a Python dict iterates;
  - the pure specification of one `get` attempt (`DrawStep`), of `get` (`GetSpec`) and of `put` (`PutStep`);
  - the class `Pool`, whose methods are proved to follow those specifications.
- `player_board.dfy` (module `Boards`):
  - the grid as a value, the multiset of champions on it, and the scan order of the carousel;
  - the class `PlayerBoard` over an `array2` of cells. A ghost copy of the grid is tied to the array by `Valid()`.

Every random value that `uniform(0, total)` would produce is a parameter, so every operation is deterministic here.

Where the code does something other than what a caller would expect, the model follows the code:

- **All-zero weights.** A caller might expect "no selection". The code draws `uniform(0, 0) = 0`, so it returns index 0. See `Pool.AllZeroPicksFirst`.
- **Retries.** A caller would expect a bounded retry that ends by reporting exhaustion. The code recurses without bound. See the findings below.
- **The counter in `add_champ`.** A caller would expect a fresh placement to increment `num_champs`. The code leaves it alone. See the findings below.
- **The constructor.** A caller would expect it to fail at most for a cost without a configured pool size. The code fails on every non-empty catalog. See the findings below.

## Model

| member | source | states |
|---|---|---|
| Pool.Pick | src/models/pool.py:63-71 | the walk's answer is -1 or an index of the list; on an empty list it is -1 |
| Pool.PickIsFirstReaching | src/models/pool.py:67-70 | the answer is the least index whose prefix sum w[0]+…+w[i] reaches r, and -1 means no prefix sum reaches r |
| Pool.FirstReachingIsPick | src/models/pool.py:67-70 | the two descriptions agree both ways: an index is "least reaching r" exactly when it is the walk's answer |
| Pool.ChooseRandFromList | src/models/pool.py:63-71 | the loop that subtracts weights from r returns exactly that least index, or -1 when no prefix sum reaches r |
| Pool.PickInRange | src/models/pool.py:65-71 | on a non-empty list with r at most the total, the answer is a real index, never -1 |
| Pool.PickedWeightPositive | src/models/pool.py:66-70 | with r > 0 the chosen index has a strictly positive weight |
| Pool.AllZeroPicksFirst | src/models/pool.py:65-70 | with all weights zero the only value r can take is 0, and the walk answers index 0 |
| Pool.IndexOf | src/models/pool.py:60 | a name's position among a tier's keys is the first position holding it, or -1 when the name is not a key |
| Pool.TakeAccounting | src/models/pool.py:54 | taking a copy lowers exactly that champion's count by one, and the tier's total by one |
| Pool.GiveAccounting | src/models/pool.py:60 | giving n copies raises exactly that champion's count by n, and the tier's total by n |
| Pool.StoreFacts | src/models/pool.py:28 | `tier[name] = n` makes name map to n, keeps every other key at its place with its count, and keeps keys unique |
| Pool.Choose | src/models/pool.py:36-52 | the two draws land on a champion that exists in the tier, and a "chosen" champion has a copy left |
| Pool.DrawAccounting | src/models/pool.py:31-56 | one attempt either takes one copy of a champion that had one, bumps max_id and hands out a clone carrying the new id, or changes nothing; counts never go negative |
| Pool.DepletedOnlyOnZeroDraw | src/models/pool.py:45-53 | a champion with no copies is drawn only when the champion draw's random value is zero or below |
| Pool.ExhaustedTierRetries | src/models/pool.py:45-53 | once the cost draw picks a tier whose every count is zero, every value `uniform(0, 0)` can give selects its first, depleted champion, and the attempt retries with nothing changed |
| Pool.ExhaustedPoolNeverGets | src/models/pool.py:31-53 | when every tier the rates can pick has no copies left, every attempt, however many, retries and leaves the pool as it was |
| Pool.GetAccounting | src/models/pool.py:31-56 | the whole of `get`, retries included, either takes exactly one copy and moves max_id on by one, or changes nothing |
| Pool.PutAccounting | src/models/pool.py:58-60 | `put` raises the returned champion's count by exactly 3^(level-1) and changes no other count and not max_id; a missing key changes nothing |
| Pool.PutUndoesDraw | src/models/pool.py:51-60 | putting back a freshly drawn champion restores every count the draw changed |
| Pool.InitAsWrittenRaises | src/models/pool.py:24-28 | as written, line 28 raises KeyError on the first champion of any non-empty catalog, since no inner dict is ever created |
| Pool.BuildStep | src/models/pool.py:26-29 | one turn of the constructor's loop stocks the new champion, keeps every earlier one stocked, and registers it by name |
| Pool.Pool.constructor | src/models/pool.py:22-29 | every catalog champion is stocked with the pool size of its cost, every stocked name comes from the catalog, max_id is 0, and name_to_champ holds each catalog name under itself |
| Pool.Pool.Draw | src/models/pool.py:31-56 | one attempt of `get` changes the pool exactly as `DrawStep` says and keeps it well-formed |
| Pool.Pool.Get | src/models/pool.py:31-56 | `get` with its retries runs the attempts in order until one does not retry, exactly as `GetSpec` says |
| Pool.Pool.Put | src/models/pool.py:58-60 | `put` changes the pool exactly as `PutStep` says and keeps it well-formed |
| Boards.ResidentsPut | src/models/boards/player_board.py:37-39 | writing a cell takes its former occupant off the board and puts the new one on; nobody else moves |
| Boards.OccupiedPut | src/models/boards/player_board.py:29-34 | writing a champion into an empty cell raises the occupied-cell count by one, and emptying a cell lowers it by one |
| Boards.SwapResidents | src/models/boards/player_board.py:78-86 | exchanging two cells keeps the same multiset of champions and the same occupied-cell count |
| Boards.MoveBackRestores | src/models/boards/player_board.py:78-86 | after `move(a, b)` cell b is occupied and `move(b, a)` restores the original board; cell a is then occupied exactly when b was, so a second `move(a, b)` is accepted (and restores the board) only after a swap, not after a relocation |
| Boards.EmptyGridUnoccupied | src/models/boards/player_board.py:21-23 | a board of empty cells has no champion on it |
| Boards.PlayerBoard.constructor | src/models/boards/player_board.py:21-23 | a new board has the given size, only empty cells and `num_champs` at 0, as assumed of the base-class constructor (see "Left out") |
| Boards.PlayerBoard.ChampCount | src/models/boards/player_board.py:31 | `len(self.champs)` is the number of occupied cells |
| Boards.PlayerBoard.AddChamp | src/models/boards/player_board.py:25-40 | an invalid position is refused with no change; an empty cell takes the champion exactly when fewer than max_champs cells are occupied; an occupied cell always takes it and hands back the evicted champion, with the occupied count unchanged; `num_champs` never changes |
| Boards.PlayerBoard.FindLastEmpty | src/models/boards/player_board.py:47-53 | the scan finds nothing exactly when no cell is empty, and otherwise the empty cell it visits last: smallest y, then largest x |
| Boards.PlayerBoard.AddChampFromCarousel | src/models/boards/player_board.py:42-58 | with an empty cell, the champion fills the last empty cell of the scan, whatever max_champs is, and `num_champs` goes up by one; with none, nothing changes; a counter in step with the cells stays in step |
| Boards.PlayerBoard.IsFull | src/models/boards/player_board.py:60-61 | while `num_champs` is in step with the cells, "full" means exactly that no fresh placement would be accepted |
| Boards.PlayerBoard.MoveChamp | src/models/boards/player_board.py:63-86 | the move succeeds exactly when both positions are valid and different and the start is occupied; it then exchanges the two cells (swap or relocation); the champions, the occupied count and `num_champs` are unchanged |
| Boards.PlayerBoard.RemoveChamp | src/models/boards/player_board.py:88-97 | an invalid or empty position gives nothing and changes nothing; otherwise only that cell is emptied, the former occupant comes back and `num_champs` drops by exactly one |
| Boards.CounterDrift | src/models/boards/player_board.py:29-34 | on a one-cell board, `add_champ` then `remove_champ` leaves every cell empty and `num_champs` at -1 |
| Boards.PlayerBoard.AddChampCounted | src/models/boards/player_board.py:29-34 | `add_champ` with the increment on a fresh placement keeps `num_champs` equal to the occupied-cell count |

## Left out

- `random.uniform` and float weights: each random value is an integer parameter and the weights are integers. `Pool.ChooseRandFromList` accepts any r, not just one in `[0, total]`, and the properties that need the range say so.
- `logging.error` (src/models/pool.py:38 and 47): no observable effect beyond the returned None.
- The constants `CHAMP_DROP_RATE`, `CHAMP_POOL_SIZE`, `BOARD_WIDTH` and `BOARD_HEIGHT`, and `player.max_champs`, are parameters. `Pool.Pool.Get` takes the drop-rate row of the player's level directly.
- `Champion` and `Champion.clone` are not part of this model. A champion is reduced to name, cost, level and id, and a clone is the catalog entry with the new id. The `player` argument of `clone` is left out.
- `ChampBoard` and `OffsetPoint` are not part of this model:
  - `get`, `set` and `is_hex_empty` are array reads and writes;
  - `is_position_valid` is assumed to be the bounds check 0 <= x < width and 0 <= y < height;
  - `len(self.champs)` is assumed to be the number of occupied cells;
  - `ChampBoard.__init__` (called at player_board.py:22) is assumed to leave every cell empty and to set `num_champs` to 0. `Boards.CounterDrift`'s value of -1 depends on both assumptions;
  - points compare by value;
  - `if champ`, `if not champ1` and `if new_pos` are assumed to be "is not None" tests.
- Pool.Pool.Get: the retry of line 53 draws from a finite list of random pairs. When the list runs out the answer is Retry with the pool untouched, where the source would recurse again. Termination of the source is not claimed. Each retry redraws the cost tier, so the source stops at the first draw that lands on a tier with copies left. When every tier the rates can pick is exhausted, it recurses until Python raises RecursionError, with the pool unchanged (`Pool.ExhaustedPoolNeverGets`).
- Pool.Pool.constructor: requires every catalog cost to have a pool size. Without one, `CHAMP_POOL_SIZE[champ.cost]` raises KeyError in the source too.
- Python exceptions: a KeyError is a returned outcome (`KeyError` from a draw, false from a put), not an unwinding. A draw that would raise after line 54 already mutated the pool keeps that mutation. Under `Valid()` every drawn name is in the catalog, so that case never arises.
- Aliasing: `name_to_counts` at line 42 is the inner dict itself. The model writes the updated tier back into the map, which has the same effect because inner dicts are never shared.
- The bench, player inventory, combination rules and cross-board conservation live in code outside this model. Only the pool-side accounting of `get` and `put` is covered.
- `src/models/game.py` (data loading, match-ups, round stub) is not part of this model.

## Findings

| source | as written | input that shows it | evidently intended | confidence | as-written member | corrected member |
|---|---|---|---|---|---|---|
| src/models/pool.py:24-28 | `cost_to_counts` starts empty and line 28 indexes `cost_to_counts[champ.cost]` before any inner dict exists, so it would raise KeyError. In the file as it stands, `Champion` is imported only for type checking (lines 8-9), so line 27 raises NameError first; either way the constructor fails | any non-empty catalog | create the tier's dict on first use and stock each champion with `CHAMP_POOL_SIZE[cost]` copies | high, not executed | Pool.InitAsWrittenRaises | Pool.Pool.constructor |
| src/models/pool.py:52-53 | a drawn champion with no copies makes `get` call itself again, with no bound | every tier the rates row can pick has all counts 0: `uniform(0, 0)` is 0, the walk picks index 0, its count is 0, and each retry does the same, until Python raises RecursionError with the pool unchanged | retry a bounded number of times, then report exhaustion with the pool unchanged | medium, not executed | Pool.ExhaustedPoolNeverGets | Pool.Pool.Get |
| src/models/boards/player_board.py:29-34 | a fresh placement by `add_champ` does not increment `num_champs`, while `remove_champ` (line 95) decrements it and `is_full` (line 61) reads it | an empty one-cell board: `add_champ` then `remove_champ` leaves `num_champs` at -1 with every cell empty | increment `num_champs` on a fresh placement, so that it always equals the occupied-cell count | medium, not executed | Boards.CounterDrift | Boards.PlayerBoard.AddChampCounted |
