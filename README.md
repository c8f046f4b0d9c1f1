# Bingo multiplayer: win detection and the client game store

This project is a Dafny model of the decision logic in a small multiplayer
Bingo game. It has two parts:

- **Win detection** (`bingo_logic.dfy`, module `BingoLogic`). The grid is 5×5,
  and cells are numbered row-major from 0 to 24. There are twelve fixed
  winning patterns: five rows, five columns and two diagonals.
  `CheckBingoLines` walks the pattern table with a mutable counter, as
  `checkBingoLines` does. It counts the patterns whose five cells all appear
  in the list of checked indices. It is proved against `LineCount`, a
  recursive count over the table. The lemmas then prove what the count
  means:
  - it equals the number of complete patterns;
  - it lies between 0 and 12;
  - the known cases hold (no cells gives 0, all cells give 12, the first
    row gives 1);
  - checking more cells never gives a smaller count;
  - only membership of cells 0..24 matters.
  The pattern table itself is shown to be the grid's rows, columns and
  diagonals.
- **The client game store** (`game_types.dfy`, module `GameTypes`, and
  `game_store.dfy`, module `GameStore`). The store is the record that the
  client keeps for one room. `GameTypes` holds the status enumeration, the
  player record and `Option` for the source's `null`. The class
  `GameStore.Store` has the store's fields and one method per action. Each
  method has a field-granular `modifies` clause, so that everything else
  provably stays the same.
  - A board is a sequence of optional numbers.
  - `FillCellBoard` gives what `fillCell` does to the board. `FillCells`
    applies it once per index in a list.
  - `FilledWith(b, k)` says that the filled cells hold exactly the numbers
    1..k, each once. It is stated as a multiset equality.
  - The lemmas show that `fillCell` keeps this invariant. They show that
    25 fills on distinct cells of the empty board give a permutation of
    1..25, after which every fill is a no-op. They also show that on a
    25-cell board the `nextNumber > 25` guard never decides the outcome.

Randomness is modelled as nondeterministic choice (`:|`). That covers the
player id from `Math.random().toString(36).substring(2, 9)` and the
random-comparator sort in `randomizeBoard`. The model promises only "some
id of at most seven base-36 digits" and "some permutation of 1..25".

Three choices follow the code rather than a looser reading of the game:

- The shuffle is not claimed to be uniform. The code sorts with a random
  comparator, which is not uniform, so the model states only that the
  result is a permutation.
- The fill refuses when the filled count plus one exceeds 25, not when 25
  values are placed. On a board longer than 25 cells, which `setBoard`
  accepts, the code therefore refuses even when an empty cell is left.
  `FillCellBoard` models the code. `FillCellGuardNeverDecides` shows that
  on 25-cell boards this guard never refuses a fill to an empty cell.
- The code's `setPlayerName` builds a player record without `created_at`.
  So `Player.createdAt` is an `Option`, and `None` there.

## Model

| member | source | states |
|---|---|---|
| `BingoLogic.CheckBingoLines` | src/lib/bingo-logic.ts:3-23 | The loop over the twelve patterns returns the number of patterns whose every index is in the input. That number equals the recursive count `LineCount`, equals the size of the set of complete pattern indices, and is at most 12. |
| `BingoLogic.PatternComplete` | src/lib/bingo-logic.ts:17 | Defining predicate: the `every`/`includes` test, true when every member of a pattern occurs in the checked list. Its consequences are stated by `LineCountMonotone` and `LineCountGridMembership`. |
| `BingoLogic.LineCount` | src/lib/bingo-logic.ts:3-23 | Defining function: the value `checkBingoLines` returns, a count over the table `WinPatterns`. `CheckBingoLines` is proved equal to it, and the `LineCount…` lemmas state what it means. |
| `BingoLogic.WinPatternsAreGridLines` | src/lib/bingo-logic.ts:7-14 | The constant table `WinPatterns` has 12 entries. Entries 0..4 are rows 0..4, entries 5..9 are columns 0..4, and entries 10 and 11 are the two diagonals of the row-major 5×5 grid. |
| `BingoLogic.PatternsWellFormed` | src/lib/bingo-logic.ts:9-13 | Every pattern has exactly 5 members, strictly increasing (so distinct), and every member is a grid cell 0..24. |
| `BingoLogic.CenterOnFourLines` | src/lib/bingo-logic.ts:9-13 | The centre cell 12 lies on exactly the patterns {2, 7, 10, 11}: its row, its column and both diagonals. That is four patterns. |
| `BingoLogic.LineCountIsCardinality` | src/lib/bingo-logic.ts:16-20 | The counter's result equals the number of winning patterns that are complete over the input. |
| `BingoLogic.LineCountBound` | src/lib/bingo-logic.ts:7-22 | For every input the result is between 0 and 12. |
| `BingoLogic.LineCountEmpty` | src/lib/bingo-logic.ts:16-22 | The empty list completes no pattern, so the result is 0. |
| `BingoLogic.LineCountAllCells` | src/lib/bingo-logic.ts:7-20 | Any list that contains every index 0..24 gives exactly 12. |
| `BingoLogic.LineCountFullGrid` | src/lib/bingo-logic.ts:7-20 | The list 0, 1, ..., 24 gives exactly 12. |
| `BingoLogic.LineCountFirstRow` | src/lib/bingo-logic.ts:9-20 | The list [0, 1, 2, 3, 4] gives exactly 1, because only the first row is complete. |
| `BingoLogic.LineCountMonotone` | src/lib/bingo-logic.ts:16-20 | If every entry of list A is also in list B, the result for A is at most the result for B. |
| `BingoLogic.LineCountGridMembership` | src/lib/bingo-logic.ts:9-17 | Two lists that contain the same cells among 0..24 give the same result, whatever else they contain. |
| `BingoLogic.LineCountOrderIndependent` | src/lib/bingo-logic.ts:17 | Two lists with the same members give the same result. So reordering or duplicating entries never changes the count. |
| `BingoLogic.LineCountIgnoresOutside` | src/lib/bingo-logic.ts:9-17 | Adding an index outside 0..24, at either end of the list, never changes the result. |
| `GameStore.EmptyBoard` | src/store/useGameStore.ts:33 | Defining function: `Array(25).fill(null)`, also used by `resetGame` (line 98). `EmptyBoardHoldsNothing` states its meaning. |
| `GameStore.FilledCount` | src/store/useGameStore.ts:65-66 | Defining function: the `filter(...).length` count of filled cells. `FilledCountBound` and `FilledWithCount` state its meaning. |
| `GameStore.FillCellBoard` | src/store/useGameStore.ts:62-74 | Defining function: what `fillCell(index)` does to the board. `Store.FillCell` is proved to compute it; `FillCellSequential`, `FillCellKeepsSetup` and `FillCellGuardNeverDecides` state its meaning. |
| `GameStore.FillCells` | src/store/useGameStore.ts:62-74 | Defining function: `fillCell` applied once per index of a list, in order. `FillCellsLength`, `FillCellsSequential` and `FillAllCells` state its meaning. |
| `GameStore.IsGeneratedId` | src/store/useGameStore.ts:40 | Defining predicate: a string of at most 7 base-36 digits, as `Math.random().toString(36).substring(2, 9)` yields. `Store.SetPlayerName` promises the new id satisfies it. |
| `GameStore.FilledCountBound` | src/store/useGameStore.ts:65-66 | The number of filled cells is at most the board length. It equals the length exactly when no cell is empty. |
| `GameStore.FilledValuesAfterFill` | src/store/useGameStore.ts:65-71 | Writing `x` into an empty cell adds exactly one `x` to the multiset of filled values and nothing else. |
| `GameStore.EmptyBoardHoldsNothing` | src/store/useGameStore.ts:33 | The initial board has 25 cells, all empty, with filled count 0. It holds exactly the numbers 1..0, that is none. |
| `GameStore.FillCellSequential` | src/store/useGameStore.ts:62-74 | Take a board holding exactly 1..k. If the index is on the board, the cell is empty and k < 25, then `fillCell` writes k + 1 into that cell only, and the board then holds exactly 1..k+1. In every other case the board is unchanged. The length is always kept. |
| `GameStore.FillCellKeepsSetup` | src/store/useGameStore.ts:62-74 | `fillCell` preserves the invariant "25 cells whose filled numbers are exactly 1..k, where k is the filled count". |
| `GameStore.FillCellGuardNeverDecides` | src/store/useGameStore.ts:63-68 | On a 25-cell board, an empty cell means fewer than 25 are filled. So the `nextNumber > 25` guard never refuses a fill that the occupied check lets through. |
| `GameStore.FillCellsSequential` | src/store/useGameStore.ts:62-74 | Start from a 25-cell board holding exactly 1..k. Fill n distinct empty cells in turn. The board then holds exactly 1..k+n. |
| `GameStore.FillCellsLength` | src/store/useGameStore.ts:70-73 | Any sequence of `fillCell` calls keeps the board length. |
| `GameStore.FillAllCells` | src/store/useGameStore.ts:62-74 | From the all-empty board, 25 `fillCell` calls on distinct indices 0..24 give a full board: 25 filled cells holding a permutation of 1..25. Every further `fillCell`, on any index, leaves it unchanged. |
| `GameStore.FullBoardIsPermutation` | src/store/useGameStore.ts:77-79 | A full board has no repeats, since its cells are pairwise different. It has no gaps, since every number 1..25 is in some cell. |
| `GameStore.Store.constructor` | src/store/useGameStore.ts:27-34 | The initial store has no room, status LOBBY, no players, no turn, no picks, no winner and no local id. Its board is the 25-cell all-empty board, which satisfies the board invariant with count 0. |
| `GameStore.Store.SetPlayerName` | src/store/useGameStore.ts:39-53 | The local id becomes some generated id of at most 7 base-36 digits. The player list becomes one player with that id and the given name, not host, not ready, with an empty board, no checked cells and no creation time. Nothing else changes. |
| `GameStore.Store.SetRoomId` | src/store/useGameStore.ts:55 | Sets the room id and changes nothing else. |
| `GameStore.Store.SetGameStatus` | src/store/useGameStore.ts:57 | Sets the status and changes nothing else. |
| `GameStore.Store.SetBoard` | src/store/useGameStore.ts:59 | Replaces the board with the given one, of any length and content, and changes nothing else. |
| `GameStore.Store.FillCell` | src/store/useGameStore.ts:62-74 | The new board is `FillCellBoard` of the old one. An off-board index, an occupied cell, or a next number above 25 leaves it unchanged. Otherwise only that cell changes, to the old filled count + 1. The length is kept, the board invariant is preserved, and no other field changes. |
| `GameStore.Store.RandomizeBoard` | src/store/useGameStore.ts:76-80 | The board becomes some full board, a permutation of 1..25 in 25 cells, which satisfies the board invariant. No other field changes. |
| `GameStore.Store.SetNumbersPicked` | src/store/useGameStore.ts:85 | Sets the picked numbers and changes nothing else. |
| `GameStore.Store.UpdatePlayers` | src/store/useGameStore.ts:88 | Sets the player list and changes nothing else. |
| `GameStore.Store.SetWinner` | src/store/useGameStore.ts:90 | Sets the winner to the given id and the status to FINISHED. Nothing else changes. |
| `GameStore.Store.ResetGame` | src/store/useGameStore.ts:93-99 | Status becomes LOBBY, picks empty, winner and turn absent, board the all-empty 25-cell board, so the board invariant holds with count 0. Room, players and local id are unchanged. |

## Left out

- The lobby page (src/app/page.tsx) is not part of this model. Its database
  inserts and selects, navigation, alerts and loading flags are I/O and UI.
  Its call to `setPlayerInfo` names an action that the store does not
  define.
- The room page (src/app/room/[id]/page.tsx) is not part of this model. Its
  realtime subscriptions, the reads and writes of its ready check, its
  PLAYING write and its win write are I/O against the hosted backend. Its
  derivation of the checked indices from the board and the picked numbers
  (lines 21-26) and its `>= 5` win guard (line 81) are pure, but they belong
  to the page, not to the store or the win detector.
- Turn sequencing, pick validation and any roster-size rule for starting a
  game do not appear in the store or the win detector, so they are not
  modelled.
- The countdown component (src/components/game/Timer.tsx) is left out as a
  timing concern. Its only state is a `timeLeft` countdown that a
  `setInterval` lowers by one each second, calling `onTimeUp` at 0.
- The store library's `create`/`set` machinery, reactivity and subscribers
  are left out. Only the resulting field updates are modelled.
- Uniformity of the random id and of the shuffle is left out. Only "some
  id" and "some permutation" are stated.
- JavaScript number semantics are left out. Indices and cell values are
  Dafny integers. A non-integer or NaN index, which reads `undefined` and
  so leaves the store unchanged in the source, is not representable.
