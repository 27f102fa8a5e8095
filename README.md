# Block Blast engine in Dafny

This project models the puzzle engine of the Block Blast page
(`frontend/src/pages/BlockBlast.jsx`) and proves properties of it.

The game is played on an 8 x 8 board of 0/1 cells. The player receives a
draw of three pieces taken from a fixed catalog of 16 shapes. A piece may be
placed wherever all of its 1-cells land on free cells inside the board. A
placement earns 10 points per cell of the piece. Every full row and every
full column is then cleared. A placement that clears lines raises the combo
by the number of lines and earns `lines * 100 * (combo + 1)`, using the combo
from before the placement. A placement that clears nothing resets the combo
to 0. Once all three pieces are used, a new draw is made. Otherwise the round
is lost when no unused piece fits anywhere. A lost round earns
`floor(score / 100)` units of balance. The best score follows the score.

The drawer adapts to the board. The fuller the board, the more likely a tiny
piece and the less likely a medium one; for the same class roll a fuller board
never gets a larger pool (`FullerBoardSmallerClass`). Within one draw, a piece id is
repeated only when its whole pool has been drawn already.

Modules, one file each:

- `board.dfy` (`Board`): the grid, cell counting (`countFreeCells`), the
  placement validator (`canPlace`) and the stamping of a piece onto a copy of
  the grid.
- `catalog.dfy` (`Catalog`): the 16 catalog entries, the three size pools,
  and the well-formedness of every entry.
- `clear.dfy` (`Clear`): `clearLines`. It has three loops: full rows, full
  columns without repeating a cell, and zeroing. These are proved against the
  pure `Cleared` board.
- `scoring.dfy` (`Scoring`): the score and combo update, the earned balance,
  and the best score.
- `draw.dfy` (`Draw`): the fill bands, `pickAdaptivePiece` and `spawnPieces`.
- `terminal.dfy` (`Terminal`): `checkGameOver`.
- `round.dfy` (`Round`): one round of play. The React state is a `State`
  value. `Placement` and `Accepted` are the transition relation of
  `placePiece`. The `Round` class holds the same state in fields.
  `PlacePiece` and `Restart` are its methods.

How the model treats inputs and state:

- **Randomness.** `Math.random` is replaced by parameters. Each of the three
  picks takes a class roll and an index roll, both in [0, 1).
- **The fill value.** `fillPercent = 1 - free / 64` is an exact real. Every
  value it takes is a multiple of 1/64, so the band tests `> 0.7`, `> 0.5`
  and `> 0.3` mean at least 45, 33 and 20 occupied cells (`FillBands`).
- **Stored best.** The best score read from storage is a constructor
  parameter.
- **Grid copies.** The grid is a value. Where the source mutates a copy of
  the grid, the methods reassign a local sequence.

The three pools are named tiny, small and medium, which reads like a
partition by size, but they overlap. The small pool is `size <= 3` (1 to 3
cells), so the 1-cell piece, id 1, is in both the tiny and the small pool.
The medium pool is `size === 4`: id 4 and ids 7 to 16, eleven entries. The
model keeps the pools exactly as filtered (`Catalog.Pool`,
`TinyWithinSmall`), and `PoolSizes` proves their lengths: 1, 5 and 11.

`placePiece` itself does not check the piece's `used` flag or the game-over
flag. The page simply stops offering used pieces and covers the board when
the round is lost. The model keeps that behaviour: `PlacePiece` accepts any
index of the current draw.

## Model

| member | source | states |
|---|---|---|
| Board.EmptyGrid | frontend/src/pages/BlockBlast.jsx:36-38 | the initial board is 8 x 8 with every cell 0 |
| Board.CountFreeCells | frontend/src/pages/BlockBlast.jsx:78-86 | the loop counts exactly the 0-cells, and free plus occupied cells make 64 |
| Board.FreePlusOccupied | frontend/src/pages/BlockBlast.jsx:78-86 | on a 0/1 board, free cells plus occupied cells make 64 |
| Board.CanPlaceScan | frontend/src/pages/BlockBlast.jsx:150-162 | answers true exactly when every 1-cell of the mask lands inside the board on a cell that is not 1; it changes nothing |
| Board.SetCell | frontend/src/pages/BlockBlast.jsx:225 | writing one cell changes only that cell, and the occupied count moves by the old and new values of that cell |
| Board.StampCells | frontend/src/pages/BlockBlast.jsx:221-228 | after stamping, a cell under a 1-cell of the mask is 1 and every other cell keeps its value |
| Board.PlaceCells | frontend/src/pages/BlockBlast.jsx:221-231 | the cell-writing loop produces exactly the stamped board; on a validated anchor the occupied count grows by the mask's 1-count (pieceSize) |
| Catalog.Pool | frontend/src/pages/BlockBlast.jsx:30-32 | a piece is in a pool exactly when it is a catalog entry whose size matches the pool's filter |
| Catalog.TinyWithinSmall | frontend/src/pages/BlockBlast.jsx:30-31 | a 1-cell catalog entry is in the tiny pool and also in the small pool, so the pools overlap |
| Catalog.CatalogWellFormed | frontend/src/pages/BlockBlast.jsx:10-27 | every entry's size field equals the number of 1s in its mask and lies in 1..4; its mask has a 1 in the first row and a 1 in the first column |
| Catalog.PoolSizes | frontend/src/pages/BlockBlast.jsx:30-32 | the tiny, small and medium pools hold exactly 1, 5 and 11 catalog entries, the lengths the pick index ranges over |
| Catalog.PoolsNonEmpty | frontend/src/pages/BlockBlast.jsx:30-32 | no pool is empty, so the drawer can always pick |
| Clear.CollectFullRows | frontend/src/pages/BlockBlast.jsx:185-193 | the row loop counts the full rows and lists each cell of a full row once |
| Clear.CollectFullCols | frontend/src/pages/BlockBlast.jsx:195-205 | the column loop counts the full columns and adds their cells not already listed; the list is the union of all full lines, without repeats |
| Clear.ZeroCells | frontend/src/pages/BlockBlast.jsx:207-210 | zeroing the listed cells yields the cleared board and lowers the occupied count by the list's length |
| Clear.ClearedCells | frontend/src/pages/BlockBlast.jsx:207-210 | on the cleared board a cell on a full row or column is 0 and every other cell keeps its value |
| Clear.ClearLines | frontend/src/pages/BlockBlast.jsx:180-213 | linesCleared is full rows plus full columns; cellsToClear is exactly the cells on full lines, with no repeats, so it has 8R + 8C - RC entries; the new grid is the cleared board, with that many fewer occupied cells |
| Clear.NothingFullAfterClear | frontend/src/pages/BlockBlast.jsx:186-210 | after clearing, no row and no column is full |
| Clear.ClearIdempotent | frontend/src/pages/BlockBlast.jsx:180-213 | a second clearing finds no line and returns the same board |
| Clear.ClearWithoutLines | frontend/src/pages/BlockBlast.jsx:180-213 | a board without full lines comes back unchanged |
| Scoring.ScoreUpdate | frontend/src/pages/BlockBlast.jsx:243-254 | the score rises by at least 10 per piece cell; the combo is 0 exactly when no line cleared; a clearing placement raises the combo and earns at least 100 more |
| Scoring.StreakMultiplier | frontend/src/pages/BlockBlast.jsx:246-248 | after a clearing placement of l1 lines, the next placement's line bonus is paid at multiplier combo + l1 + 1 |
| Scoring.ResetMultiplier | frontend/src/pages/BlockBlast.jsx:252-254 | after a placement that clears nothing, the next line bonus is paid at multiplier 1 |
| Scoring.ScoreMonotone | frontend/src/pages/BlockBlast.jsx:243-256 | over any run of placements the score never falls and grows by at least 10 per cell placed |
| Scoring.Earned | frontend/src/pages/BlockBlast.jsx:68 | the earned balance is floor(score / 100) |
| Scoring.NewBest | frontend/src/pages/BlockBlast.jsx:58-63 | the best score becomes max(best, score) |
| Draw.FillPercent | frontend/src/pages/BlockBlast.jsx:91 | 64 times fillPercent is the occupied-cell count, and it lies in [0, 1] for a board of 64 cells |
| Draw.ChooseClass | frontend/src/pages/BlockBlast.jsx:93-116 | the tiny pool is chosen exactly when the roll is below the band's first cut (0.6, 0.3, 0.15, 0.1 from the fullest band down) and the medium pool exactly when it is at least the second cut (0.9, 0.7, 0.5, 0.35); in every band 0 < first cut < second cut < 1, so all three pools can be chosen |
| Draw.FillBands | frontend/src/pages/BlockBlast.jsx:90-111 | fill > 0.7, > 0.5 and > 0.3 hold exactly when at least 45, 33 and 20 cells are occupied |
| Draw.ClassByOccupiedAgrees | frontend/src/pages/BlockBlast.jsx:96-116 | the pool choice read from fillPercent equals the choice read from the occupied-cell count |
| Draw.FullerBoardSmallerClass | frontend/src/pages/BlockBlast.jsx:96-116 | for the same class roll, a fuller board never gets a pool of larger pieces |
| Draw.IndexOf | frontend/src/pages/BlockBlast.jsx:126 | Math.floor(roll * n) is a valid index for a roll in [0, 1) |
| Draw.NotYetUsed | frontend/src/pages/BlockBlast.jsx:119 | the available pieces are exactly the pool entries whose id is not among the used ids |
| Draw.PickAdaptivePiece | frontend/src/pages/BlockBlast.jsx:89-127 | the pick is a catalog piece of the pool chosen by the fill band and class roll; it repeats a used id only when every entry of that pool is used |
| Draw.SpawnPieces | frontend/src/pages/BlockBlast.jsx:130-141 | yields three unused entries; each is the pick made with the ids of the earlier entries excluded |
| Draw.DrawIsSound | frontend/src/pages/BlockBlast.jsx:130-139 | every entry of a draw is an unused piece of its chosen pool and repeats an earlier id only when that pool is exhausted |
| Draw.DrawDeterminedByRolls | frontend/src/pages/BlockBlast.jsx:130-139 | a board and the rolls determine the draw: two draws made from the same inputs are equal |
| Terminal.Unused | frontend/src/pages/BlockBlast.jsx:166 | the unused pieces are exactly the draw's entries whose used flag is false |
| Terminal.CheckGameOver | frontend/src/pages/BlockBlast.jsx:165-177 | answers true exactly when some piece is unused and no unused piece fits at any of the 64 anchors; a fully used draw is never game over |
| Terminal.CatalogAnchorInBounds | frontend/src/pages/BlockBlast.jsx:10-27 | a catalog piece can only fit at an anchor inside the board |
| Terminal.AnchorSearchComplete | frontend/src/pages/BlockBlast.jsx:169-175 | a catalog piece fits at some integer anchor exactly when it fits at one of the 64 anchors searched |
| Round.MarkUsed | frontend/src/pages/BlockBlast.jsx:261-263 | only the placed entry's used flag changes, to true |
| Round.AllUsed | frontend/src/pages/BlockBlast.jsx:267 | every entry of the draw is used exactly when no unused piece is left |
| Round.BalanceOnGameOver | frontend/src/pages/BlockBlast.jsx:66-75 | when the round has just ended and earns something, the recorded balance is floor(score / 100); otherwise it is unchanged |
| Round.PlaceAndScore | frontend/src/pages/BlockBlast.jsx:220-257 | the new board is the stamped board cleared, with no full line; the tally follows the score update for the piece's cell count and the lines of the stamped board; occupied cells change by pieceSize - (8R + 8C - RC) |
| Round.AfterPlacement | frontend/src/pages/BlockBlast.jsx:266-278 | when all pieces are used a new draw is made on the cleared board and the round goes on; otherwise the draw stays and game over is the game-over test; either way a piece is left to place |
| Round.PlaceAccepted | frontend/src/pages/BlockBlast.jsx:220-278 | an accepted placement moves the state as Accepted says and keeps the round invariant |
| Round.Place | frontend/src/pages/BlockBlast.jsx:216-278 | a placement is accepted exactly when canPlace holds; a rejected one changes nothing; the new state keeps the round invariant |
| Round.PlacementKeepsInv | frontend/src/pages/BlockBlast.jsx:216-278 | every state the transition relation allows satisfies the round invariant: a 0/1 board with no full line, three catalog pieces, best at least score, and a lost round has a piece left |
| Round.PlacementScore | frontend/src/pages/BlockBlast.jsx:231-243 | an accepted placement adds at least 10 points per cell of the piece, so at least 10 |
| Round.LostRoundStaysLost | frontend/src/pages/BlockBlast.jsx:66-75 | once the round is lost it stays lost, and the balance is not recorded again |
| Round.EmptyNoFullLine | frontend/src/pages/BlockBlast.jsx:36-38 | the initial board has no full line |
| Round.Round.constructor | frontend/src/pages/BlockBlast.jsx:36-52 | a fresh round: empty board, zero score and combo, not lost, stored best score, and the draw made on the empty board |
| Round.Round.Restart | frontend/src/pages/BlockBlast.jsx:378-384 | restart empties the board, zeroes score and combo, clears game over, and draws on the empty board; best score and recorded balance are kept |
| Round.Round.PlacePiece | frontend/src/pages/BlockBlast.jsx:216-282 | the fields move exactly as the placement relation says, and the round invariant is kept |

## Left out

- Pointer and drag handling, DOM hit-testing and preview (`BlockBlast.jsx:285-375`) are user-interface code.
- The rendering and the rules overlay are user-interface code.
- The clearing and combo animations are timers for display only.
- `navigator.vibrate` is device output.
- Reading and writing the high score in `localStorage` is storage I/O. The stored value is a constructor parameter.
- The `updateBalance` and `saveGameResult` calls are network I/O. The model records the balance value the page passes to them.
- The `key` field of a drawn piece (`Date.now() + Math.random()`) is a rendering key. It has no game meaning.
- The 100 ms delay before the redraw or game-over test runs is not modelled. `Round.Place` applies the rule at once.
- `spawnPieces` is re-run whenever the grid changes, because React memoises it on the grid and an effect calls it. Its closure also reads the grid of the render that created it. This is React scheduling, not a game rule. The model applies the rule stated in `placePiece` instead: a redraw happens only when all three pieces are used, on the cleared board. `Restart` draws on the empty board.
- Probabilities are not modelled. `Math.random` values are parameters, and the model does not state how likely each pool is.
- Double-precision arithmetic is modelled with exact reals and unbounded integers. The fill value is exact in binary. Scores stay far below 2^53.
- `Round.Round.PlacePiece` requires an index into the current draw. The source would fail on an undefined piece at any other index.
