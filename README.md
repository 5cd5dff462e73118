# Connect-k board rules in Dafny

This project models the rule engine of a two-player connect-k game
("k in a row", Gomoku style) on a fixed M x N grid: the C# class `Board`
of namespace `BoardGame`. The model is the class `BoardGame.Board` in
`Board.dfy`, over the same state as the original:

- `board: array2<int>`, updated in place: 0 for an empty cell, 1 for a stone
  of player 1 (`true`) and 2 for a stone of player 2 (`false`);
- `k`, the number of stones in a row that wins, fixed at construction;
- the flags `w1` and `w2` (player 1 / player 2 has won) and `done` (the game
  has ended);
- the constants `p1 = true` and `p2 = false`.

`Mark` checks a move in the original's order: position on the grid, then
board not full, then cell empty. It writes the stone and runs the win check.
The win check (`Victory`, `Traverse`) walks back from the new stone to the
start of its run along one of four orientations, then counts the run forward.
The model proves `Traverse` against a recursive specification: `Reach` counts
consecutive marked cells from a cell in one direction, and `RunLen` is the
length of the maximal run of marked cells through a cell. The lemmas then
show that `RunLen` is exactly the longest line of consecutive marked cells
through the cell. So the mover's flag after `Mark` is true exactly when such
a line of at least k cells exists (`WinningRunIffLine`).

`Board.dfy` states the behaviour of the code as written, including these
points:

- The run counts the stones of both players. `Traverse` receives the mover
  but only asks whether a cell is marked. The source's own comments speak of
  a streak of one player ("Checks if player 1 has a k-in-a-row streak",
  Assets/Board.cs:143; "for a specific player", Assets/Board.cs:164); the
  model follows the code.
- `Mark` does not refuse a move after a win. Only a full board makes it fail
  with `done` set. Nothing refuses a move after a win, so both `w1` and `w2`
  can be true at once (`MixedOwnerRuns`).
- Every accepted move overwrites the mover's flag. `done` is only ever set by
  `Mark`, and only `Unmark` clears it.
- `Unmark` clears both win flags and `done` whichever stone it removes
  (`UnmarkForgetsStandingRun`).

The object invariant `Valid()` holds in every state the operations produce:
every cell holds 0, 1 or 2, a recorded win comes with `done` set, and a
recorded win comes with a run of at least k marked cells somewhere on the
board. `Mark` keeps the last part because placing a stone never shortens a
run (`SomeWinningRunPersists`). Two consequences follow. A full grid without
such a run reports neither winner (`DrawReportsNoWinner`). With k above both
grid dimensions no run can win at all (`RunLenBound`, `UnwinnableBoard`).

`P1Win` and `P2Win` read `w1` and `w2`. The contracts of `Mark` and `Unmark`
say what those flags hold after every move.

`Scenarios.dfy` (module `BoardScenarios`) plays short games through the
public contracts alone. One is the 15 x 15, k = 5 board that the game's front
end creates (Assets/BoardManager.cs:61).

## Model

| member | source | states |
|---|---|---|
| `BoardGame.Board.constructor` | Assets/Board.cs:24-33 | a fresh M x N grid of zeros, `k` stored, `w1`, `w2` and `done` false, invariant established |
| `BoardGame.Board.Player` | Assets/Board.cs:36-41 | the next player is the other one: `Player(b) == !b`, so applying it twice gives `b` back |
| `BoardGame.Board.P1Win` | Assets/Board.cs:50 | returns player 1's win flag; under the invariant a reported win means the game has ended and a run of at least k marked cells is on the board |
| `BoardGame.Board.P2Win` | Assets/Board.cs:51 | returns player 2's win flag, with the same guarantee |
| `BoardGame.Board.GameOver` | Assets/Board.cs:44-47 | the game is over exactly when `done` is set or every cell holds a stone |
| `BoardGame.Board.Mark` | Assets/Board.cs:56-92 | succeeds iff the cell is on the grid, the board was not full and the cell was empty; off-grid and occupied cells change nothing; a full board changes no cell but sets `done`; on success exactly cell (x, y) gets 1 or 2, the mover's flag becomes "some line through (x, y) has a run of at least k", the other flag is kept, `done` is never cleared and the invariant `Valid()` is kept |
| `BoardGame.Board.IsMarked` | Assets/Board.cs:95-106 | off-grid coordinates are never marked; an on-grid cell is marked iff it is nonzero |
| `BoardGame.Board.IsFull` | Assets/Board.cs:109-129 | the nested scan returns true iff every cell of the grid is nonzero |
| `BoardGame.Board.Victory` | Assets/Board.cs:133-162 | the result is "some orientation has a run of at least k through (x, y)"; it is stored in the mover's flag, the other flag is kept, and `done` is set when the result is true |
| `BoardGame.Board.AnyOrientation` | Assets/Board.cs:146-150 | the short-circuit chain of the four scans (horizontal, vertical, both diagonals) finds a run of at least k iff one exists in some orientation |
| `BoardGame.Board.Traverse` | Assets/Board.cs:165-224 | the result and `done` say whether the maximal run through (x, y) reaches k; no cell is written (loop facts checked in the body) |
| `BoardGame.Board.Unmark` | Assets/Board.cs:229-234 | cell (x, y) becomes 0, every other cell is kept, and `w1`, `w2` and `done` all become false |
| `BoardGame.Board.ReachMarked` | Assets/Board.cs:202-215 | every cell counted by a scan from (x, y) in one direction is marked |
| `BoardGame.Board.ReachStops` | Assets/Board.cs:181-194 | a scan stops on the first unmarked or off-grid cell in its direction |
| `BoardGame.Board.ReachCovers` | Assets/Board.cs:202-215 | n marked cells in a row from (x, y) are all counted by the scan |
| `BoardGame.Board.RunLenIsMaximal` | Assets/Board.cs:176-215 | the run length through a marked cell is the length of a line of marked cells through it that is closed by an unmarked or off-grid cell at both ends |
| `BoardGame.Board.RunLenCoversSegment` | Assets/Board.cs:176-215 | no line of marked cells through (x, y) is longer than the run length |
| `BoardGame.Board.RunWinsIffSegment` | Assets/Board.cs:217-223 | along one orientation the check succeeds iff some k consecutive marked cells include (x, y): a run of exactly k wins, a maximal run of k - 1 does not |
| `BoardGame.Board.WinningRunIffLine` | Assets/Board.cs:143-161 | the win check on a new stone succeeds iff some horizontal, vertical or diagonal line through it holds k consecutive marked cells |
| `BoardGame.Board.SomeWinningRunPersists` | Assets/Board.cs:79-91 | when a move only adds stones, a run of at least k cells on the board before the move is still one after it, so a recorded win keeps its witness |
| `BoardGame.Board.ReachBound` | Assets/Board.cs:181-215 | a scan from a marked cell counts no more cells than lie between it and the edge of the grid in its direction |
| `BoardGame.Board.RunLenBound` | Assets/Board.cs:176-215 | a horizontal run is at most N cells long and any other run at most M, because the scan limits stop it at the grid edges |
| `BoardGame.Board.UnwinnableBoard` | Assets/Board.cs:133-161 | if k exceeds both grid dimensions, no cell has a winning run and neither win flag can be set |
| `BoardGame.Board.DrawReportsNoWinner` | Assets/Board.cs:50-51 | on a full grid with no run of k marked cells, neither `P1Win` nor `P2Win` reports a win |
| `BoardScenarios.FiveInARow` | Assets/Board.cs:79-91 | on a 15 x 15 board with k = 5, four stones of player 1 at (7, 7) .. (7, 10) do not win and the fifth at (7, 11) does, ending the game |
| `BoardScenarios.MixedOwnerRuns` | Assets/Board.cs:181-215 | a run mixing both players' stones wins for the mover, a move after a win is accepted, and both win flags can be set at once |
| `BoardScenarios.UnmarkForgetsStandingRun` | Assets/Board.cs:229-234 | removing a stone that is not part of the winning run still clears every flag while the winning line remains on the board |

## Left out

- The console message printed by `Mark` for an off-grid position (Assets/Board.cs:64) is output only and is dropped.
- Traverse: requires its scan limits to be one of the four tuples that `Victory` passes (`IsScanFrame`), with (x, y) marked. The method is private and has no other callers; its behaviour under other limits is not modelled.
- Unmark: requires an on-grid position, because the original indexes the array without a check and throws off the grid.
- BoardGame.Board.constructor: takes `nat` dimensions, because the original array allocation throws on negative sizes.
- `Victory` evaluates the same four-scan chain twice in the original, once per player; the model factors it into `AnyOrientation`.
- Integer width: coordinates, counts and `k` are unbounded integers. Every value the original computes stays within a grid dimension plus one, so 32-bit overflow cannot occur.
- The computer opponent (minimax search with alpha-beta pruning and best-move selection) is not part of this model. No such code exists in `Board.cs`.
- The Unity front end (Assets/BoardManager.cs, Assets/BoardSelector.cs) is not part of this model. It covers piece rendering, mouse input, the display-to-grid offset, scene switching and stored preferences.
