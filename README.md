# Line 98 engine in Dafny

A model of the game engine of a Line 98 puzzle, with proofs. The board is 9×9, and balls come in five colours. Each turn spawns three balls. A ball moves along a shortest route of empty cells. A run of five or more balls of one colour in a row, a column or a diagonal is cleared and scored, one point per cleared cell. An undo history keeps the last ten snapshots.

The repository holds the engine twice, and both copies are modelled:

- the hook version, split over the grid, scoring, history, balls and game-state hooks;
- the older all-in-one component, which is the version the page mounts.

Module layout:

| file | module | source |
|---|---|---|
| `types.dfy` | `Types` | the shared types: positions, balls, preview markers, the live grid and its value view |
| `grid.dfy` | `GridOps` | `hooks/use-grid.ts` |
| `scoring.dfy` | `Scoring` | `hooks/use-scoring.ts` |
| `history.dfy` | `History` | `hooks/use-game-history.ts` |
| `balls.dfy` | `Balls` | `hooks/use-balls.ts` |
| `game_state.dfy` | `GameStates` | `hooks/use-game-state.ts` |
| `line98_game.dfy` | `Line98Monolith` | `components/line98-game.tsx` |

How the source's mechanics are represented:

- **Live grid.** The live grid is one mutable `array2<Option<Ball>>`. The source copies rows with `[...row]`, which shares the Cell objects, so every "copy" of the grid in the source is this same array in the model. Writing `cell.ball` in place is an array update.
- **Board.** `Types.Cells` reads a grid as a `Board`, a map from occupied positions to balls. The JSON deep copies kept in the history are such values.
- **Randomness.** Each `Math.random()` pick is a nondeterministic choice within range (`:|`, or a caller-supplied roll).
- **Timers.** Each `setTimeout` callback becomes an entry in a `pending` queue. It runs when the environment fires it, in any order. `FirePending` and `FireTimer` run the callbacks as the source has them, including the after-move check as written. `FirePendingIntended` and `FireTimerIntended` run the corrected check instead (see Findings).
- **Undo.** Both classes restore a snapshot into a fresh grid, which is the corrected behaviour. The source's restore, which makes the live grid share its cells with the history entry, is modelled on boards by `GameStates.SharedBoards` and its functions (see Findings).
- **Ball animation.** The ball-movement effect is one explicit step per call (`AdvanceMovingBall`).
- **React state.** The setters are field assignments. Where a closure sees stale state, the model follows the closure:
  - `initializeGame` spawns with the pre-reset score, colours, counter and markers;
  - the line check after a move snapshots the score from before the clear.

## Model

| member | source | states |
|---|---|---|
| `Types.Cells` | types/game.ts:1-26 | The value view of a grid holds exactly the occupied cells, each with its ball, all on the board. |
| `Types.Positions` | hooks/use-game-state.ts:200 | The positions of the preview markers, one per marker and in the markers' order. |
| `Types.PutBall` | hooks/use-game-state.ts:91-98 | Writing a ball to a cell changes that cell of the board and no other. |
| `Types.GridOf` | hooks/use-game-state.ts:318 | A fresh grid that holds exactly a given board. This is the corrected undo restore; the source hands over the history entry's own grid instead (see Findings). |
| `GridOps.InitializeGrid` | hooks/use-grid.ts:12-25 | A fresh 9×9 grid with no ball anywhere; its board is empty. |
| `GridOps.GetEmptyCells` | hooks/use-grid.ts:27-39 | Lists exactly the cells without a ball, in strict row-major order (so each once); the count is 81 minus the number of balls. |
| `GridOps.Directions` | hooks/use-grid.ts:68-73 | Exactly the four orthogonal neighbours of a cell, listed up, down, left, right. |
| `GridOps.ExpansionEntries` | hooks/use-grid.ts:75-90 | An expansion queues only free, unvisited neighbours, each with the route extended by the expanded cell, and it queues every such neighbour. |
| `GridOps.QueueNeighbours` | hooks/use-grid.ts:75-90 | Appends to the old queue exactly the expansion of the current cell: one entry per neighbour that is on the board, empty and unvisited, in the order up, down, left, right, each with the route extended by the current cell. |
| `GridOps.SearchAfterSkip` | hooks/use-grid.ts:63-65 | Dropping an already visited head keeps the search invariant (routes valid, queue layered by length, frontier closed). |
| `GridOps.SearchAfterVisit` | hooks/use-grid.ts:55-90 | Visiting the head and queueing its free neighbours keeps the search invariant, and the visited set grows by one cell of the board, so the search ends. |
| `GridOps.ShortRouteIsVisited` | hooks/use-grid.ts:54-96 | Every route shorter than all queued entries ends in a visited cell reached no sooner by the search: the completeness and minimality argument of the FIFO queue. |
| `GridOps.FindPath` | hooks/use-grid.ts:41-97 | An occupied destination gives no route, even when it is reachable. Otherwise it gives a route exactly when one exists. The route starts and ends at the two cells, takes orthogonal unit steps and crosses only empty cells after the start. No other route is shorter. The grid is only read. |
| `Scoring.LineCollectSound` | hooks/use-scoring.ts:53-181 | Every cell a scan collects from a line lies in five same-coloured balls along that line. |
| `Scoring.PushRun` | hooks/use-scoring.ts:66-68 | Appends the cells of one run, in line order, to what was collected. |
| `Scoring.ScanLineRuns` | hooks/use-scoring.ts:55-81 | The row and column walk with colour, count and run start appends exactly the cells of the line that lie in a run of five or more, in line order. |
| `Scoring.ScanLinePositions` | hooks/use-scoring.ts:120-145 | The diagonal walk, which gathers the run's cells as it goes, appends exactly the same cells. |
| `Scoring.CheckHorizontalLines` | hooks/use-scoring.ts:53-83 | Keeps what was collected and adds exactly the cells in a horizontal run of five or more; a run of four adds nothing. |
| `Scoring.CheckVerticalLines` | hooks/use-scoring.ts:85-115 | As above, for vertical runs. |
| `Scoring.CheckDiagonalLinesTopLeftToBottomRight` | hooks/use-scoring.ts:117-148 | The ↘ scans starting at rows and columns 0..4 add exactly the cells in a ↘ run of five or more: every such diagonal is covered. |
| `Scoring.CheckDiagonalLinesTopRightToBottomLeft` | hooks/use-scoring.ts:150-181 | The ↙ scans starting at rows 0..4 and columns 4..8 add exactly the cells in a ↙ run of five or more. |
| `Scoring.ClearCollected` | hooks/use-scoring.ts:30-40 | Empties exactly the listed cells, and counts the distinct listed cells that held a ball. |
| `Scoring.RemoveLines` | hooks/use-scoring.ts:13-51 | Clears exactly the union of qualifying runs in the four directions and keeps every other ball. The score grows by the number of distinct cleared cells. The sound flag is set exactly when something was cleared. |
| `Scoring.ClearIdempotent` | hooks/use-scoring.ts:13-51 | After a clear, a second clear finds nothing, since removing balls cannot lengthen a run. |
| `Scoring.InLineShrinks` | hooks/use-scoring.ts:37 | A run of five on a board with cells removed was already a run of five before. |
| `History.SaveStateToHistory` | hooks/use-game-history.ts:12-18 | The new length is min(old + 1, 10). The saved state is last. What is kept before it is the newest part of the old history, in order. |
| `History.SaveBelowCapacity` | hooks/use-game-history.ts:15 | Below capacity, a save only appends. |
| `History.SaveAtCapacity` | hooks/use-game-history.ts:15 | At capacity, a save drops exactly the oldest entry and appends. |
| `History.CanUndo` | hooks/use-game-history.ts:20-22 | Undo is allowed only with no ball in flight and a snapshot before the newest one to restore. |
| `History.UndoAfterTurn` | hooks/use-game-history.ts:20-22 | After two saves with no ball moving, undo is allowed, and the entry before the last is the first of the two saved states. |
| `History.SaveIsNewest` | hooks/use-game-history.ts:15 | A save keeps the newest ten of the old history followed by the new state. |
| `History.NewestAbsorbs` | hooks/use-game-history.ts:15 | Trimming to the newest ten before appending gives the same newest ten as trimming after. |
| `History.SaveAllKeepsNewest` | hooks/use-game-history.ts:12-18 | After any number of saves, the history is the newest ten of everything saved, in saving order (first in, first out). |
| `History.SecondUndoRestoresSaved` | hooks/use-game-state.ts:309-331 | With snapshots kept as values: after an undo and a turn that saves two snapshots, two undos are allowed and restore the turn's first snapshot and then the state the first undo restored. |
| `Balls.GenerateRandomColors` | hooks/use-balls.ts:20-24 | Exactly `count` colours; colour i is the entry of the colour table that roll i picks. |
| `Balls.EveryDrawPossible` | hooks/use-balls.ts:20-24 | Every sequence of colours is the outcome of some draw. |
| `Balls.SpliceOut` | hooks/use-balls.ts:43-51 | Removing the drawn cell leaves the other cells, still distinct and one fewer. |
| `Balls.GenerateNextBallPositions` | hooks/use-balls.ts:26-55 | Gives no markers when there are fewer empty cells than colours. Otherwise it gives one marker per colour, and marker i carries colour i. The marker cells are distinct and were empty. |
| `Balls.StartBallMovement` | hooks/use-balls.ts:57-75 | An empty source changes nothing. Otherwise the source is emptied and the same ball flies from step 0 along `[from] + path`. A route that already begins at `from` makes the first two steps equal. |
| `Balls.Unclaimed` | hooks/use-balls.ts:85-93 | The empty cells that are neither excluded nor a marker's position. |
| `Balls.FindNewRandomPosition` | hooks/use-balls.ts:78-100 | None exactly when no empty cell lies off the excluded cells and off all markers. Otherwise it gives such a cell. |
| `GameStates.Place` | hooks/use-game-state.ts:213-231 | The board after the placing loop's writes, in order; a later write to a cell replaces an earlier one. Its properties are the four lemmas below. |
| `GameStates.PlaceKeys` | hooks/use-game-state.ts:213-231 | The occupied cells after the placing loop are those occupied before plus every cell written. |
| `GameStates.PlaceSnoc` | hooks/use-game-state.ts:213-231 | Placing one more ball writes ball base+i of colour i on the next cell. |
| `GameStates.PlaceFrame` | hooks/use-game-state.ts:213-231 | Placing balls touches only the chosen cells. |
| `GameStates.PlaceDistinct` | hooks/use-game-state.ts:213-231 | On distinct cells, the cell chosen i-th holds ball base+i of colour i. |
| `GameStates.PlaceCount` | hooks/use-game-state.ts:213-231 | On distinct empty cells, the board grows by one ball per colour. |
| `GameStates.TrustedPreviewOverwrites` | hooks/use-game-state.ts:216-218 | A preview cell is not re-checked: a ball already there is replaced, and the ball count does not grow. |
| `GameStates.DrawStep` | hooks/use-game-state.ts:219-224 | Drawing a cell from the remaining empty cells and splicing it out keeps the drawn cells distinct and empty. |
| `GameStates.PlaceBalls` | hooks/use-game-state.ts:199-231 | With one preview position per colour, uses exactly those positions. Otherwise it draws distinct cells that were empty. Each time, ball base+i of colour i lands on the i-th cell. |
| `GameStates.SaveKeepsSnapshotsOk` | hooks/use-game-state.ts:189-197 | Saving a well-formed snapshot keeps every snapshot in the history well-formed. |
| `GameStates.GeneratedIsPreview` | hooks/use-game-state.ts:237-239 | The preview made after a spawn fits the new board and the new colours. |
| `GameStates.SpawnAddsBalls` | hooks/use-game-state.ts:213-235 | A spawn adds one ball per colour, with ids from the counter on, and keeps every ball already there. |
| `GameStates.Spawn` | hooks/use-game-state.ts:188-240 | When empty cells are fewer than colours: game over and nothing else. Otherwise balls are placed, the counter advances by the number of colours, and a fresh preview is made. The score is unchanged. |
| `GameStates.AffectedMarker` | hooks/use-game-state.ts:116-124 | The first marker on the current or the next cell of the route, or −1 when there is none. |
| `GameStates.Relocate` | hooks/use-game-state.ts:127-145 | The marker stays exactly when no empty cell lies off the route and off all markers. Otherwise only that marker moves, to such a cell, and keeps its colour. |
| `GameStates.RelocateProgress` | hooks/use-game-state.ts:127-145 | A relocation keeps the markers distinct and on the board, and strictly fewer markers sit on the route (so the step effect cannot re-run for ever). |
| `GameStates.FlightStep` | hooks/use-game-state.ts:114-158 | One step of a flight short of its end either moves a marker off the route, without advancing, or advances the ball one cell. It advances only when no marker is in the way or none can move. |
| `GameStates.ClearChangesBoard` | hooks/use-game-state.ts:101-110 | A clear changes the board exactly when some run qualifies. |
| `GameStates.FiveRed` | hooks/use-game-state.ts:101-110 | A board with five red balls in the top row. |
| `GameStates.FiveInARowClears` | hooks/use-game-state.ts:101-110 | On that board the clear is not empty. |
| `GameStates.SaveShared` | hooks/use-game-state.ts:190-197 | As written, a save appends a deep copy of the live board, drops the oldest entry at capacity, and keeps the shared entry shared unless it is dropped. |
| `GameStates.SaveSharedSeen` | hooks/use-game-history.ts:12-18 | Sharing never changes a save: saving and then looking at the entries equals looking and then saving. |
| `GameStates.UndoShared` | hooks/use-game-state.ts:309-331 | Undo as written: the newest entry is dropped, the live board becomes the board of the entry before it, and that entry shares the live grid from then on. Right after the undo the entries hold what they held, minus the newest. |
| `GameStates.Unshare` | hooks/use-game-state.ts:242-251 | The after-spawn line check installs a copy with new cells, which ends the sharing: no entry is shared afterwards, and every entry keeps what it held, whatever the live grid holds next (also components/line98-game.tsx:190-199). |
| `GameStates.SecondUndoAsWritten` | hooks/use-game-state.ts:318 | As written, after an undo and a full turn, a second undo restores the board from before the first undo (p), not the saved one (a). |
| `GameStates.NewGame` | hooks/use-game-state.ts:161-186 | A fresh grid with exactly three balls of three fresh colours, placed as a spawn from an empty board, and a preview that fits it. |
| `GameStates.TryMove` | hooks/use-game-state.ts:283-302 | With no route nothing changes. With a route, it is a shortest one, and the ball (if any) leaves its cell and starts flying along `[from] + route`. |
| `GameStates.Game.Snapshot` | hooks/use-game-state.ts:189-197 | The deep copy of the state a snapshot records. |
| `GameStates.Game.constructor` | hooks/use-game-state.ts:14-36 | The state before the first start: an empty board, score 0, no markers, no history, nothing moving or selected. |
| `GameStates.Game.AddNewBalls` | hooks/use-game-state.ts:188-255 | Saves a snapshot first, then spawns as `Spawn` does. The line check is scheduled only when the game is not over. |
| `GameStates.Game.InitializeGame` | hooks/use-game-state.ts:161-186 | The board holds the three balls of a spawn from an empty board. The score is 0, the counter 3 and the game not over. Nothing is selected or moving. The history is the one stale snapshot the nested spawn saved. |
| `GameStates.Game.AdvanceMovingBall` | hooks/use-game-state.ts:82-159 | At the last step: the ball is written on the final cell with its id and colour, nothing is moving, and the line check is scheduled. Before that: `FlightStep`'s marker relocation or one-cell advance. |
| `GameStates.Game.CheckLinesAfterMoveAsWritten` | hooks/use-game-state.ts:101-110 | The check after landing, as written: the qualifying runs are cleared and scored, and a spawn follows whether or not anything was cleared. |
| `GameStates.Game.CheckLinesAfterMove` | hooks/use-game-state.ts:101-110 | The check after landing, as intended: a spawn follows exactly when nothing was cleared. Otherwise only the clear and the score change. |
| `GameStates.Game.CheckLinesAfterSpawn` | hooks/use-game-state.ts:241-253 | Clears and scores the runs the new balls complete; nothing else changes. |
| `GameStates.Game.FirePending` | hooks/use-game-state.ts:101-110 | Firing one callback as the source does removes it from the queue. After a landing, the lines are cleared and scored and a spawn follows whether or not anything was cleared. After a spawn, the lines are cleared and scored and nothing else changes. |
| `GameStates.Game.FirePendingIntended` | hooks/use-game-state.ts:101-110 | Firing one callback in the corrected game: a spawn follows a landing exactly when nothing was cleared. Otherwise only the clear and the score change. |
| `GameStates.Game.Unschedule` | hooks/use-game-state.ts:101 | Drops the fired callback from the queue and keeps those it scheduled after the others; no snapshot field changes. |
| `GameStates.Game.HandleCellClick` | hooks/use-game-state.ts:257-307 | Ignored when the game is over or a ball is moving. Otherwise it applies the selection rules: deselect, reselect another ball, select a ball, ignore an empty cell. Moving to an empty cell saves a snapshot first, starts the flight along a shortest route and clears the selection. With no route, nothing changes. |
| `GameStates.Game.MoveSelected` | hooks/use-game-state.ts:283-302 | The move branch of a click. |
| `GameStates.Game.HandleUndo` | hooks/use-game-state.ts:309-331 | Corrected undo. Refused (nothing changes) when there are fewer than two snapshots or a ball is moving. Otherwise the last snapshot is dropped, every field is restored from the new last one into a fresh grid, and nothing is selected or moving. |
| `GameStates.Game.SetState` | hooks/use-game-state.ts:317-327 | The setters for the fields a snapshot records. |
| `GameStates.Game.SetRecords` | hooks/use-game-state.ts:323-330 | Sets the history, the pending callbacks, the selection and the flight; no snapshot field changes. |
| `GameStates.Game.SetScore` | hooks/use-scoring.ts:42 | Sets the score; nothing else changes. |
| `Line98Monolith.SaveKeepsSavedOk` | components/line98-game.tsx:103-109 | Saving a snapshot of a board keeps every snapshot a board. |
| `Line98Monolith.RandomSpawnAddsBalls` | components/line98-game.tsx:169-185 | A spawn adds one ball per colour, ball base+i on the i-th drawn cell, and keeps the balls already there. |
| `Line98Monolith.SpawnRandom` | components/line98-game.tsx:149-189 | When empty cells are fewer than colours: game over. Otherwise distinct empty cells receive the balls, the counter advances by the number of colours, and three fresh colours come next. |
| `Line98Monolith.FindAndMove` | components/line98-game.tsx:245-279 | With no route, nothing changes. With a route, it is a shortest one; an empty source changes nothing, and otherwise the ball leaves the source and sits on the target at once. |
| `Line98Monolith.NewGame` | components/line98-game.tsx:111-141 | A fresh grid holding the three balls of a spawn from an empty board. |
| `Line98Monolith.Line98Game.Snapshot` | components/line98-game.tsx:151-157 | The deep copy of the state a snapshot records. |
| `Line98Monolith.Line98Game.constructor` | components/line98-game.tsx:42-50 | The state before the first start: an empty board, score 0, counter 0, no history. |
| `Line98Monolith.Line98Game.AddNewBalls` | components/line98-game.tsx:149-203 | Saves a snapshot first, then `SpawnRandom`. The line check is scheduled unless the game is over. |
| `Line98Monolith.Line98Game.InitializeGame` | components/line98-game.tsx:111-141 | Three balls on a fresh board. The score is 0, the counter 3, the game not over and nothing selected. The history is the stale snapshot of the nested spawn. |
| `Line98Monolith.Line98Game.HandleCellClick` | components/line98-game.tsx:219-264 | Ignored after game over. Otherwise the same selection rules as the hook apply. A move saves a snapshot only when a route exists. |
| `Line98Monolith.Line98Game.MoveSelected` | components/line98-game.tsx:244-299 | The move branch: a snapshot is saved, the ball goes straight to the target, its settling is scheduled and the selection is cleared. |
| `Line98Monolith.Line98Game.SettleMove` | components/line98-game.tsx:282-288 | The first timeout: the moved ball is written to the target again, and the line check is scheduled. |
| `Line98Monolith.Line98Game.CheckLinesAfterMoveAsWritten` | components/line98-game.tsx:289-298 | The second timeout, as written: clear and score, then a spawn whether or not anything was cleared. |
| `Line98Monolith.Line98Game.CheckLinesAfterMove` | components/line98-game.tsx:289-298 | The second timeout, as intended: a spawn exactly when nothing was cleared. |
| `Line98Monolith.Line98Game.CheckLinesAfterSpawn` | components/line98-game.tsx:190-200 | Clears and scores the runs the new balls complete. |
| `Line98Monolith.Line98Game.FireTimer` | components/line98-game.tsx:282-299 | Firing one timeout as the component does removes it from the queue. Settling rewrites the ball on its target and schedules the line check. The check after a move clears and scores the lines and then spawns whether or not anything was cleared. The check after a spawn only clears and scores. |
| `Line98Monolith.Line98Game.FireTimerIntended` | components/line98-game.tsx:282-299 | Firing one timeout in the corrected component: a spawn follows a move exactly when nothing was cleared. |
| `Line98Monolith.Line98Game.Unschedule` | components/line98-game.tsx:289 | Drops the fired timeout from the queue and keeps those it scheduled after the others; no snapshot field changes. |
| `Line98Monolith.Line98Game.HandleUndo` | components/line98-game.tsx:535-553 | Corrected undo. Refused when there are fewer than two snapshots, with nothing changed; a moving ball does not block it. Otherwise the last snapshot is dropped and every field is restored from the one before it, the board into a fresh grid. |
| `Line98Monolith.Line98Game.SetState` | components/line98-game.tsx:544-548 | The setters for the fields a snapshot records. |
| `Line98Monolith.Line98Game.SetScore` | components/line98-game.tsx:445 | Sets the score; nothing else changes. |
| `Line98Monolith.Line98Game.SetRecords` | components/line98-game.tsx:549-552 | Sets the history, the pending timeouts and the selection; no snapshot field changes. |

## Left out

- Audio: `hooks/use-audio.ts` is not part of this model. The score sound is the `playSound` result of `Scoring.RemoveLines`, and the callers ignore it.
- Rendering, CSS and the floating-point animation offsets in `components/game/*.tsx` and `app/page.tsx`.
- Presentation flags, which have no effect on the game: `isNew`, `isMoving`, `clickedBall` and the colour-to-CSS mapping.
- Persistence: localStorage save and load and the JSON parsing on start.
- Timing: the delays of `setTimeout`. Only the order in which callbacks are scheduled is modelled, and the environment may fire them in any order.
  - Timer cancellation by effect cleanup is modelled only for the step effect: a marker relocation re-runs it without advancing.
  - The monolith's click window while a move settles is open in the model too.
- Stale closures other than the two modelled ones (the spawn inside `initializeGame` and the score in the after-move check). The model's timer callbacks act on the live grid. In the source each one acts on the grid it captured when it was scheduled, and hands a board built from those cells back to `setGrid`. The two lines below give the consequence when such a callback fires after an undo.
- GameStates.Game.FirePending: a callback that fires after an undo acts on the restored board. In the source it replaces that board with one built from the cells it captured: the after-move check through `setGrid` at hooks/use-game-state.ts:108 or, via `addNewBalls`, at :234, and the after-spawn check at :244-251. The undone score, colours, counter and history stay as the undo left them, and the score then gains the points of the clear. The source thus ends up with a board from before the undo and the other fields from after it; the model does not capture this mix.
- Line98Monolith.Line98Game.FireTimer: the same for the component's timeouts. An undo within 300 ms of a move lets the settle timeout reinstall the post-move board at components/line98-game.tsx:286, and the after-move check does the same through `addNewBalls` (line 186, reached from line 294) or line 296. The model's `SettleMove` instead writes the ball onto the restored board, which can still hold that ball at its old cell. That leaves one ball id on two cells, which the component never shows.
- Randomness: only which outcomes are possible is modelled. Every pick may be any index in range; no distribution is modelled.
- The initial grid before the first start is `[]` in the source. The model uses an empty 9×9 grid (`GameStates.Game.constructor`, `Line98Monolith.Line98Game.constructor`).
- GameStates.NewGame: the preview that `initializeGame` makes from its fresh grid (hooks/use-game-state.ts:178) is discarded, because the nested spawn replaces it before anyone reads it.
- GameStates.Game.HandleUndo: restores into a fresh grid. In the source (hooks/use-game-state.ts:318) the live grid becomes the history entry's own grid. Every later in-place write then also lands in that entry: the lift at the start of a move (hooks/use-balls.ts:63), the landing (hooks/use-game-state.ts:92), a spawn (hooks/use-game-state.ts:226) and a clear (hooks/use-scoring.ts:37). A second undo then restores that changed board, not the saved one. The class models the corrected undo; the source's behaviour is modelled on boards by `GameStates.UndoShared` (see Findings).
- Line98Monolith.Line98Game.HandleUndo: restores into a fresh grid. In the component (components/line98-game.tsx:544) the live grid becomes the history entry's own grid. Every later in-place write then also lands in that entry: a spawn (line 176), the move (lines 274 and 277), the settle (line 284) and a clear (line 440). A second undo then restores that changed board. The class models the corrected undo; the component's behaviour is the same as the hook's, modelled by `GameStates.UndoShared` (see Findings).
- GridOps.FindPath: states that the route is a shortest one, not which shortest route it is when there are several. The route is the first one the breadth-first search reaches with the up, down, left, right order that `GridOps.QueueNeighbours` states. That choice decides which preview marker a flight relocates.
- Integers are unbounded: ids, counter and score never wrap in the source's number range either, at the sizes a game reaches.

## Findings

| source | as written | input that shows it | evidently intended | confidence | as-written member | corrected member |
|---|---|---|---|---|---|---|
| hooks/use-game-state.ts:101-110 | `removeLines` clears the shared Cell objects in place, so `gridAfterMove` and `newGrid` always hold the same balls. The test at line 105 therefore always succeeds, and new balls spawn even after a move that cleared a line. | a move that lands the fifth red ball in the top row (`GameStates.FiveRed`, whose clear set is non-empty by `GameStates.FiveInARowClears`) | spawn only when the move cleared nothing | not executed | `GameStates.Game.CheckLinesAfterMoveAsWritten` | `GameStates.Game.CheckLinesAfterMove` |
| components/line98-game.tsx:289-298 | the same shared-cell comparison at line 293, so the component also spawns after every move, clear or not | the same five-red move | spawn only when the move cleared nothing | not executed | `Line98Monolith.Line98Game.CheckLinesAfterMoveAsWritten` | `Line98Monolith.Line98Game.CheckLinesAfterMove` |
| hooks/use-game-state.ts:318 | undo passes the entry's own grid to `setGrid`, so the live grid shares its cells with that entry. The move, landing, spawn and clear that follow write into it, and a second undo restores the changed board. | history [a, b]: undo, then a move and a spawn that leave board p ≠ a, then undo twice; the second undo restores p (`GameStates.SecondUndoAsWritten`) | restore a deep copy, so a second undo brings back a | not executed | `GameStates.UndoShared` | `GameStates.Game.HandleUndo` |
| components/line98-game.tsx:544 | the same restore of the entry's own grid; the move (lines 274 and 277), the settle (284), the spawn (176) and the clear (440) write into that entry | the same undo, turn and second undo (`GameStates.SecondUndoAsWritten`) | restore a deep copy, so a second undo brings back a (`History.SecondUndoRestoresSaved`) | not executed | `GameStates.UndoShared` | `Line98Monolith.Line98Game.HandleUndo` |
