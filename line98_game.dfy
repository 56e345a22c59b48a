/**
 * components/line98-game.tsx, the all-in-one component the page mounts. Its
 * findPath, getEmptyCells and removeLines are the same algorithms as the
 * hooks' (GridOps.FindPath, GridOps.GetEmptyCells, Scoring.RemoveLines);
 * what differs is the turn logic: no preview markers, a move that puts the
 * ball on its target at once and finishes it with two timeouts, no guard
 * against clicks while a move is finishing, and an undo that only needs two
 * snapshots.
 */
module Line98Monolith {
  import opened Types
  import opened GridOps
  import opened Scoring
  import opened History
  import opened Balls
  import GameStates

  /** A history entry of the component: the hooks' snapshot without preview markers. */
  datatype SavedState = SavedState(
    grid: Board,
    score: int,
    nextBalls: seq<Color>,
    ballIdCounter: int,
    gameOver: bool)

  /** The timeouts the component schedules. */
  datatype Timer =
    | FinalizeMove(to: Pos, ball: Ball)   // 300 ms after moveBall: the ball settles on its target
    | LinesAfterMove                      // 300 ms after that: clear lines, then spawn (see CheckLinesAfterMoveAsWritten)
    | LinesAfterSpawn                     // 300 ms after a spawn: clear lines

  predicate SavedOk(history: seq<SavedState>) {
    forall i :: 0 <= i < |history| ==> IsBoard(history[i].grid)
  }

  predicate TimersOk(pending: seq<Timer>) {
    forall i :: 0 <= i < |pending| ==> pending[i].FinalizeMove? ==> InBounds(pending[i].to)
  }

  /** Saving a snapshot of a board keeps every snapshot of the history a board. */
  lemma SaveKeepsSavedOk(history: seq<SavedState>, s: SavedState)
    requires SavedOk(history) && IsBoard(s.grid)
    ensures SavedOk(SaveStateToHistory(history, s))
  {
    var h := SaveStateToHistory(history, s);
    forall i | 0 <= i < |h| - 1
      ensures IsBoard(h[i].grid)
    {
      assert h[i] == h[..|h| - 1][i];
    }
  }

  /**
   * One addNewBalls of the component on state s, apart from the history
   * and the scheduled line check: game over (and nothing else) when the
   * board has fewer empty cells than colours; otherwise one ball per colour
   * on distinct cells that were empty, ids from the counter on, the counter
   * advanced by the number of colours and three fresh colours for the next
   * turn.
   */
  ghost predicate RandomSpawnStep(s: SavedState, colors: seq<Color>, placed: seq<Pos>, t: SavedState) {
    if CellCount - |s.grid| < |colors| then t == s.(gameOver := true)
    else
      && |placed| == |colors| && Distinct(placed)
      && (forall i :: 0 <= i < |placed| ==> Free(s.grid, placed[i]))
      && t.grid == GameStates.Place(s.grid, placed, colors, s.ballIdCounter)
      && t.score == s.score && t.gameOver == s.gameOver
      && t.ballIdCounter == s.ballIdCounter + |colors|
      && |t.nextBalls| == BallsPerTurn && forall i :: 0 <= i < |t.nextBalls| ==> t.nextBalls[i] in Colors
  }

  /**
   * A spawn of the component adds exactly one ball per colour, ball
   * base+i of colour colors[i] on the i-th drawn cell, and keeps every ball
   * already on the board.
   */
  lemma RandomSpawnAddsBalls(s: SavedState, colors: seq<Color>, placed: seq<Pos>, t: SavedState)
    requires RandomSpawnStep(s, colors, placed, t) && CellCount - |s.grid| >= |colors|
    ensures |t.grid| == |s.grid| + |colors|
    ensures forall i :: 0 <= i < |placed| ==> placed[i] in t.grid && t.grid[placed[i]] == Ball(s.ballIdCounter + i, colors[i])
    ensures forall p :: p in s.grid ==> p in t.grid && t.grid[p] == s.grid[p]
  {
    GameStates.PlaceCount(s.grid, placed, colors, s.ballIdCounter);
    GameStates.PlaceDistinct(s.grid, placed, colors, s.ballIdCounter);
    GameStates.PlaceFrame(s.grid, placed, colors, s.ballIdCounter);
  }

  /**
   * The body of the component's addNewBalls after the snapshot: game over
   * when the board has fewer empty cells than colours; otherwise three new
   * colours, and each ball goes to a cell drawn from the empty cells and
   * spliced out of them. The loop's `break` on running out of empty cells
   * cannot fire after that check, so the drawing loop is GameStates.PlaceBalls
   * with no preview positions.
   */
  method SpawnRandom(g: Grid, s: SavedState, colors: seq<Color>) returns (t: SavedState, over: bool, ghost placed: seq<Pos>)
    requires IsGrid(g) && s.grid == Cells(g)
    modifies g
    ensures RandomSpawnStep(s, colors, placed, t) && Cells(g) == t.grid && t.score == s.score
    ensures over <==> CellCount - |s.grid| < |colors|
  {
    var emptyCells := GetEmptyCells(g);
    if |emptyCells| < |colors| {
      return s.(gameOver := true), true, [];
    }
    assert ColorRolls([0, 0, 0]);
    var rolls :| |rolls| == BallsPerTurn && ColorRolls(rolls);
    var newNextBalls := GenerateRandomColors(BallsPerTurn, rolls);
    placed := GameStates.PlaceBalls(g, [], emptyCells, colors, s.ballIdCounter);
    t := s.(grid := Cells(g), ballIdCounter := s.ballIdCounter + |colors|, nextBalls := newNextBalls);
    over := false;
  }

  /**
   * The board part of moveBall, after findPath found a route: nothing when
   * `from` holds no ball; otherwise the ball leaves `from` and is put on
   * `to` at once.
   */
  method FindAndMove(g: Grid, from: Pos, to: Pos) returns (route: Option<seq<Pos>>, moved: Option<Ball>)
    requires IsGrid(g) && InBounds(from) && InBounds(to) && to !in Cells(g)
    modifies g
    ensures route.None? ==> GameStates.NoRoute(old(Cells(g)), from, to) && moved.None? && Cells(g) == old(Cells(g))
    ensures route.Some? ==> GameStates.ShortestRoute(old(Cells(g)), route.value, from, to)
    ensures route.Some? && from in old(Cells(g)) ==>
      moved == Some(old(Cells(g))[from]) && Cells(g) == (old(Cells(g)) - {from})[to := old(Cells(g))[from]]
    ensures route.Some? && from !in old(Cells(g)) ==> moved.None? && Cells(g) == old(Cells(g))
  {
    route := FindPath(g, from.row, from.col, to.row, to.col);
    if route.None? {
      assert g[to.row, to.col].None?;
      forall p ensures !IsPath(Cells(g), p, from, to) {
        assert !IsPath(Cells(g), p, Pos(from.row, from.col), Pos(to.row, to.col));
      }
      assert GameStates.NoRoute(Cells(g), from, to);
      return route, None;
    }
    ghost var b := Cells(g);
    var ball := g[from.row, from.col];
    if ball.None? {
      return route, None;
    }
    g[from.row, from.col] := None;
    CellsOf(g, b - {from});
    PutBall(g, to, ball.value);
    moved := ball;
  }

  /**
   * The board-building part of initializeGame for the closure state s
   * (whose board is the new empty one): a fresh empty grid, three random
   * colours and the spawn of those colours.
   */
  method NewGame(s: SavedState) returns (g: Grid, t: SavedState, colors: seq<Color>, ghost placed: seq<Pos>)
    requires s.grid == map[]
    ensures fresh(g) && IsGrid(g) && Cells(g) == t.grid
    ensures |colors| == |placed| == BallsPerTurn && |t.grid| == BallsPerTurn
    ensures forall i :: 0 <= i < |placed| ==> placed[i] in t.grid && t.grid[placed[i]] == Ball(s.ballIdCounter + i, colors[i])
    ensures |t.nextBalls| == BallsPerTurn
  {
    g := InitializeGrid();
    assert ColorRolls([0, 0, 0]);
    var rolls :| |rolls| == BallsPerTurn && ColorRolls(rolls);
    colors := GenerateRandomColors(BallsPerTurn, rolls);
    var over;
    t, over, placed := SpawnRandom(g, s, colors);
    RandomSpawnAddsBalls(s, colors, placed, t);
  }

  class Line98Game {
    var grid: Grid
    var score: int
    var nextBalls: seq<Color>
    var selectedCell: Option<Pos>
    var gameOver: bool
    var ballIdCounter: int
    var gameHistory: seq<SavedState>
    var pending: seq<Timer>

    ghost predicate Valid()
      reads this, grid
    {
      && IsGrid(grid)
      && (selectedCell.Some? ==> InBounds(selectedCell.value))
      && SavedOk(gameHistory)
      && TimersOk(pending)
    }

    /** The deep copy addNewBalls and handleCellClick push onto the history. */
    function Snapshot(): (s: SavedState)
      requires IsGrid(grid)
      reads this, grid
      ensures s.grid == Cells(grid) && s.score == score && s.nextBalls == nextBalls
      ensures s.ballIdCounter == ballIdCounter && s.gameOver == gameOver
    {
      SavedState(Cells(grid), score, nextBalls, ballIdCounter, gameOver)
    }

    /** The state before the first initializeGame: an empty board and empty lists. */
    constructor()
      ensures Valid() && Cells(grid) == map[] && score == 0 && ballIdCounter == 0
      ensures nextBalls == [] && gameHistory == [] && pending == []
      ensures selectedCell.None? && !gameOver
    {
      var g := InitializeGrid();
      grid := g;
      score := 0;
      nextBalls := [];
      selectedCell := None;
      gameOver := false;
      ballIdCounter := 0;
      gameHistory := [];
      pending := [];
    }

    /**
     * addNewBalls(grid, colors): pushes a snapshot of the current state,
     * then spawns on the live grid; on game over only the flag is set,
     * otherwise the counter advances by the number of balls placed and the
     * line check is scheduled.
     */
    method AddNewBalls(colors: seq<Color>) returns (ghost placed: seq<Pos>)
      requires Valid()
      modifies this, grid
      ensures Valid() && grid == old(grid) && selectedCell == old(selectedCell)
      ensures gameHistory == SaveStateToHistory(old(gameHistory), old(Snapshot()))
      ensures RandomSpawnStep(old(Snapshot()), colors, placed, Snapshot()) && score == old(score)
      ensures pending == if old(CellCount - |Cells(grid)|) < |colors| then old(pending) else old(pending) + [LinesAfterSpawn]
    {
      var snapshot := Snapshot();
      var next, over;
      next, over, placed := SpawnRandom(grid, snapshot, colors);
      SetState(next);
      SaveKeepsSavedOk(gameHistory, snapshot);
      SetRecords(SaveStateToHistory(gameHistory, snapshot), if over then pending else pending + [LinesAfterSpawn], selectedCell);
    }

    /**
     * initializeGame, with the closure semantics of the source: the nested
     * addNewBalls still sees the score, colours, id counter and game-over
     * flag from before the reset (its board is the new empty one). Its
     * snapshot of that state becomes the whole history, the three balls get
     * ids from the old counter, and the counter itself becomes 0 + 3.
     */
    method InitializeGame() returns (ghost colors: seq<Color>, ghost placed: seq<Pos>)
      requires Valid()
      modifies this
      ensures Valid() && fresh(grid)
      ensures |Cells(grid)| == BallsPerTurn && |placed| == |colors| == BallsPerTurn
      ensures forall i :: 0 <= i < |placed| ==>
        placed[i] in Cells(grid) && Cells(grid)[placed[i]] == Ball(old(ballIdCounter) + i, colors[i])
      ensures |nextBalls| == BallsPerTurn
      ensures score == 0 && ballIdCounter == BallsPerTurn && !gameOver && selectedCell.None?
      ensures gameHistory == [SavedState(map[], old(score), old(nextBalls), old(ballIdCounter), old(gameOver))]
      ensures pending == old(pending) + [LinesAfterSpawn]
    {
      var stale := SavedState(map[], score, nextBalls, ballIdCounter, gameOver);
      var newGrid, next, initialNextBalls;
      newGrid, next, initialNextBalls, placed := NewGame(stale);
      grid := newGrid;
      SetState(next.(score := 0, ballIdCounter := |initialNextBalls|, gameOver := false));
      SetRecords(SaveStateToHistory([], stale), pending + [LinesAfterSpawn], None);
      colors := initialNextBalls;
    }

    /**
     * handleCellClick(row, col): ignored once the game is over (a click
     * while a move is still finishing is not). The selection rules are the
     * hooks': deselect the selected cell, select another ball instead, and
     * on an empty cell with a route to it save the state, move the ball
     * and clear the selection; with no route nothing changes.
     */
    method HandleCellClick(row: int, col: int) returns (ghost route: Option<seq<Pos>>)
      requires Valid() && InBounds(Pos(row, col))
      modifies this, grid
      ensures Valid() && grid == old(grid)
      ensures score == old(score) && nextBalls == old(nextBalls) && ballIdCounter == old(ballIdCounter) && gameOver == old(gameOver)
      ensures route.None? ==> Cells(grid) == old(Cells(grid)) && gameHistory == old(gameHistory) && pending == old(pending)
      ensures old(gameOver) ==> route.None? && selectedCell == old(selectedCell)
      ensures !old(gameOver) && old(selectedCell).None? ==>
        route.None? && selectedCell == if Pos(row, col) in old(Cells(grid)) then Some(Pos(row, col)) else None
      ensures !old(gameOver) && old(selectedCell) == Some(Pos(row, col)) ==> route.None? && selectedCell.None?
      ensures !old(gameOver) && old(selectedCell).Some? && old(selectedCell) != Some(Pos(row, col)) ==>
        var from, to, b := old(selectedCell.value), Pos(row, col), old(Cells(grid));
        && (to in b ==> route.None? && selectedCell == Some(to))
        && (to !in b && route.None? ==> selectedCell == old(selectedCell) && GameStates.NoRoute(b, from, to))
        && (route.Some? ==>
              && to !in b && GameStates.ShortestRoute(b, route.value, from, to)
              && gameHistory == SaveStateToHistory(old(gameHistory), old(Snapshot()))
              && selectedCell.None?
              && (from in b ==>
                    Cells(grid) == (b - {from})[to := b[from]] && pending == old(pending) + [FinalizeMove(to, b[from])])
              && (from !in b ==> Cells(grid) == b && pending == old(pending)))
    {
      route := None;
      if gameOver {
        return;
      }
      var cell := grid[row, col];
      label Start:
      if selectedCell.Some? {
        var from := selectedCell.value;
        if from == Pos(row, col) {
          selectedCell := None;
        } else if cell.Some? {
          selectedCell := Some(Pos(row, col));
        } else {
          route := MoveSelected(from, Pos(row, col));
          return;
        }
      } else if cell.Some? {
        selectedCell := Some(Pos(row, col));
      }
      CellsUnchanged@Start(grid);
    }

    /**
     * The move branch of handleCellClick followed by moveBall: with a route
     * the state is saved, the ball (if `from` still holds one) leaves `from`
     * and is put on `to` at once, its settling is scheduled and the
     * selection is cleared.
     */
    method MoveSelected(from: Pos, to: Pos) returns (route: Option<seq<Pos>>)
      requires Valid() && InBounds(from) && InBounds(to) && to !in Cells(grid)
      modifies this, grid
      ensures Valid() && grid == old(grid)
      ensures score == old(score) && nextBalls == old(nextBalls) && ballIdCounter == old(ballIdCounter) && gameOver == old(gameOver)
      ensures route.None? ==>
        && Cells(grid) == old(Cells(grid)) && gameHistory == old(gameHistory) && pending == old(pending)
        && selectedCell == old(selectedCell) && GameStates.NoRoute(old(Cells(grid)), from, to)
      ensures route.Some? ==>
        var b := old(Cells(grid));
        && GameStates.ShortestRoute(b, route.value, from, to)
        && gameHistory == SaveStateToHistory(old(gameHistory), old(Snapshot()))
        && selectedCell.None?
        && (from in b ==> Cells(grid) == (b - {from})[to := b[from]] && pending == old(pending) + [FinalizeMove(to, b[from])])
        && (from !in b ==> Cells(grid) == b && pending == old(pending))
    {
      var snapshot := Snapshot();
      var moved;
      route, moved := FindAndMove(grid, from, to);
      if route.None? {
        return;
      }
      var scheduled := if moved.Some? then pending + [FinalizeMove(to, moved.value)] else pending;
      SaveKeepsSavedOk(gameHistory, snapshot);
      SetRecords(SaveStateToHistory(gameHistory, snapshot), scheduled, None);
    }

    /**
     * The first timeout of moveBall: the moved ball, same id and colour,
     * is written to its target again (whatever the cell holds by then), and
     * the line check is scheduled.
     */
    method SettleMove(to: Pos, ball: Ball)
      requires Valid() && InBounds(to)
      modifies this, grid
      ensures Valid() && grid == old(grid) && Snapshot() == old(Snapshot()).(grid := old(Cells(grid))[to := ball])
      ensures selectedCell == old(selectedCell) && gameHistory == old(gameHistory)
      ensures pending == old(pending) + [LinesAfterMove]
    {
      PutBall(grid, to, ball);
      label Put:
      pending := pending + [LinesAfterMove];
      CellsUnchanged@Put(grid);
    }

    /**
     * The second timeout of moveBall, as written: removeLines clears the
     * board in place, and the grid it returns shares its cells with the one
     * it was given, so the comparison always finds them equal and
     * addNewBalls runs whether or not lines were cleared. Its snapshot has
     * the cleared board and the score from before the clear.
     */
    method CheckLinesAfterMoveAsWritten() returns (ghost placed: seq<Pos>)
      requires Valid()
      modifies this, grid
      ensures Valid() && grid == old(grid) && selectedCell == old(selectedCell)
      ensures var cleared := old(Cells(grid)) - ClearSet(old(Cells(grid)));
        var before := old(Snapshot()).(grid := cleared);
        && gameHistory == SaveStateToHistory(old(gameHistory), before)
        && RandomSpawnStep(before, old(nextBalls), placed, Snapshot().(score := old(score)))
        && score == old(score) + |ClearSet(old(Cells(grid)))|
        && pending == if CellCount - |cleared| < |old(nextBalls)| then old(pending) else old(pending) + [LinesAfterSpawn]
    {
      placed := [];
      var updatedGrid := grid;
      var newScore, _ := RemoveLines(grid, score);
      var gridAfterMove := grid;
      if Cells(gridAfterMove) == Cells(updatedGrid) {
        placed := AddNewBalls(nextBalls);
      }
      SetScore(newScore);
    }

    /**
     * The second timeout of moveBall, as intended: the board is compared
     * with a copy taken before the clear, so new balls come only after a
     * move that completes no line.
     */
    method CheckLinesAfterMove() returns (ghost placed: seq<Pos>)
      requires Valid()
      modifies this, grid
      ensures Valid() && grid == old(grid) && selectedCell == old(selectedCell)
      ensures ClearSet(old(Cells(grid))) == {} ==>
        && gameHistory == SaveStateToHistory(old(gameHistory), old(Snapshot()))
        && RandomSpawnStep(old(Snapshot()), old(nextBalls), placed, Snapshot())
        && pending == if CellCount - old(|Cells(grid)|) < |old(nextBalls)| then old(pending) else old(pending) + [LinesAfterSpawn]
      ensures ClearSet(old(Cells(grid))) != {} ==>
        && Snapshot() == old(Snapshot()).(grid := old(Cells(grid)) - ClearSet(old(Cells(grid))),
                                          score := old(score) + |ClearSet(old(Cells(grid)))|)
        && gameHistory == old(gameHistory) && pending == old(pending)
    {
      placed := [];
      var before := Cells(grid);
      var newScore, _ := RemoveLines(grid, score);
      GameStates.ClearChangesBoard(before);
      if Cells(grid) == before {
        placed := AddNewBalls(nextBalls);
      }
      SetScore(newScore);
    }

    /** The timeout after a spawn: the lines the new balls complete are cleared and scored. */
    method CheckLinesAfterSpawn()
      requires Valid()
      modifies this, grid
      ensures Valid() && grid == old(grid) && selectedCell == old(selectedCell)
      ensures Snapshot() == old(Snapshot()).(grid := old(Cells(grid)) - ClearSet(old(Cells(grid))),
                                             score := old(score) + |ClearSet(old(Cells(grid)))|)
      ensures gameHistory == old(gameHistory) && pending == old(pending)
    {
      var newScore, _ := RemoveLines(grid, score);
      SetScore(newScore);
    }

    /**
     * One scheduled timeout fires, as the component runs it: the line check
     * after a move is the one as written, which spawns even after a clear.
     * Which timeout fires is the caller's choice, since timeouts from
     * different turns can interleave.
     */
    method FireTimer(i: nat) returns (ghost placed: seq<Pos>)
      requires Valid() && i < |pending|
      modifies this, grid
      ensures Valid() && grid == old(grid) && selectedCell == old(selectedCell)
      ensures old(pending[i]).FinalizeMove? ==>
        && Snapshot() == old(Snapshot()).(grid := old(Cells(grid))[old(pending[i]).to := old(pending[i]).ball])
        && gameHistory == old(gameHistory)
        && pending == old(pending[..i] + pending[i + 1..]) + [LinesAfterMove]
      ensures old(pending[i]) == LinesAfterSpawn ==>
        && Snapshot() == old(Snapshot()).(grid := old(Cells(grid)) - ClearSet(old(Cells(grid))),
                                          score := old(score) + |ClearSet(old(Cells(grid)))|)
        && gameHistory == old(gameHistory)
        && pending == old(pending[..i] + pending[i + 1..])
      ensures old(pending[i]) == LinesAfterMove ==>
        var cleared := old(Cells(grid)) - ClearSet(old(Cells(grid)));
        var before := old(Snapshot()).(grid := cleared);
        var rest := old(pending[..i] + pending[i + 1..]);
        && gameHistory == SaveStateToHistory(old(gameHistory), before)
        && RandomSpawnStep(before, old(nextBalls), placed, Snapshot().(score := old(score)))
        && score == old(score) + |ClearSet(old(Cells(grid)))|
        && pending == if CellCount - |cleared| < |old(nextBalls)| then rest else rest + [LinesAfterSpawn]
    {
      var timer := pending[i];
      placed := [];
      match timer {
        case FinalizeMove(to, ball) =>
          SettleMove(to, ball);
        case LinesAfterMove =>
          placed := CheckLinesAfterMoveAsWritten();
        case LinesAfterSpawn =>
          CheckLinesAfterSpawn();
      }
      Unschedule(i, old(pending));
    }

    /**
     * One scheduled timeout fires in the component as intended: a move that
     * clears lines is not followed by new balls.
     */
    method FireTimerIntended(i: nat) returns (ghost placed: seq<Pos>)
      requires Valid() && i < |pending|
      modifies this, grid
      ensures Valid() && grid == old(grid) && selectedCell == old(selectedCell)
      ensures old(pending[i]).FinalizeMove? ==>
        && Snapshot() == old(Snapshot()).(grid := old(Cells(grid))[old(pending[i]).to := old(pending[i]).ball])
        && gameHistory == old(gameHistory)
        && pending == old(pending[..i] + pending[i + 1..]) + [LinesAfterMove]
      ensures old(pending[i]) == LinesAfterSpawn || (old(pending[i]) == LinesAfterMove && ClearSet(old(Cells(grid))) != {}) ==>
        && Snapshot() == old(Snapshot()).(grid := old(Cells(grid)) - ClearSet(old(Cells(grid))),
                                          score := old(score) + |ClearSet(old(Cells(grid)))|)
        && gameHistory == old(gameHistory)
        && pending == old(pending[..i] + pending[i + 1..])
      ensures old(pending[i]) == LinesAfterMove && ClearSet(old(Cells(grid))) == {} ==>
        var rest := old(pending[..i] + pending[i + 1..]);
        && gameHistory == SaveStateToHistory(old(gameHistory), old(Snapshot()))
        && RandomSpawnStep(old(Snapshot()), old(nextBalls), placed, Snapshot())
        && pending == if CellCount - old(|Cells(grid)|) < |old(nextBalls)| then rest else rest + [LinesAfterSpawn]
    {
      var timer := pending[i];
      placed := [];
      match timer {
        case FinalizeMove(to, ball) =>
          SettleMove(to, ball);
        case LinesAfterMove =>
          placed := CheckLinesAfterMove();
        case LinesAfterSpawn =>
          CheckLinesAfterSpawn();
      }
      Unschedule(i, old(pending));
    }

    /**
     * handleUndo: refused while fewer than two snapshots are kept (a move
     * that is still finishing does not block it). Otherwise the newest
     * snapshot is dropped and the game returns to the one before it, with
     * no selection; scheduled timeouts stay scheduled.
     */
    method HandleUndo()
      requires Valid()
      modifies this
      ensures Valid() && pending == old(pending)
      ensures old(|gameHistory|) <= 1 ==> unchanged(this)
      ensures old(|gameHistory|) > 1 ==>
        && gameHistory == old(gameHistory[..|gameHistory| - 1])
        && Snapshot() == old(gameHistory[|gameHistory| - 2])
        && fresh(grid) && selectedCell.None?
    {
      if |gameHistory| <= 1 {
        return;
      }
      var newHistory := gameHistory[..|gameHistory| - 1];
      var previousState := newHistory[|newHistory| - 1];
      var restored := GridOf(previousState.grid);
      grid := restored;
      SetState(previousState);
      selectedCell := None;
      gameHistory := newHistory;
    }

    /**
     * The state setters of a snapshot's fields, applied together: the live
     * grid already holds the snapshot's board.
     */
    method SetState(s: SavedState)
      requires IsGrid(grid) && Cells(grid) == s.grid
      modifies this
      ensures grid == old(grid) && selectedCell == old(selectedCell)
      ensures Snapshot() == s
      ensures gameHistory == old(gameHistory) && pending == old(pending)
    {
      label Before:
      score, nextBalls, ballIdCounter, gameOver := s.score, s.nextBalls, s.ballIdCounter, s.gameOver;
      CellsUnchanged@Before(grid);
    }

    /** The score setter alone. */
    method SetScore(newScore: int)
      requires IsGrid(grid)
      modifies this
      ensures grid == old(grid) && Snapshot() == old(Snapshot()).(score := newScore)
      ensures selectedCell == old(selectedCell) && gameHistory == old(gameHistory) && pending == old(pending)
    {
      label Before:
      score := newScore;
      CellsUnchanged@Before(grid);
    }

    /**
     * Drops the timeout that fired, the i-th of `scheduled`, from the
     * timeouts; those its callback scheduled stay after the others.
     */
    method Unschedule(i: nat, ghost scheduled: seq<Timer>)
      requires Valid() && i < |scheduled| && scheduled <= pending
      modifies this
      ensures Valid() && grid == old(grid) && Snapshot() == old(Snapshot())
      ensures selectedCell == old(selectedCell) && gameHistory == old(gameHistory)
      ensures pending == scheduled[..i] + scheduled[i + 1..] + old(pending[|scheduled|..])
    {
      assert pending == scheduled + pending[|scheduled|..];
      ghost var added := pending[|scheduled|..];
      var rest := pending[..i] + pending[i + 1..];
      assert rest == scheduled[..i] + scheduled[i + 1..] + added;
      SetRecords(gameHistory, rest, selectedCell);
    }

    /** The history, the scheduled timeouts and the selection, which no snapshot records. */
    method SetRecords(history: seq<SavedState>, timers: seq<Timer>, selection: Option<Pos>)
      requires IsGrid(grid)
      modifies this
      ensures grid == old(grid) && Snapshot() == old(Snapshot())
      ensures gameHistory == history && pending == timers && selectedCell == selection
    {
      label Before:
      gameHistory, pending, selectedCell := history, timers, selection;
      CellsUnchanged@Before(grid);
    }
  }
}
