/**
 * The turn controller of hooks/use-game-state.ts: a click-driven state
 * machine over the selected cell, the ball in flight and game over, with
 * spawning, the step-by-step flight of a moved ball, line clearing and
 * undo.
 *
 * The React state variables are the fields of a `Game`. Each setTimeout
 * callback becomes a `Callback` queued in `pending` and run by `FirePending`,
 * and each run of the moving-ball effect followed by its step timer is one
 * call of `AdvanceMovingBall`.
 */
module GameStates {
  import opened Types
  import opened GridOps
  import opened Scoring
  import opened History
  import opened Balls

  /** A snapshot of the game, as the history stores it (a deep copy: the board is a value). */
  datatype GameState = GameState(
    grid: Board,
    score: int,
    nextBalls: seq<Color>,
    ballIdCounter: int,
    gameOver: bool,
    nextBallPositions: seq<NextBall>)

  /** The timeouts the controller schedules. */
  datatype Callback =
    | LinesAfterMove    // 100 ms after a ball lands: clear lines, then spawn (see CheckLinesAfterMoveAsWritten)
    | LinesAfterSpawn   // 300 ms after a spawn: clear lines

  /** Preview markers on pairwise distinct cells of the board. */
  predicate MarkersOk(markers: seq<NextBall>) {
    Distinct(Positions(markers)) && forall i :: 0 <= i < |markers| ==> InBounds(markers[i].position)
  }

  predicate SnapshotOk(s: GameState) {
    IsBoard(s.grid) && MarkersOk(s.nextBallPositions)
  }

  predicate SnapshotsOk(history: seq<GameState>) {
    forall i :: 0 <= i < |history| ==> SnapshotOk(history[i])
  }

  /** A ball in flight follows a non-empty route on the board. */
  predicate MovingOk(m: Option<MovingBall>) {
    m.Some? ==> |m.value.path| >= 1 && forall i :: 0 <= i < |m.value.path| ==> InBounds(m.value.path[i])
  }

  /**
   * The board after writing ball base+i of colour colors[i] at ps[i], for
   * each i in order; a later write to the same cell replaces an earlier one,
   * and a write to an occupied cell replaces the ball there.
   */
  function Place(b: Board, ps: seq<Pos>, colors: seq<Color>, base: int): Board
    requires |ps| == |colors|
    decreases |ps|
  {
    if ps == [] then b
    else Place(b, ps[..|ps| - 1], colors[..|ps| - 1], base)[ps[|ps| - 1] := Ball(base + |ps| - 1, colors[|ps| - 1])]
  }

  /** Placing one more ball is one more write on top of the earlier ones. */
  lemma PlaceSnoc(b: Board, ps: seq<Pos>, colors: seq<Color>, i: int, p: Pos, base: int)
    requires |ps| == i && 0 <= i < |colors|
    ensures Place(b, ps + [p], colors[..i + 1], base) == Place(b, ps, colors[..i], base)[p := Ball(base + i, colors[i])]
  {
    assert (ps + [p])[..i] == ps;
    assert colors[..i + 1][..i] == colors[..i];
  }

  /**
   * Placing balls touches only the listed cells, and the occupied cells
   * afterwards are those occupied before plus the listed ones.
   */
  lemma {:induction false} PlaceFrame(b: Board, ps: seq<Pos>, colors: seq<Color>, base: int)
    requires |ps| == |colors|
    ensures forall p :: p !in ps ==> (p in Place(b, ps, colors, base) <==> p in b)
    ensures forall p :: p !in ps && p in b ==> Place(b, ps, colors, base)[p] == b[p]
    ensures forall p :: p in ps ==> p in Place(b, ps, colors, base)
    decreases |ps|
  {
    if ps != [] {
      var n := |ps| - 1;
      PlaceFrame(b, ps[..n], colors[..n], base);
      assert forall p :: p in ps <==> p in ps[..n] || p == ps[n] by {
        assert ps == ps[..n] + [ps[n]];
      }
    }
  }

  /** On distinct cells, the i-th listed cell ends up holding ball base+i of colour colors[i]. */
  lemma {:induction false} PlaceDistinct(b: Board, ps: seq<Pos>, colors: seq<Color>, base: int)
    requires |ps| == |colors| && Distinct(ps)
    ensures forall i :: 0 <= i < |ps| ==>
      ps[i] in Place(b, ps, colors, base) && Place(b, ps, colors, base)[ps[i]] == Ball(base + i, colors[i])
    decreases |ps|
  {
    if ps != [] {
      var n := |ps| - 1;
      PlaceDistinct(b, ps[..n], colors[..n], base);
      forall i | 0 <= i < n
        ensures Place(b, ps, colors, base)[ps[i]] == Ball(base + i, colors[i])
      {
        assert ps[..n][i] == ps[i] && ps[i] != ps[n];
      }
    }
  }

  /** Placing on distinct empty cells adds exactly one ball per colour. */
  lemma PlaceCount(b: Board, ps: seq<Pos>, colors: seq<Color>, base: int)
    requires |ps| == |colors| && Distinct(ps) && forall i :: 0 <= i < |ps| ==> ps[i] !in b
    ensures |Place(b, ps, colors, base)| == |b| + |ps|
  {
    var placed := Place(b, ps, colors, base);
    var listed := set p | p in ps;
    forall p | p in listed
      ensures p !in b
    {
      var i :| 0 <= i < |ps| && ps[i] == p;
    }
    PlaceKeys(b, ps, colors, base);
    DistinctCard(ps);
    calc {
      |placed|;
      |placed.Keys|;
      |b.Keys + listed|;
      |b.Keys| + |listed|;
    }
  }

  /** The occupied cells after placing are those occupied before and the listed ones. */
  lemma PlaceKeys(b: Board, ps: seq<Pos>, colors: seq<Color>, base: int)
    requires |ps| == |colors|
    ensures Place(b, ps, colors, base).Keys == b.Keys + set p | p in ps
  {
    PlaceFrame(b, ps, colors, base);
  }

  /** A list without repeats names as many cells as it has entries. */
  lemma {:induction false} DistinctCard(ps: seq<Pos>)
    requires Distinct(ps)
    ensures |set p | p in ps| == |ps|
    decreases |ps|
  {
    if ps != [] {
      var n := |ps| - 1;
      DistinctCard(ps[..n]);
      assert (set p | p in ps) == (set p | p in ps[..n]) + {ps[n]} by {
        assert ps == ps[..n] + [ps[n]];
      }
      assert ps[n] !in ps[..n];
    }
  }

  /**
   * The preview markers are trusted: when one sits on an occupied cell, the
   * spawn overwrites the ball there, and the board gains fewer balls than
   * colours were placed.
   */
  lemma TrustedPreviewOverwrites(b: Board, q: Pos, old_ball: Ball, c: Color, base: int)
    requires q in b && b[q] == old_ball
    ensures Place(b, [q], [c], base)[q] == Ball(base, c)
    ensures |Place(b, [q], [c], base)| == |b|
  {
    assert Place(b, [q], [c], base) == b[q := Ball(base, c)];
    assert b[q := Ball(base, c)].Keys == b.Keys;
  }

  /**
   * Drawing state of the placement loop: `cells` are the empty cells of b0
   * not drawn yet, without repeats, and `placed` the distinct cells drawn so
   * far.
   */
  ghost predicate Drawing(b0: Board, cells: seq<Pos>, placed: seq<Pos>, total: int) {
    && |cells| == total - |placed|
    && Distinct(cells) && (forall p :: p in cells ==> Free(b0, p))
    && Distinct(placed)
    && forall k :: 0 <= k < |placed| ==> Free(b0, placed[k]) && placed[k] !in cells
  }

  /** Drawing the k-th remaining cell and splicing it out keeps the drawing state. */
  lemma DrawStep(b0: Board, cells: seq<Pos>, placed: seq<Pos>, total: int, k: int)
    requires Drawing(b0, cells, placed, total) && 0 <= k < |cells|
    ensures InBounds(cells[k])
    ensures Drawing(b0, cells[..k] + cells[k + 1..], placed + [cells[k]], total)
  {
    assert cells[k] in cells;
    SpliceOut(cells, k);
  }

  /**
   * The placement loop of addNewBalls: ball base+i of colour colors[i] goes
   * to positions[i] when there is such a preview position (trusted, not
   * re-checked: an occupied cell is overwritten), and otherwise to an empty
   * cell drawn from emptyCells, which is spliced out so no cell is drawn
   * twice.
   */
  method PlaceBalls(g: Grid, positions: seq<Pos>, emptyCells: seq<Pos>, colors: seq<Color>, base: int)
    returns (ghost placed: seq<Pos>)
    requires IsGrid(g)
    requires positions == [] || |positions| == |colors|
    requires forall i :: 0 <= i < |positions| ==> InBounds(positions[i])
    requires forall i, j :: 0 <= i < j < |emptyCells| ==> RowMajorBefore(emptyCells[i], emptyCells[j])
    requires (forall p :: p in emptyCells ==> Free(Cells(g), p)) && |emptyCells| >= |colors|
    modifies g
    ensures |placed| == |colors|
    ensures |positions| == |colors| ==> placed == positions
    ensures |positions| != |colors| ==>
      Distinct(placed) && forall i :: 0 <= i < |placed| ==> Free(old(Cells(g)), placed[i])
    ensures Cells(g) == Place(old(Cells(g)), placed, colors, base)
  {
    ghost var b0 := Cells(g);
    var cells := emptyCells;
    assert Drawing(b0, cells, [], |emptyCells|) by {
      forall i, j | 0 <= i < j < |cells|
        ensures cells[i] != cells[j]
      {
        assert RowMajorBefore(cells[i], cells[j]);
      }
    }
    placed := [];
    for i := 0 to |colors|
      invariant |placed| == i && Cells(g) == Place(b0, placed, colors[..i], base)
      invariant |positions| == |colors| ==> placed == positions[..i]
      invariant |positions| != |colors| ==> positions == [] && Drawing(b0, cells, placed, |emptyCells|)
    {
      var position: Pos;
      if |positions| > i {
        position := positions[i];
        assert positions[..i + 1] == positions[..i] + [position];
      } else {
        var randomIndex :| 0 <= randomIndex < |cells|;
        position := cells[randomIndex];
        DrawStep(b0, cells, placed, |emptyCells|, randomIndex);
        cells := cells[..randomIndex] + cells[randomIndex + 1..];
      }
      PutBall(g, position, Ball(base + i, colors[i]));
      PlaceSnoc(b0, placed, colors, i, position, base);
      placed := placed + [position];
    }
    assert colors[..|colors|] == colors;
    assert |positions| == |colors| ==> positions[..|colors|] == positions;
  }

  /** Saving a well-formed snapshot keeps every snapshot of the history well-formed. */
  lemma SaveKeepsSnapshotsOk(history: seq<GameState>, s: GameState)
    requires SnapshotsOk(history) && SnapshotOk(s)
    ensures SnapshotsOk(SaveStateToHistory(history, s))
  {
    var h := SaveStateToHistory(history, s);
    forall i | 0 <= i < |h|
      ensures SnapshotOk(h[i])
    {
      if i < |h| - 1 {
        assert h[i] == h[..|h| - 1][i];
      }
    }
  }

  /**
   * b1 is b0 after a spawn of `colors` with ids from `base`: the balls went
   * to the preview markers when there was one per colour, and otherwise to
   * distinct cells that were empty in b0.
   */
  ghost predicate Spawned(b0: Board, markers: seq<NextBall>, colors: seq<Color>, base: int, placed: seq<Pos>, b1: Board) {
    && |placed| == |colors|
    && (|markers| == |colors| ==> placed == Positions(markers))
    && (|markers| != |colors| ==> Distinct(placed) && forall i :: 0 <= i < |placed| ==> Free(b0, placed[i]))
    && b1 == Place(b0, placed, colors, base)
  }

  /**
   * The preview of the next batch on board b: three colours, and one marker
   * per colour on distinct empty cells when the board has room for them,
   * no markers otherwise.
   */
  predicate Previewed(b: Board, nextBalls: seq<Color>, markers: seq<NextBall>) {
    && |nextBalls| == BallsPerTurn
    && MarkersOk(markers)
    && (forall i :: 0 <= i < |markers| ==> Free(b, markers[i].position))
    && (CellCount - |b| < BallsPerTurn ==> markers == [])
    && (CellCount - |b| >= BallsPerTurn ==>
          |markers| == BallsPerTurn && forall i :: 0 <= i < |markers| ==> markers[i].color == nextBalls[i])
  }

  /** What generateNextBallPositions promises is a preview of the next batch. */
  lemma GeneratedIsPreview(b: Board, nextBalls: seq<Color>, markers: seq<NextBall>)
    requires |nextBalls| == BallsPerTurn
    requires CellCount - |b| < |nextBalls| ==> markers == []
    requires CellCount - |b| >= |nextBalls| ==>
      |markers| == |nextBalls| && forall i :: 0 <= i < |nextBalls| ==> markers[i].color == nextBalls[i]
    requires Distinct(Positions(markers))
    requires forall i :: 0 <= i < |markers| ==> Free(b, markers[i].position)
    ensures Previewed(b, nextBalls, markers)
  {
  }

  /**
   * A spawn onto cells that are empty (drawn ones always are, preview
   * markers are when they are up to date) adds one ball per colour, with
   * consecutive ids, and keeps every ball already on the board.
   */
  lemma SpawnAddsBalls(b0: Board, markers: seq<NextBall>, colors: seq<Color>, base: int, placed: seq<Pos>, b1: Board)
    requires Spawned(b0, markers, colors, base, placed, b1)
    requires |markers| == |colors| ==> MarkersOk(markers) && forall i :: 0 <= i < |markers| ==> Free(b0, markers[i].position)
    ensures |b1| == |b0| + |colors|
    ensures forall i :: 0 <= i < |placed| ==> placed[i] in b1 && b1[placed[i]] == Ball(base + i, colors[i])
    ensures forall p :: p in b0 ==> p in b1 && b1[p] == b0[p]
  {
    assert Distinct(placed) && forall i :: 0 <= i < |placed| ==> placed[i] !in b0;
    PlaceCount(b0, placed, colors, base);
    PlaceDistinct(b0, placed, colors, base);
    PlaceFrame(b0, placed, colors, base);
  }

  /**
   * One addNewBalls on state s, apart from the history and the scheduled
   * line check, gives t: game over (and nothing else) when the board has
   * fewer empty cells than colours; otherwise the spawn, the id counter
   * advanced by the number of colours, the score unchanged and a new
   * preview for the new board.
   */
  ghost predicate SpawnStep(s: GameState, colors: seq<Color>, placed: seq<Pos>, t: GameState) {
    if CellCount - |s.grid| < |colors| then t == s.(gameOver := true)
    else
      && Spawned(s.grid, s.nextBallPositions, colors, s.ballIdCounter, placed, t.grid)
      && t.score == s.score && t.gameOver == s.gameOver
      && t.ballIdCounter == s.ballIdCounter + |colors|
      && Previewed(t.grid, t.nextBalls, t.nextBallPositions)
  }

  /**
   * The body of addNewBalls after the snapshot: game over when the board
   * has fewer empty cells than colours (nothing changes); otherwise the
   * spawn, then three fresh colours and their markers on the new board.
   */
  method Spawn(g: Grid, s: GameState, colors: seq<Color>) returns (t: GameState, over: bool, ghost placed: seq<Pos>)
    requires IsGrid(g) && s.grid == Cells(g) && MarkersOk(s.nextBallPositions)
    modifies g
    ensures SpawnStep(s, colors, placed, t) && Cells(g) == t.grid
    ensures over <==> CellCount - |s.grid| < |colors|
    ensures MarkersOk(t.nextBallPositions) && t.score == s.score
  {
    var positions := if |s.nextBallPositions| == |colors| then Positions(s.nextBallPositions) else [];
    var emptyCells := GetEmptyCells(g);
    if |emptyCells| < |colors| {
      return s.(gameOver := true), true, [];
    }
    assert ColorRolls([0, 0, 0]);
    var rolls :| |rolls| == BallsPerTurn && ColorRolls(rolls);
    var newNextBalls := GenerateRandomColors(BallsPerTurn, rolls);
    placed := PlaceBalls(g, positions, emptyCells, colors, s.ballIdCounter);
    var newMarkers := GenerateNextBallPositions(g, newNextBalls);
    GeneratedIsPreview(Cells(g), newNextBalls, newMarkers);
    t := s.(grid := Cells(g), ballIdCounter := s.ballIdCounter + |colors|,
            nextBalls := newNextBalls, nextBallPositions := newMarkers);
    over := false;
  }

  /**
   * findIndex over the markers: the first marker standing on p or on q, or
   * -1 when there is none.
   */
  function AffectedMarker(markers: seq<NextBall>, p: Pos, q: Pos): (k: int)
    ensures -1 <= k < |markers|
    ensures k == -1 <==> forall i :: 0 <= i < |markers| ==> markers[i].position != p && markers[i].position != q
    ensures k >= 0 ==> (markers[k].position == p || markers[k].position == q)
    ensures k >= 0 ==> forall i :: 0 <= i < k ==> markers[i].position != p && markers[i].position != q
  {
    if markers == [] then -1
    else if markers[0].position == p || markers[0].position == q then 0
    else
      var k := AffectedMarker(markers[1..], p, q);
      if k == -1 then -1 else k + 1
  }

  /** Proof measure for a flight: the indices of the markers standing on a cell of the path. */
  ghost function OnPath(markers: seq<NextBall>, path: seq<Pos>): set<int> {
    set i | 0 <= i < |markers| && markers[i].position in path
  }

  /**
   * r is markers with marker k moved, colour kept, to a cell of board b that
   * is empty, off the whole path and under no marker; the others stay.
   */
  ghost predicate Relocation(b: Board, path: seq<Pos>, markers: seq<NextBall>, k: int, r: seq<NextBall>)
    requires 0 <= k < |markers|
  {
    && |r| == |markers| && r[k].color == markers[k].color
    && Free(b, r[k].position) && r[k].position !in path && r[k].position !in Positions(markers)
    && forall i :: 0 <= i < |r| && i != k ==> r[i] == markers[i]
  }

  /**
   * The relocation step of the moving-ball effect: marker k moves to a cell
   * drawn by findNewRandomPosition (empty, off the whole path, not under
   * another marker) and keeps its colour; when there is no such cell the
   * markers stay as they are.
   */
  method Relocate(g: Grid, path: seq<Pos>, markers: seq<NextBall>, k: int) returns (r: seq<NextBall>)
    requires IsGrid(g) && 0 <= k < |markers|
    ensures r == markers <==>
      forall p :: !(Free(Cells(g), p) && p !in path && p !in Positions(markers))
    ensures r != markers ==> Relocation(Cells(g), path, markers, k, r)
  {
    var newPosition := FindNewRandomPosition(g, path, markers);
    if newPosition.None? {
      return markers;
    }
    r := markers[k := markers[k].(position := newPosition.value)];
    assert r[k].position != markers[k].position by {
      assert markers[k].position == Positions(markers)[k];
    }
  }

  /**
   * A relocation keeps the markers on distinct cells of the board, and the
   * marker it moves leaves the path, so fewer markers stand on the path.
   */
  lemma RelocateProgress(b: Board, path: seq<Pos>, markers: seq<NextBall>, k: int, r: seq<NextBall>)
    requires MarkersOk(markers) && 0 <= k < |markers| && markers[k].position in path
    requires Relocation(b, path, markers, k, r)
    ensures MarkersOk(r)
    ensures OnPath(r, path) < OnPath(markers, path)
  {
    forall i, j | 0 <= i < j < |r|
      ensures Positions(r)[i] != Positions(r)[j]
    {
      if i == k {
        assert markers[j].position == Positions(markers)[j];
      } else if j == k {
        assert markers[i].position == Positions(markers)[i];
      } else {
        assert Positions(markers)[i] != Positions(markers)[j];
      }
    }
    assert k in OnPath(markers, path) && k !in OnPath(r, path);
  }

  /**
   * One 50 ms step of a flight that has not reached its last cell: when a
   * marker sits on the cell the ball leaves or enters and a free cell off
   * the route is left, that marker moves there and the step is not taken;
   * otherwise the ball advances one cell.
   */
  method FlightStep(g: Grid, m: MovingBall, markers: seq<NextBall>) returns (r: seq<NextBall>, next: MovingBall)
    requires IsGrid(g) && MarkersOk(markers) && MovingOk(Some(m)) && m.currentStep < |m.path| - 1
    ensures MarkersOk(r) && MovingOk(Some(next))
    ensures var k := AffectedMarker(markers, m.path[m.currentStep], m.path[m.currentStep + 1]);
      && (r == markers ==>
            next == m.(currentStep := m.currentStep + 1)
            && (k == -1 || forall p :: !(Free(Cells(g), p) && p !in m.path && p !in Positions(markers))))
      && (r != markers ==>
            && next == m && k != -1
            && Relocation(Cells(g), m.path, markers, k, r)
            && OnPath(r, m.path) < OnPath(markers, m.path))
  {
    var k := AffectedMarker(markers, m.path[m.currentStep], m.path[m.currentStep + 1]);
    if k != -1 {
      r := Relocate(g, m.path, markers, k);
      if r != markers {
        RelocateProgress(Cells(g), m.path, markers, k, r);
        return r, m;
      }
    }
    return markers, m.(currentStep := m.currentStep + 1);
  }

  /** Clearing leaves the board as it was exactly when there is nothing to clear. */
  lemma ClearChangesBoard(b: Board)
    ensures (b - ClearSet(b) == b) <==> ClearSet(b) == {}
  {
    if ClearSet(b) != {} {
      var p :| p in ClearSet(b);
      assert p in b && p !in b - ClearSet(b);
    }
  }

  /** Five red balls at the left of the top row. */
  function FiveRed(): (b: Board)
    ensures forall c :: 0 <= c < 5 ==> Pos(0, c) in b && b[Pos(0, c)].color == Red
  {
    map c | c in {0, 1, 2, 3, 4} :: Pos(0, c) := Ball(c, Red)
  }

  /** A move that completes five in a row does clear balls. */
  lemma FiveInARowClears()
    ensures Pos(0, 0) in ClearSet(FiveRed())
  {
    var b := FiveRed();
    assert forall k :: 0 <= k < RequiredLineLength ==> ColorAt(b, Shift(Pos(0, 0), Horizontal, k)) == Some(Red);
    assert Window5(b, Shift(Pos(0, 0), Horizontal, 0), Horizontal);
    assert InLine(b, Pos(0, 0), Horizontal);
  }

  /**
   * The board-building part of initializeGame for the closure state s (whose
   * board is the new empty one): a fresh empty grid, three random colours,
   * a preview for them that the spawn makes obsolete, and the spawn itself.
   */
  method NewGame(s: GameState) returns (g: Grid, t: GameState, colors: seq<Color>, ghost placed: seq<Pos>)
    requires s.grid == map[] && MarkersOk(s.nextBallPositions)
    ensures fresh(g) && IsGrid(g) && Cells(g) == t.grid
    ensures |colors| == BallsPerTurn && |t.grid| == BallsPerTurn
    ensures Spawned(map[], s.nextBallPositions, colors, s.ballIdCounter, placed, t.grid)
    ensures Previewed(t.grid, t.nextBalls, t.nextBallPositions)
  {
    g := InitializeGrid();
    assert ColorRolls([0, 0, 0]);
    var rolls :| |rolls| == BallsPerTurn && ColorRolls(rolls);
    colors := GenerateRandomColors(BallsPerTurn, rolls);
    var initialPositions := GenerateNextBallPositions(g, colors);
    var over;
    t, over, placed := Spawn(g, s, colors);
    SpawnAddsBalls(map[], s.nextBallPositions, colors, s.ballIdCounter, placed, t.grid);
  }

  /** route is a legal route from `from` to `to` on board b, and no legal route is shorter. */
  ghost predicate ShortestRoute(b: Board, route: seq<Pos>, from: Pos, to: Pos) {
    IsPath(b, route, from, to) && forall p :: IsPath(b, p, from, to) ==> |route| <= |p|
  }

  /** There is no legal route from `from` to `to` on board b. */
  ghost predicate NoRoute(b: Board, from: Pos, to: Pos) {
    forall p :: !IsPath(b, p, from, to)
  }

  /**
   * findPath followed, when it finds a route, by startBallMovement: the
   * ball at `from` is lifted off the grid and set on its flight along `from`
   * and the route. A start cell without a ball finds a route but starts no
   * flight.
   */
  method TryMove(g: Grid, from: Pos, to: Pos) returns (route: Option<seq<Pos>>, moving: Option<MovingBall>)
    requires IsGrid(g) && InBounds(from) && InBounds(to) && to !in Cells(g)
    modifies g
    ensures route.None? ==> NoRoute(old(Cells(g)), from, to) && moving.None? && Cells(g) == old(Cells(g))
    ensures route.Some? ==> ShortestRoute(old(Cells(g)), route.value, from, to)
    ensures route.Some? && from in old(Cells(g)) ==>
      moving == Some(MovingBall(old(Cells(g))[from], [from] + route.value, 0)) && Cells(g) == old(Cells(g)) - {from}
    ensures route.Some? && from !in old(Cells(g)) ==> moving.None? && Cells(g) == old(Cells(g))
    ensures MovingOk(moving)
  {
    route := FindPath(g, from.row, from.col, to.row, to.col);
    if route.None? {
      assert g[to.row, to.col].None?;
      forall p ensures !IsPath(Cells(g), p, from, to) {
        assert !IsPath(Cells(g), p, Pos(from.row, from.col), Pos(to.row, to.col));
      }
      return route, None;
    }
    assert forall i :: 0 <= i < |route.value| ==> InBounds(route.value[i]) by {
      forall i | 0 <= i < |route.value|
        ensures InBounds(route.value[i])
      {
        if i > 0 {
          assert Free(Cells(g), route.value[i]);
        }
      }
    }
    moving := StartBallMovement(g, from, route.value);
  }

  /**
   * The boards of the history as the source's handleUndo leaves them. The
   * grid it passes to setGrid is the restored entry's own grid, so from then
   * on the live grid and that entry share their cells, and every in-place
   * write to the live grid (lifting a ball at the start of a move, its
   * landing, a spawn, a line clear) lands in the entry too. `shared` is the
   * index of that entry, if there is one; its slot in `boards` is stale
   * while the sharing lasts. The other fields of a snapshot are values and
   * are not affected. B is the type of a board; only equality of boards
   * matters here.
   */
  datatype SharedBoards<B> = SharedBoards(boards: seq<B>, shared: Option<nat>)

  predicate SharedOk<B>(h: SharedBoards<B>) {
    h.shared.Some? ==> h.shared.value < |h.boards|
  }

  /** The boards the entries hold while the live grid holds `live`. */
  function Seen<B>(h: SharedBoards<B>, live: B): (bs: seq<B>)
    ensures |bs| == |h.boards|
    ensures forall i :: 0 <= i < |bs| ==> bs[i] == if h.shared == Some(i) then live else h.boards[i]
  {
    seq(|h.boards|, i requires 0 <= i < |h.boards| => if h.shared == Some(i) then live else h.boards[i])
  }

  /**
   * saveStateToHistory of a deep copy b of the live grid: b is appended,
   * the oldest entry is dropped at capacity, and the shared entry stays
   * shared unless it is the one dropped.
   */
  function SaveShared<B>(h: SharedBoards<B>, b: B): (r: SharedBoards<B>)
    requires SharedOk(h)
    ensures SharedOk(r) && r.boards == SaveStateToHistory(h.boards, b)
  {
    var boards := SaveStateToHistory(h.boards, b);
    var dropped := |h.boards| + 1 - |boards|;
    SharedBoards(boards, if h.shared.Some? && h.shared.value >= dropped then Some(h.shared.value - dropped) else None)
  }

  /** Saving a copy and then looking at the entries is looking and then saving: sharing never changes a save. */
  lemma SaveSharedSeen<B>(h: SharedBoards<B>, b: B, live: B)
    requires SharedOk(h)
    ensures Seen(SaveShared(h, b), live) == SaveStateToHistory(Seen(h, live), b)
  {
    var r := SaveShared(h, b);
    var saved := SaveStateToHistory(Seen(h, live), b);
    forall i | 0 <= i < |r.boards|
      ensures Seen(r, live)[i] == saved[i]
    {
      SaveSharedSeenAt(h, b, live, i);
    }
  }

  /** One entry of SaveSharedSeen: the entry at i holds the same board either way. */
  lemma SaveSharedSeenAt<B>(h: SharedBoards<B>, b: B, live: B, i: nat)
    requires SharedOk(h) && i < |SaveShared(h, b).boards|
    ensures Seen(SaveShared(h, b), live)[i] == SaveStateToHistory(Seen(h, live), b)[i]
  {
    var n := |SaveShared(h, b).boards|;
    var d := |h.boards| + 1 - n;
    SaveSharedAt(h, b, i);
    if i + 1 < n {
      var seen := Seen(h, live);
      SaveShiftsBack(seen, b, i);
      assert seen[d + i] == if h.shared == Some(d + i) then live else h.boards[d + i];
    }
  }

  /**
   * A save keeps every older entry, and whether it is shared, shifted down
   * by the entries dropped; the new last entry is the copy, never shared.
   */
  lemma SaveSharedAt<B>(h: SharedBoards<B>, b: B, i: nat)
    requires SharedOk(h) && i < |SaveShared(h, b).boards|
    ensures var r := SaveShared(h, b);
      var d := |h.boards| + 1 - |r.boards|;
      && r.boards[i] == (if i + 1 == |r.boards| then b else h.boards[d + i])
      && (r.shared == Some(i) <==> i + 1 < |r.boards| && h.shared == Some(d + i))
  {
    if i + 1 < |SaveShared(h, b).boards| {
      SaveShiftsBack(h.boards, b, i);
    }
  }

  /**
   * handleUndo as written, on the boards: the newest entry is dropped and
   * the live grid becomes the grid of the entry before it, which is the
   * shared entry from then on; the entry shared until now keeps what it
   * holds at this moment. Right after the undo nothing looks wrong: the
   * entries hold what they held, minus the newest, and the live grid holds
   * the board of the restored entry.
   */
  function UndoShared<B>(h: SharedBoards<B>, live: B): (r: (SharedBoards<B>, B))
    requires SharedOk(h) && |h.boards| > 1
    ensures SharedOk(r.0) && r.0.shared == Some(|h.boards| - 2)
    ensures r.1 == Seen(h, live)[|h.boards| - 2]
    ensures Seen(r.0, r.1) == Seen(h, live)[..|h.boards| - 1]
  {
    var seen := Seen(h, live);
    (SharedBoards(seen[..|seen| - 1], Some(|seen| - 2)), seen[|seen| - 2])
  }

  /**
   * The line check after a spawn replaces the live grid by a copy with new
   * cells, which ends the sharing: each entry keeps what it holds, whatever
   * the live grid holds afterwards.
   */
  function Unshare<B(!new)>(h: SharedBoards<B>, live: B): (r: SharedBoards<B>)
    ensures SharedOk(r) && r.shared.None?
    ensures forall next: B :: Seen(r, next) == Seen(h, live)
  {
    SharedBoards(Seen(h, live), None)
  }

  /**
   * As written, a second undo after a turn restores the wrong board. The
   * history holds boards a and b, and the live grid holds b. Undo restores
   * a, which now shares the live grid. The next move saves a copy of a and
   * moves the ball (live grid m); the spawn saves a copy of m and places
   * its balls (live grid p); its line check replaces the live grid by a
   * copy. Undo restores the copy of a, but a second undo restores p, the
   * board from before the first of these undos, where a was saved.
   */
  lemma SecondUndoAsWritten(a: Board, b: Board, m: Board, p: Board)
    ensures var (h1, live1) := UndoShared(SharedBoards([a, b], None), b);
      var h4 := Unshare(SaveShared(SaveShared(h1, live1), m), p);
      var (h5, live5) := UndoShared(h4, p);
      var (h6, live6) := UndoShared(h5, live5);
      live1 == a && live5 == a && live6 == p
  {
  }

  class Game {
    var grid: Grid
    var score: int
    var nextBalls: seq<Color>
    var nextBallPositions: seq<NextBall>
    var ballIdCounter: int
    var movingBall: Option<MovingBall>
    var selectedCell: Option<Pos>
    var gameOver: bool
    var gameHistory: seq<GameState>
    var pending: seq<Callback>

    ghost predicate Valid()
      reads this, grid
    {
      && IsGrid(grid)
      && MarkersOk(nextBallPositions)
      && MovingOk(movingBall)
      && (selectedCell.Some? ==> InBounds(selectedCell.value))
      && SnapshotsOk(gameHistory)
    }

    /** The deep copy addNewBalls and handleCellClick push onto the history. */
    function Snapshot(): (s: GameState)
      requires IsGrid(grid)
      reads this, grid
      ensures s.grid == Cells(grid) && s.score == score && s.ballIdCounter == ballIdCounter
      ensures s.nextBalls == nextBalls && s.gameOver == gameOver && s.nextBallPositions == nextBallPositions
    {
      GameState(Cells(grid), score, nextBalls, ballIdCounter, gameOver, nextBallPositions)
    }

    /** The state before the first initializeGame: an empty board and empty lists. */
    constructor()
      ensures Valid() && Cells(grid) == map[] && score == 0 && ballIdCounter == 0
      ensures nextBalls == [] && nextBallPositions == [] && gameHistory == [] && pending == []
      ensures movingBall.None? && selectedCell.None? && !gameOver
    {
      var g := InitializeGrid();
      grid := g;
      score := 0;
      nextBalls := [];
      nextBallPositions := [];
      ballIdCounter := 0;
      movingBall := None;
      selectedCell := None;
      gameOver := false;
      gameHistory := [];
      pending := [];
    }

    /**
     * addNewBalls(grid, colors): pushes a snapshot of the current state,
     * then runs Spawn on the live grid; on game over only the flag is set,
     * otherwise the counter advances by the number of balls placed, the new
     * preview replaces the old one and the line check is scheduled.
     */
    method AddNewBalls(colors: seq<Color>) returns (ghost placed: seq<Pos>)
      requires Valid()
      modifies this, grid
      ensures Valid() && grid == old(grid) && movingBall == old(movingBall) && selectedCell == old(selectedCell)
      ensures gameHistory == SaveStateToHistory(old(gameHistory), old(Snapshot()))
      ensures SpawnStep(old(Snapshot()), colors, placed, Snapshot()) && score == old(score)
      ensures pending == if old(CellCount - |Cells(grid)|) < |colors| then old(pending) else old(pending) + [LinesAfterSpawn]
    {
      var snapshot := Snapshot();
      SaveKeepsSnapshotsOk(gameHistory, snapshot);
      gameHistory := SaveStateToHistory(gameHistory, snapshot);
      var next, over;
      next, over, placed := Spawn(grid, snapshot, colors);
      SetState(next);
      pending := if over then pending else pending + [LinesAfterSpawn];
    }

    /**
     * initializeGame, with the closure semantics of the source: the reset
     * setters only take effect afterwards, so the nested addNewBalls still
     * sees the score, colours, id counter, game-over flag and markers of the
     * state before the reset (only its board is the new empty one). Its
     * snapshot of that state becomes the whole history, the three balls of
     * the fresh colours get ids from the old counter, the counter itself
     * becomes 0 + 3, and the preview made here is replaced by the one the
     * spawn makes.
     */
    method InitializeGame() returns (ghost colors: seq<Color>, ghost placed: seq<Pos>)
      requires Valid()
      modifies this
      ensures Valid() && fresh(grid)
      ensures |Cells(grid)| == BallsPerTurn
      ensures Spawned(map[], old(nextBallPositions), colors, old(ballIdCounter), placed, Cells(grid))
      ensures Previewed(Cells(grid), nextBalls, nextBallPositions)
      ensures score == 0 && ballIdCounter == BallsPerTurn && !gameOver
      ensures selectedCell.None? && movingBall.None?
      ensures gameHistory == [GameState(map[], old(score), old(nextBalls), old(ballIdCounter), old(gameOver), old(nextBallPositions))]
      ensures pending == old(pending) + [LinesAfterSpawn]
    {
      var stale := GameState(map[], score, nextBalls, ballIdCounter, gameOver, nextBallPositions);
      var newGrid, next, initialNextBalls;
      newGrid, next, initialNextBalls, placed := NewGame(stale);
      grid := newGrid;
      SetState(next.(score := 0, ballIdCounter := |initialNextBalls|, gameOver := false));
      SetRecords(SaveStateToHistory([], stale), pending + [LinesAfterSpawn], None, None);
      colors := initialNextBalls;
    }

    /**
     * One run of the moving-ball effect, followed by its step timer unless
     * the run itself triggers another run. On the last step the ball is
     * written to the end of its route (over whatever the cell holds), the
     * flight ends and the line check is scheduled. Otherwise the first
     * marker on the current or the next cell of the route is moved off the
     * route; that update re-runs the effect, whose cleanup cancels the step
     * timer, so the step only advances once no marker is moved.
     */
    method AdvanceMovingBall()
      requires Valid() && movingBall.Some?
      modifies this, grid
      ensures Valid() && grid == old(grid)
      ensures score == old(score) && nextBalls == old(nextBalls) && ballIdCounter == old(ballIdCounter)
      ensures gameOver == old(gameOver) && selectedCell == old(selectedCell) && gameHistory == old(gameHistory)
      ensures var m := old(movingBall.value);
        m.currentStep >= |m.path| - 1 ==>
          && movingBall.None? && Cells(grid) == old(Cells(grid))[m.path[|m.path| - 1] := m.ball]
          && nextBallPositions == old(nextBallPositions) && pending == old(pending) + [LinesAfterMove]
      ensures var m := old(movingBall.value);
        m.currentStep < |m.path| - 1 ==>
          var k := AffectedMarker(old(nextBallPositions), m.path[m.currentStep], m.path[m.currentStep + 1]);
          && Cells(grid) == old(Cells(grid)) && pending == old(pending)
          && (nextBallPositions == old(nextBallPositions) ==>
                movingBall == Some(m.(currentStep := m.currentStep + 1))
                && (k == -1 || forall p :: !(Free(Cells(grid), p) && p !in m.path && p !in Positions(nextBallPositions))))
          && (nextBallPositions != old(nextBallPositions) ==>
                && movingBall == old(movingBall) && k != -1
                && Relocation(Cells(grid), m.path, old(nextBallPositions), k, nextBallPositions)
                && OnPath(nextBallPositions, m.path) < OnPath(old(nextBallPositions), m.path))
    {
      var m := movingBall.value;
      if m.currentStep >= |m.path| - 1 {
        var finalPosition := m.path[|m.path| - 1];
        PutBall(grid, finalPosition, m.ball);
        SetRecords(gameHistory, pending + [LinesAfterMove], selectedCell, None);
        return;
      }
      var r, next := FlightStep(grid, m, nextBallPositions);
      SetState(Snapshot().(nextBallPositions := r));
      SetRecords(gameHistory, pending, selectedCell, Some(next));
    }

    /**
     * The 100 ms callback after a landing, as written: removeLines clears
     * the board in place, and the two grids the callback then compares share
     * their cells with the live grid, so they always show the same board and
     * addNewBalls runs whether or not lines were cleared. Its snapshot has
     * the cleared board but the score from before the clear, because the
     * score setter only takes effect afterwards.
     */
    method CheckLinesAfterMoveAsWritten() returns (ghost placed: seq<Pos>)
      requires Valid()
      modifies this, grid
      ensures Valid() && grid == old(grid) && movingBall == old(movingBall) && selectedCell == old(selectedCell)
      ensures var cleared := old(Cells(grid)) - ClearSet(old(Cells(grid)));
        var before := old(Snapshot()).(grid := cleared);
        && gameHistory == SaveStateToHistory(old(gameHistory), before)
        && SpawnStep(before, old(nextBalls), placed, Snapshot().(score := old(score)))
        && score == old(score) + |ClearSet(old(Cells(grid)))|
        && pending == if CellCount - |cleared| < |old(nextBalls)| then old(pending) else old(pending) + [LinesAfterSpawn]
    {
      placed := [];
      var newGrid := grid;
      var newScore, _ := RemoveLines(grid, score);
      var gridAfterMove := grid;
      if Cells(gridAfterMove) == Cells(newGrid) {
        placed := AddNewBalls(nextBalls);
      }
      SetScore(newScore);
    }

    /**
     * The 100 ms callback after a landing, as intended: the board is
     * compared with a copy taken before the clear, so new balls come only
     * after a move that completes no line; a move that clears lines just
     * scores them.
     */
    method CheckLinesAfterMove() returns (ghost placed: seq<Pos>)
      requires Valid()
      modifies this, grid
      ensures Valid() && grid == old(grid) && movingBall == old(movingBall) && selectedCell == old(selectedCell)
      ensures ClearSet(old(Cells(grid))) == {} ==>
        && gameHistory == SaveStateToHistory(old(gameHistory), old(Snapshot()))
        && SpawnStep(old(Snapshot()), old(nextBalls), placed, Snapshot())
        && pending == if CellCount - old(|Cells(grid)|) < |old(nextBalls)| then old(pending) else old(pending) + [LinesAfterSpawn]
      ensures ClearSet(old(Cells(grid))) != {} ==>
        && Snapshot() == old(Snapshot()).(grid := old(Cells(grid)) - ClearSet(old(Cells(grid))),
                                          score := old(score) + |ClearSet(old(Cells(grid)))|)
        && gameHistory == old(gameHistory) && pending == old(pending)
    {
      placed := [];
      var before := Cells(grid);
      var newScore, _ := RemoveLines(grid, score);
      ClearChangesBoard(before);
      if Cells(grid) == before {
        placed := AddNewBalls(nextBalls);
      }
      SetScore(newScore);
    }

    /** The 300 ms callback after a spawn: the lines the new balls complete are cleared and scored. */
    method CheckLinesAfterSpawn()
      requires Valid()
      modifies this, grid
      ensures Valid() && grid == old(grid) && movingBall == old(movingBall) && selectedCell == old(selectedCell)
      ensures Snapshot() == old(Snapshot()).(grid := old(Cells(grid)) - ClearSet(old(Cells(grid))),
                                             score := old(score) + |ClearSet(old(Cells(grid)))|)
      ensures gameHistory == old(gameHistory) && pending == old(pending)
    {
      var newScore, _ := RemoveLines(grid, score);
      SetScore(newScore);
    }

    /**
     * One scheduled callback fires, as the source runs it: the after-move
     * check is the one as written, which spawns even after a clear. Which
     * callback fires is the caller's choice: the two delays differ, so
     * callbacks need not fire in the order they were scheduled.
     */
    method FirePending(i: nat) returns (ghost placed: seq<Pos>)
      requires Valid() && i < |pending|
      modifies this, grid
      ensures Valid() && grid == old(grid) && movingBall == old(movingBall) && selectedCell == old(selectedCell)
      ensures old(pending[i]) == LinesAfterSpawn ==>
        && Snapshot() == old(Snapshot()).(grid := old(Cells(grid)) - ClearSet(old(Cells(grid))),
                                          score := old(score) + |ClearSet(old(Cells(grid)))|)
        && gameHistory == old(gameHistory)
        && pending == old(pending[..i] + pending[i + 1..])
      ensures old(pending[i]) == LinesAfterMove ==>
        var cleared := old(Cells(grid)) - ClearSet(old(Cells(grid)));
        var before := old(Snapshot()).(grid := cleared);
        var rest := old(pending[..i] + pending[i + 1..]);
        && gameHistory == SaveStateToHistory(old(gameHistory), before)
        && SpawnStep(before, old(nextBalls), placed, Snapshot().(score := old(score)))
        && score == old(score) + |ClearSet(old(Cells(grid)))|
        && pending == if CellCount - |cleared| < |old(nextBalls)| then rest else rest + [LinesAfterSpawn]
    {
      var callback := pending[i];
      match callback {
        case LinesAfterMove =>
          placed := CheckLinesAfterMoveAsWritten();
        case LinesAfterSpawn =>
          CheckLinesAfterSpawn();
          placed := [];
      }
      Unschedule(i, old(pending));
    }

    /**
     * One scheduled callback fires in the game as intended: a move that
     * clears lines is not followed by new balls.
     */
    method FirePendingIntended(i: nat) returns (ghost placed: seq<Pos>)
      requires Valid() && i < |pending|
      modifies this, grid
      ensures Valid() && grid == old(grid) && movingBall == old(movingBall) && selectedCell == old(selectedCell)
      ensures old(pending[i]) == LinesAfterSpawn || ClearSet(old(Cells(grid))) != {} ==>
        && Snapshot() == old(Snapshot()).(grid := old(Cells(grid)) - ClearSet(old(Cells(grid))),
                                          score := old(score) + |ClearSet(old(Cells(grid)))|)
        && gameHistory == old(gameHistory)
        && pending == old(pending[..i] + pending[i + 1..])
      ensures old(pending[i]) == LinesAfterMove && ClearSet(old(Cells(grid))) == {} ==>
        var rest := old(pending[..i] + pending[i + 1..]);
        && gameHistory == SaveStateToHistory(old(gameHistory), old(Snapshot()))
        && SpawnStep(old(Snapshot()), old(nextBalls), placed, Snapshot())
        && pending == if CellCount - old(|Cells(grid)|) < |old(nextBalls)| then rest else rest + [LinesAfterSpawn]
    {
      var callback := pending[i];
      match callback {
        case LinesAfterMove =>
          placed := CheckLinesAfterMove();
        case LinesAfterSpawn =>
          CheckLinesAfterSpawn();
          placed := [];
      }
      Unschedule(i, old(pending));
    }

    /**
     * handleCellClick(row, col). Nothing happens while the game is over or
     * a ball is in flight. Without a selection a click on a ball selects it.
     * With one, a click on the selected cell deselects it, a click on
     * another ball selects that ball instead, and a click on an empty cell
     * looks for a shortest route there; when there is one the state is
     * saved to the history, the ball starts its flight and the selection is
     * cleared, and when there is none nothing changes.
     */
    method HandleCellClick(row: int, col: int) returns (ghost route: Option<seq<Pos>>)
      requires Valid() && InBounds(Pos(row, col))
      modifies this, grid
      ensures Valid() && grid == old(grid)
      ensures score == old(score) && nextBalls == old(nextBalls) && nextBallPositions == old(nextBallPositions)
      ensures ballIdCounter == old(ballIdCounter) && gameOver == old(gameOver) && pending == old(pending)
      ensures route.None? ==>
        Cells(grid) == old(Cells(grid)) && movingBall == old(movingBall) && gameHistory == old(gameHistory)
      ensures old(gameOver || movingBall.Some?) ==> route.None? && selectedCell == old(selectedCell)
      ensures !old(gameOver || movingBall.Some?) && old(selectedCell).None? ==>
        route.None? && selectedCell == if Pos(row, col) in old(Cells(grid)) then Some(Pos(row, col)) else None
      ensures !old(gameOver || movingBall.Some?) && old(selectedCell) == Some(Pos(row, col)) ==>
        route.None? && selectedCell.None?
      ensures !old(gameOver || movingBall.Some?) && old(selectedCell).Some? && old(selectedCell) != Some(Pos(row, col)) ==>
        var from, to, b := old(selectedCell.value), Pos(row, col), old(Cells(grid));
        && (to in b ==> route.None? && selectedCell == Some(to))
        && (to !in b && route.None? ==> selectedCell == old(selectedCell) && NoRoute(b, from, to))
        && (route.Some? ==>
              && to !in b && ShortestRoute(b, route.value, from, to)
              && gameHistory == SaveStateToHistory(old(gameHistory), old(Snapshot()))
              && selectedCell.None?
              && (from in b ==> movingBall == Some(MovingBall(b[from], [from] + route.value, 0)) && Cells(grid) == b - {from})
              && (from !in b ==> movingBall == old(movingBall) && Cells(grid) == b))
    {
      route := None;
      if gameOver || movingBall.Some? {
        return;
      }
      var cell := grid[row, col];
      label Start:
      if selectedCell.Some? {
        var from := selectedCell.value;
        if from == Pos(row, col) {
          selectedCell := None;
        } else if cell.Some? {
          selectedCell := Some(Pos(row, col));
        } else {
          route := MoveSelected(from, Pos(row, col));
          return;
        }
      } else if cell.Some? {
        selectedCell := Some(Pos(row, col));
      }
      CellsUnchanged@Start(grid);
    }

    /**
     * The move branch of handleCellClick: the selected ball at `from` and
     * the empty cell `to`. When the pathfinder finds a route the state is
     * saved to the history, the ball (if the cell still holds one) starts
     * its flight and the selection is cleared; otherwise nothing changes.
     */
    method MoveSelected(from: Pos, to: Pos) returns (route: Option<seq<Pos>>)
      requires Valid() && InBounds(from) && InBounds(to) && to !in Cells(grid)
      modifies this, grid
      ensures Valid() && grid == old(grid)
      ensures score == old(score) && nextBalls == old(nextBalls) && nextBallPositions == old(nextBallPositions)
      ensures ballIdCounter == old(ballIdCounter) && gameOver == old(gameOver) && pending == old(pending)
      ensures route.None? ==>
        && Cells(grid) == old(Cells(grid)) && movingBall == old(movingBall) && gameHistory == old(gameHistory)
        && selectedCell == old(selectedCell) && NoRoute(old(Cells(grid)), from, to)
      ensures route.Some? ==>
        var b := old(Cells(grid));
        && ShortestRoute(b, route.value, from, to)
        && gameHistory == SaveStateToHistory(old(gameHistory), old(Snapshot()))
        && selectedCell.None?
        && (from in b ==> movingBall == Some(MovingBall(b[from], [from] + route.value, 0)) && Cells(grid) == b - {from})
        && (from !in b ==> movingBall == old(movingBall) && Cells(grid) == b)
    {
      var snapshot := Snapshot();
      var moving;
      route, moving := TryMove(grid, from, to);
      if route.None? {
        return;
      }
      SaveKeepsSnapshotsOk(gameHistory, snapshot);
      var flight := if moving.Some? then moving else movingBall;
      SetRecords(SaveStateToHistory(gameHistory, snapshot), pending, None, flight);
    }

    /**
     * handleUndo: refused while fewer than two snapshots are kept or a ball
     * is in flight. Otherwise the newest snapshot is dropped and the game
     * returns to the one before it (every snapshot field, the board
     * included), with no selection and no ball in flight.
     */
    method HandleUndo()
      requires Valid()
      modifies this
      ensures Valid() && pending == old(pending)
      ensures !old(CanUndo(gameHistory, movingBall.Some?)) ==> unchanged(this)
      ensures old(CanUndo(gameHistory, movingBall.Some?)) ==>
        && gameHistory == old(gameHistory[..|gameHistory| - 1])
        && Snapshot() == old(gameHistory[|gameHistory| - 2])
        && fresh(grid) && selectedCell.None? && movingBall.None?
    {
      if !CanUndo(gameHistory, movingBall.Some?) {
        return;
      }
      var newHistory := gameHistory[..|gameHistory| - 1];
      var previousState := newHistory[|newHistory| - 1];
      assert SnapshotOk(gameHistory[|gameHistory| - 2]);
      var restored := GridOf(previousState.grid);
      grid := restored;
      SetState(previousState);
      selectedCell := None;
      movingBall := None;
      gameHistory := newHistory;
    }

    /**
     * Drops the callback that fired, the i-th of `scheduled`, from the
     * pending ones; those it scheduled itself stay after the others.
     */
    method Unschedule(i: nat, ghost scheduled: seq<Callback>)
      requires Valid() && i < |scheduled| && scheduled <= pending
      modifies this
      ensures Valid() && grid == old(grid) && Snapshot() == old(Snapshot())
      ensures movingBall == old(movingBall) && selectedCell == old(selectedCell) && gameHistory == old(gameHistory)
      ensures pending == scheduled[..i] + scheduled[i + 1..] + old(pending[|scheduled|..])
    {
      assert pending == scheduled + pending[|scheduled|..];
      ghost var added := pending[|scheduled|..];
      var rest := pending[..i] + pending[i + 1..];
      assert rest == scheduled[..i] + scheduled[i + 1..] + added;
      SetRecords(gameHistory, rest, selectedCell, movingBall);
    }

    /** The history, the scheduled callbacks, the selection and the flight, which no snapshot records. */
    method SetRecords(history: seq<GameState>, callbacks: seq<Callback>, selection: Option<Pos>, flight: Option<MovingBall>)
      requires IsGrid(grid)
      modifies this
      ensures grid == old(grid) && Snapshot() == old(Snapshot())
      ensures gameHistory == history && pending == callbacks && selectedCell == selection && movingBall == flight
    {
      label Before:
      gameHistory, pending, selectedCell, movingBall := history, callbacks, selection, flight;
      CellsUnchanged@Before(grid);
    }

    /** setScore with a value computed from the closure's score: only the score changes. */
    method SetScore(newScore: int)
      requires IsGrid(grid)
      modifies this
      ensures grid == old(grid) && Snapshot() == old(Snapshot()).(score := newScore)
      ensures movingBall == old(movingBall) && selectedCell == old(selectedCell)
      ensures gameHistory == old(gameHistory) && pending == old(pending)
    {
      label Before:
      score := newScore;
      CellsUnchanged@Before(grid);
    }

    /**
     * The state setters of a snapshot's fields, applied together: the live
     * grid already holds the snapshot's board, and every other field takes
     * the snapshot's value.
     */
    method SetState(s: GameState)
      requires IsGrid(grid) && Cells(grid) == s.grid
      modifies this
      ensures grid == old(grid) && movingBall == old(movingBall) && selectedCell == old(selectedCell)
      ensures Snapshot() == s
      ensures gameHistory == old(gameHistory) && pending == old(pending)
    {
      label Before:
      score, nextBalls, ballIdCounter, gameOver, nextBallPositions :=
        s.score, s.nextBalls, s.ballIdCounter, s.gameOver, s.nextBallPositions;
      CellsUnchanged@Before(grid);
    }
  }
}
