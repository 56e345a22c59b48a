/**
 * Spawning and moving balls, after hooks/use-balls.ts: drawing the colours
 * of the next batch, choosing distinct empty cells for it, lifting a ball
 * off the board to start a move, and finding a fresh cell for a preview
 * marker that a moving ball is about to cross.
 *
 * Every Math.random() draw becomes an arbitrary index in range: a `roll`
 * parameter for the pure functions, a `:|` choice inside methods.
 */
module Balls {
  import opened Types
  import opened GridOps

  /** A ball in flight: the ball, the cells it visits, and how far along it is. */
  datatype MovingBall = MovingBall(ball: Ball, path: seq<Pos>, currentStep: nat)

  /** A roll picks one of the colours. */
  predicate ColorRolls(rolls: seq<nat>) {
    forall i :: 0 <= i < |rolls| ==> rolls[i] < |Colors|
  }

  /** generateRandomColors: `count` colours, the i-th chosen by the i-th roll. */
  function GenerateRandomColors(count: nat, rolls: seq<nat>): (colors: seq<Color>)
    requires |rolls| == count && ColorRolls(rolls)
    ensures |colors| == count && forall i :: 0 <= i < count ==> colors[i] == Colors[rolls[i]]
  {
    seq(count, i requires 0 <= i < count => Colors[rolls[i]])
  }

  /** Position of a colour in the COLORS table. */
  function ColorIndex(c: Color): (k: nat)
    ensures k < |Colors| && Colors[k] == c
  {
    match c
    case Red => 0
    case Blue => 1
    case Green => 2
    case Yellow => 3
    case Purple => 4
  }

  /** Every sequence of colours is a possible draw: the rolls that pick each colour produce it. */
  lemma EveryDrawPossible(colors: seq<Color>)
    ensures var rolls := seq(|colors|, i requires 0 <= i < |colors| => ColorIndex(colors[i]));
      ColorRolls(rolls) && GenerateRandomColors(|colors|, rolls) == colors
  {
    var rolls := seq(|colors|, i requires 0 <= i < |colors| => ColorIndex(colors[i]));
    var drawn := GenerateRandomColors(|colors|, rolls);
    forall i | 0 <= i < |colors|
      ensures drawn[i] == colors[i]
    {
      assert rolls[i] == ColorIndex(colors[i]);
    }
  }

  /** splice(k, 1) on a list without repeats: the k-th entry is gone and nothing else. */
  lemma SpliceOut(cells: seq<Pos>, k: int)
    requires Distinct(cells) && 0 <= k < |cells|
    ensures var rest := cells[..k] + cells[k + 1..];
      |rest| == |cells| - 1 && Distinct(rest) &&
      forall p :: p in rest <==> p in cells && p != cells[k]
  {
    var rest := cells[..k] + cells[k + 1..];
    forall i, j | 0 <= i < j < |rest|
      ensures rest[i] != rest[j]
    {
      var i' := if i < k then i else i + 1;
      var j' := if j < k then j else j + 1;
      assert rest[i] == cells[i'] && rest[j] == cells[j'];
    }
    forall p | p in cells && p != cells[k]
      ensures p in rest
    {
      var i :| 0 <= i < |cells| && cells[i] == p;
      if i < k {
        assert rest[i] == p;
      } else {
        assert rest[i - 1] == p;
      }
    }
  }

  /**
   * generateNextBallPositions: nothing when the grid has fewer empty cells
   * than colours; otherwise one marker per colour, in order, each on an
   * empty cell drawn from those not drawn yet (the drawn cell is spliced
   * out of the list), so the cells are pairwise distinct.
   */
  method GenerateNextBallPositions(g: Grid, colors: seq<Color>) returns (positions: seq<NextBall>)
    requires IsGrid(g)
    ensures CellCount - |Cells(g)| < |colors| ==> positions == []
    ensures CellCount - |Cells(g)| >= |colors| ==>
      |positions| == |colors| && forall i :: 0 <= i < |colors| ==> positions[i].color == colors[i]
    ensures Distinct(Positions(positions))
    ensures forall i :: 0 <= i < |positions| ==> Free(Cells(g), positions[i].position)
  {
    ghost var b := Cells(g);
    var emptyCells := GetEmptyCells(g);
    positions := [];
    if |emptyCells| < |colors| {
      return;
    }
    assert Distinct(emptyCells) by {
      forall i, j | 0 <= i < j < |emptyCells|
        ensures emptyCells[i] != emptyCells[j]
      {
        assert RowMajorBefore(emptyCells[i], emptyCells[j]);
      }
    }
    for i := 0 to |colors|
      invariant |positions| == i && |emptyCells| == CellCount - |b| - i
      invariant forall k :: 0 <= k < i ==> positions[k].color == colors[k]
      invariant Distinct(emptyCells) && forall p :: p in emptyCells ==> Free(b, p)
      invariant forall k :: 0 <= k < i ==> Free(b, positions[k].position) && positions[k].position !in emptyCells
      invariant forall k, l :: 0 <= k < l < i ==> positions[k].position != positions[l].position
    {
      if |emptyCells| == 0 {
        break;
      }
      var randomIndex :| 0 <= randomIndex < |emptyCells|;
      var position := emptyCells[randomIndex];
      SpliceOut(emptyCells, randomIndex);
      positions := positions + [NextBall(position, colors[i])];
      emptyCells := emptyCells[..randomIndex] + emptyCells[randomIndex + 1..];
    }
    assert Distinct(Positions(positions));
  }

  /**
   * startBallMovement: when the start cell holds no ball nothing happens.
   * Otherwise the start cell is emptied in place and the ball, with its id
   * and colour, begins a move along `from` followed by `path`. Since a path
   * from the pathfinder already begins at `from`, the first two steps of the
   * move are then the same cell.
   */
  method StartBallMovement(g: Grid, from: Pos, path: seq<Pos>) returns (moving: Option<MovingBall>)
    requires IsGrid(g) && InBounds(from)
    modifies g
    ensures old(g[from.row, from.col]).None? ==> moving.None? && Cells(g) == old(Cells(g))
    ensures old(g[from.row, from.col]).Some? ==>
      && moving == Some(MovingBall(old(g[from.row, from.col]).value, [from] + path, 0))
      && Cells(g) == old(Cells(g)) - {from}
    ensures moving.Some? && |path| > 0 && path[0] == from ==> moving.value.path[0] == moving.value.path[1]
  {
    ghost var b := Cells(g);
    var ball := g[from.row, from.col];
    if ball.None? {
      return None;
    }
    g[from.row, from.col] := None;
    CellsOf(g, b - {from});
    moving := Some(MovingBall(ball.value, [from] + path, 0));
  }

  /** The cells of `cells`, in order, that are neither excluded nor under a marker. */
  function Unclaimed(cells: seq<Pos>, excludePositions: seq<Pos>, markers: seq<NextBall>): (r: seq<Pos>)
    ensures forall p :: p in r <==> p in cells && p !in excludePositions && p !in Positions(markers)
  {
    if cells == [] then []
    else
      var rest := Unclaimed(cells[1..], excludePositions, markers);
      if cells[0] !in excludePositions && cells[0] !in Positions(markers) then [cells[0]] + rest else rest
  }

  /**
   * findNewRandomPosition: a cell that is empty, not excluded and not under
   * a marker, drawn among all such cells; none exactly when there is no such
   * cell.
   */
  method FindNewRandomPosition(g: Grid, excludePositions: seq<Pos>, markers: seq<NextBall>) returns (r: Option<Pos>)
    requires IsGrid(g)
    ensures r.None? <==>
      forall p :: !(Free(Cells(g), p) && p !in excludePositions && p !in Positions(markers))
    ensures r.Some? ==>
      Free(Cells(g), r.value) && r.value !in excludePositions && r.value !in Positions(markers)
  {
    var emptyCells := GetEmptyCells(g);
    var candidates := Unclaimed(emptyCells, excludePositions, markers);
    if |candidates| == 0 {
      assert forall p :: p !in candidates;
      return None;
    }
    var randomIndex :| 0 <= randomIndex < |candidates|;
    r := Some(candidates[randomIndex]);
    assert r.value in candidates;
  }
}
