/**
 * The data model shared by every part of the Line 98 engine: colours, balls,
 * positions, preview markers, the live 9x9 grid and its value view.
 */
module Types {

  datatype Option<T> = None | Some(value: T)

  /** The five ball colours, in the order of the COLORS table. */
  datatype Color = Red | Blue | Green | Yellow | Purple

  const Colors: seq<Color> := [Red, Blue, Green, Yellow, Purple]

  /** Side length of the board. */
  const GridSize: int := 9

  /** Number of cells of the board. */
  const CellCount: int := 81

  /** Balls spawned per turn. */
  const BallsPerTurn: nat := 3

  /** A ball keeps its id and colour for its whole life. */
  datatype Ball = Ball(id: int, color: Color)

  datatype Pos = Pos(row: int, col: int)

  /** A preview marker: where (and in which colour) a ball of the next batch will appear. */
  datatype NextBall = NextBall(position: Pos, color: Color)

  predicate InBounds(p: Pos) {
    0 <= p.row < 9 && 0 <= p.col < 9
  }

  /** Every position of the board. */
  function AllCells(): (s: set<Pos>)
    ensures forall p :: p in s <==> InBounds(p)
  {
    set r, c | 0 <= r < 9 && 0 <= c < 9 :: Pos(r, c)
  }

  /** p comes strictly before q in row-major order. */
  predicate RowMajorBefore(p: Pos, q: Pos) {
    p.row < q.row || (p.row == q.row && p.col < q.col)
  }

  /**
   * The live grid. A cell of the source is an object whose `ball` field is
   * written in place; here slot [r, c] of one shared array plays that role
   * (a cell's row and column are its indices and never change).
   */
  type Grid = array2<Option<Ball>>

  predicate IsGrid(g: Grid) {
    g.Length0 == 9 && g.Length1 == 9
  }

  /**
   * The value of a grid, as a deep copy sees it: the ball of every occupied
   * cell, keyed by the cell's position.
   */
  type Board = map<Pos, Ball>

  predicate IsBoard(b: Board) {
    forall p :: p in b ==> InBounds(p)
  }

  /** Deep copy of the live grid. */
  function Cells(g: Grid): (b: Board)
    requires IsGrid(g)
    reads g
    ensures IsBoard(b)
    ensures forall r, c :: 0 <= r < 9 && 0 <= c < 9 ==>
      (Pos(r, c) in b <==> g[r, c].Some?) && (Pos(r, c) in b ==> b[Pos(r, c)] == g[r, c].value)
  {
    map p | p in AllCells() && g[p.row, p.col].Some? :: g[p.row, p.col].value
  }

  /** Colour of the ball at p, or None for an empty or off-board cell. */
  function ColorAt(b: Board, p: Pos): Option<Color> {
    if p in b then Some(b[p].color) else None
  }

  /** A cell a moving ball may enter: on the board and without a ball. */
  predicate Free(b: Board, p: Pos) {
    InBounds(p) && p !in b
  }

  predicate Distinct<T(==)>(s: seq<T>) {
    forall i, j :: 0 <= i < j < |s| ==> s[i] != s[j]
  }

  function Positions(markers: seq<NextBall>): (ps: seq<Pos>)
    ensures |ps| == |markers| && forall i :: 0 <= i < |ps| ==> ps[i] == markers[i].position
  {
    seq(|markers|, i requires 0 <= i < |markers| => markers[i].position)
  }

  /** The cell at (r, c) as board b has it. */
  function CellOf(b: Board, r: int, c: int): Option<Ball> {
    if Pos(r, c) in b then Some(b[Pos(r, c)]) else None
  }

  /** A grid whose every cell agrees with board b holds b. */
  lemma CellsOf(g: Grid, b: Board)
    requires IsGrid(g) && IsBoard(b)
    requires forall r, c :: 0 <= r < 9 && 0 <= c < 9 ==> g[r, c] == CellOf(b, r, c)
    ensures Cells(g) == b
  {
    var v := Cells(g);
    forall p | InBounds(p)
      ensures (p in v <==> p in b) && (p in v ==> v[p] == b[p])
    {
      assert p == Pos(p.row, p.col);
    }
  }

  /** A grid whose cells were not written holds the same board as before. */
  twostate lemma CellsUnchanged(g: Grid)
    requires IsGrid(g) && unchanged(g)
    ensures Cells(g) == old(Cells(g))
  {
  }

  /** Writes a ball into one cell of the live grid, replacing whatever was there. */
  method PutBall(g: Grid, p: Pos, ball: Ball)
    requires IsGrid(g) && InBounds(p)
    modifies g
    ensures Cells(g) == old(Cells(g))[p := ball]
  {
    ghost var b := Cells(g)[p := ball];
    g[p.row, p.col] := Some(ball);
    CellsOf(g, b);
  }

  /** Allocates a grid holding the given board, as restoring a snapshot does. */
  method GridOf(b: Board) returns (g: Grid)
    requires IsBoard(b)
    ensures fresh(g) && IsGrid(g) && Cells(g) == b
  {
    g := new Option<Ball>[9, 9]((r, c) => CellOf(b, r, c));
    CellsOf(g, b);
  }
}
