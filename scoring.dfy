/**
 * The line detector and scorer of hooks/use-scoring.ts: four scanners that
 * collect every ball lying in a same-coloured run of five or more along a
 * row, a column or one of the two diagonals, and the clearing step that
 * empties the collected cells in place and adds their number to the score.
 */
module Scoring {
  import opened Types

  /** Balls of one colour that must stand in a row to be cleared. */
  const RequiredLineLength: int := 5

  /** The four scanning directions. */
  datatype Dir = Horizontal | Vertical | DownRight | DownLeft

  /** The cell k steps from p along d. */
  function Shift(p: Pos, d: Dir, k: int): Pos {
    match d
    case Horizontal => Pos(p.row, p.col + k)
    case Vertical => Pos(p.row + k, p.col)
    case DownRight => Pos(p.row + k, p.col + k)
    case DownLeft => Pos(p.row + k, p.col - k)
  }

  lemma ShiftShift(p: Pos, d: Dir, j: int, k: int)
    ensures Shift(Shift(p, d, j), d, k) == Shift(p, d, j + k)
  {
  }

  // ---------------------------------------------------------------------
  // What gets cleared
  // ---------------------------------------------------------------------

  /** Five cells from s along d hold balls of one colour. */
  ghost predicate Window5(b: Board, s: Pos, d: Dir) {
    ColorAt(b, s).Some? &&
    forall k :: 0 <= k < RequiredLineLength ==> ColorAt(b, Shift(s, d, k)) == ColorAt(b, s)
  }

  /** p lies in some run of five same-coloured balls along d: one starting at most four steps back. */
  ghost predicate InLine(b: Board, p: Pos, d: Dir) {
    exists k :: -RequiredLineLength < k <= 0 && Window5(b, Shift(p, d, k), d)
  }

  /** The ball at p belongs to a run of five or more in some direction. */
  ghost predicate Qualifies(b: Board, p: Pos) {
    InLine(b, p, Horizontal) || InLine(b, p, Vertical) || InLine(b, p, DownRight) || InLine(b, p, DownLeft)
  }

  /** The cells a clearing step empties. */
  ghost function ClearSet(b: Board): set<Pos> {
    set p | p in b && Qualifies(b, p)
  }

  // ---------------------------------------------------------------------
  // One line of the board, read as a sequence of colours
  // ---------------------------------------------------------------------

  /** Colours of the n cells from s along d. */
  ghost function LineColors(b: Board, s: Pos, d: Dir, n: nat): (line: seq<Option<Color>>)
    ensures |line| == n && forall j :: 0 <= j < n ==> line[j] == ColorAt(b, Shift(s, d, j))
  {
    seq(n, j requires 0 <= j => ColorAt(b, Shift(s, d, j)))
  }

  /** Entries w .. w+4 of the line hold one colour. */
  ghost predicate WindowAt(line: seq<Option<Color>>, w: int) {
    && 0 <= w && w + RequiredLineLength <= |line| && line[w].Some?
    && forall j :: w <= j < w + RequiredLineLength ==> line[j] == line[w]
  }

  /** Entry j of the line lies in a window of five of one colour. */
  ghost predicate InWindow(line: seq<Option<Color>>, j: int) {
    exists w :: w <= j < w + RequiredLineLength && WindowAt(line, w)
  }

  /**
   * A maximal run: entries a .. e-1 hold c, and c does not continue on
   * either side. Its entries lie in a window exactly when c is a colour and
   * the run is at least five long; a run of four is never collected.
   */
  lemma ClosedRun(line: seq<Option<Color>>, a: int, e: int, c: Option<Color>)
    requires 0 <= a <= e <= |line|
    requires forall j :: a <= j < e ==> line[j] == c
    requires c.Some? && a > 0 ==> line[a - 1] != c
    requires c.Some? && e < |line| ==> line[e] != c
    ensures forall j :: a <= j < e ==> (InWindow(line, j) <==> c.Some? && e - a >= RequiredLineLength)
  {
    forall j | a <= j < e
      ensures InWindow(line, j) <==> c.Some? && e - a >= RequiredLineLength
    {
      if c.Some? && e - a >= RequiredLineLength {
        var w := if j <= e - RequiredLineLength then j else e - RequiredLineLength;
        assert WindowAt(line, w);
      }
      if InWindow(line, j) {
        var w :| w <= j < w + RequiredLineLength && WindowAt(line, w);
        assert line[j] == line[w];
      }
    }
  }

  /** The offset along d of q from s, when q lies on the line from s. */
  function LineIndex(s: Pos, d: Dir, q: Pos): int {
    if d == Horizontal then q.col - s.col else q.row - s.row
  }

  /**
   * marks[j] records whether entry j of the line lies in a window of five.
   * The facts are made available where a window of the line is mentioned.
   */
  ghost predicate MarksOf(line: seq<Option<Color>>, marks: seq<bool>) {
    |marks| == |line| &&
    forall j {:trigger InWindow(line, j)} :: 0 <= j < |line| ==> (marks[j] <==> InWindow(line, j))
  }

  ghost function Marks(line: seq<Option<Color>>): (marks: seq<bool>)
    ensures MarksOf(line, marks)
  {
    seq(|line|, j requires 0 <= j < |line| => InWindow(line, j))
  }

  /** The cells at the marked offsets among the first hi of the line from s, in line order. */
  function Collect(marks: seq<bool>, s: Pos, d: Dir, hi: nat): seq<Pos>
    requires hi <= |marks|
  {
    if hi == 0 then []
    else Collect(marks, s, d, hi - 1) + (if marks[hi - 1] then [Shift(s, d, hi - 1)] else [])
  }

  /**
   * What a scan of a line collects is exactly its cells that lie in a
   * window: each sits on the line at an offset in a window, and each cell at
   * such an offset is there.
   */
  lemma {:induction false} CollectMembers(line: seq<Option<Color>>, marks: seq<bool>, s: Pos, d: Dir, hi: nat)
    requires MarksOf(line, marks) && hi <= |marks|
    ensures forall q :: q in Collect(marks, s, d, hi) ==>
      0 <= LineIndex(s, d, q) < hi && q == Shift(s, d, LineIndex(s, d, q)) && InWindow(line, LineIndex(s, d, q))
    ensures forall j :: 0 <= j < hi && InWindow(line, j) ==> Shift(s, d, j) in Collect(marks, s, d, hi)
  {
    if hi > 0 {
      CollectMembers(line, marks, s, d, hi - 1);
      assert marks[hi - 1] <==> InWindow(line, hi - 1);
    }
  }

  /** The cells lo .. hi-1 of the line, in order. */
  function Run(s: Pos, d: Dir, lo: int, hi: int): (r: seq<Pos>)
    ensures |r| == if lo <= hi then hi - lo else 0
    decreases hi - lo
  {
    if hi <= lo then [] else Run(s, d, lo, hi - 1) + [Shift(s, d, hi - 1)]
  }

  /**
   * Where a maximal run ends, the collected cells grow by the whole run when
   * it is a run of five or more balls, and by nothing otherwise.
   */
  lemma EndOfRun(line: seq<Option<Color>>, marks: seq<bool>, s: Pos, d: Dir, a: nat, e: nat, c: Option<Color>)
    requires MarksOf(line, marks) && a <= e <= |line|
    requires forall j :: a <= j < e ==> line[j] == c
    requires c.Some? && a > 0 ==> line[a - 1] != c
    requires c.Some? && e < |line| ==> line[e] != c
    ensures Collect(marks, s, d, e) ==
      Collect(marks, s, d, a) + (if c.Some? && e - a >= RequiredLineLength then Run(s, d, a, e) else [])
  {
    ClosedRun(line, a, e, c);
    forall j | a <= j < e
      ensures marks[j] <==> c.Some? && e - a >= RequiredLineLength
    {
      assert InWindow(line, j) <==> c.Some? && e - a >= RequiredLineLength;
    }
    if c.Some? && e - a >= RequiredLineLength {
      TakeRun(marks, s, d, a, e);
    } else {
      SkipRun(marks, s, d, a, e);
    }
  }

  /** A stretch with no marked entry adds nothing to the collected cells. */
  lemma {:induction false} SkipRun(marks: seq<bool>, s: Pos, d: Dir, a: nat, e: nat)
    requires a <= e <= |marks|
    requires forall j :: a <= j < e ==> !marks[j]
    ensures Collect(marks, s, d, e) == Collect(marks, s, d, a)
    decreases e - a
  {
    if a < e {
      SkipRun(marks, s, d, a, e - 1);
    }
  }

  /** A stretch whose every entry is marked is collected in full. */
  lemma {:induction false} TakeRun(marks: seq<bool>, s: Pos, d: Dir, a: nat, e: nat)
    requires a <= e <= |marks|
    requires forall j :: a <= j < e ==> marks[j]
    ensures Collect(marks, s, d, e) == Collect(marks, s, d, a) + Run(s, d, a, e)
    decreases e - a
  {
    if a < e {
      TakeRun(marks, s, d, a, e - 1);
      calc {
        Collect(marks, s, d, e);
        Collect(marks, s, d, e - 1) + [Shift(s, d, e - 1)];
        (Collect(marks, s, d, a) + Run(s, d, a, e - 1)) + [Shift(s, d, e - 1)];
        Collect(marks, s, d, a) + (Run(s, d, a, e - 1) + [Shift(s, d, e - 1)]);
        Collect(marks, s, d, a) + Run(s, d, a, e);
      }
    }
  }

  /** Colour of the ball held by a grid cell. */
  function CellColor(cell: Option<Ball>): Option<Color> {
    if cell.Some? then Some(cell.value.color) else None
  }

  /** The colours of a line of the board are those of the balls in the grid cells along it. */
  lemma LineOfGrid(g: Grid, s: Pos, d: Dir, n: nat)
    requires IsGrid(g)
    requires forall j :: 0 <= j < n ==> InBounds(Shift(s, d, j))
    ensures forall j :: 0 <= j < n ==>
      LineColors(Cells(g), s, d, n)[j] == CellColor(g[Shift(s, d, j).row, Shift(s, d, j).col])
  {
    forall j | 0 <= j < n
      ensures LineColors(Cells(g), s, d, n)[j] == CellColor(g[Shift(s, d, j).row, Shift(s, d, j).col])
    {
      var p := Shift(s, d, j);
      assert p == Pos(p.row, p.col);
    }
  }

  // ---------------------------------------------------------------------
  // Scanning one line
  // ---------------------------------------------------------------------

  /**
   * The state of a scan after the first i entries of the line: the current
   * run starts at `start` and holds `color`, it does not extend to the left,
   * `count` is its length (0 for a gap), and every finished run of five or
   * more has been pushed onto `acc0`.
   */
  ghost predicate Scanning(line: seq<Option<Color>>, marks: seq<bool>, s: Pos, d: Dir, acc0: seq<Pos>,
                           i: int, start: int, color: Option<Color>, count: int, acc: seq<Pos>)
  {
    && |marks| == |line| && 0 <= start <= i <= |line| && (i > 0 ==> start < i)
    && (forall j :: start <= j < i ==> line[j] == color)
    && (color.Some? && start > 0 ==> line[start - 1] != color)
    && count == (if color.Some? then i - start else 0)
    && acc == acc0 + Collect(marks, s, d, start)
  }

  /** The next entry continues the current run. */
  lemma ExtendRun(line: seq<Option<Color>>, marks: seq<bool>, s: Pos, d: Dir, acc0: seq<Pos>,
                  i: int, start: int, color: Option<Color>, count: int, acc: seq<Pos>)
    requires Scanning(line, marks, s, d, acc0, i, start, color, count, acc)
    requires i < |line| && line[i].Some? && line[i] == color
    ensures Scanning(line, marks, s, d, acc0, i + 1, start, color, count + 1, acc)
  {
  }

  /**
   * The next entry ends the current run: the run is pushed when it has five
   * or more balls, and a new run (or a gap) starts at the entry.
   */
  lemma BreakRun(line: seq<Option<Color>>, marks: seq<bool>, s: Pos, d: Dir, acc0: seq<Pos>,
                 i: int, start: int, color: Option<Color>, count: int, acc: seq<Pos>)
    requires MarksOf(line, marks) && Scanning(line, marks, s, d, acc0, i, start, color, count, acc)
    requires i < |line| && !(line[i].Some? && line[i] == color)
    ensures Scanning(line, marks, s, d, acc0, i + 1, i, line[i], if line[i].Some? then 1 else 0,
                     acc + if count >= RequiredLineLength then Run(s, d, start, i) else [])
  {
    EndOfRun(line, marks, s, d, start, i, color);
  }

  /** At the end of the line the last run is pushed when it has five or more balls. */
  lemma FinishRun(line: seq<Option<Color>>, marks: seq<bool>, s: Pos, d: Dir, acc0: seq<Pos>,
                  start: int, color: Option<Color>, count: int, acc: seq<Pos>)
    requires MarksOf(line, marks) && Scanning(line, marks, s, d, acc0, |line|, start, color, count, acc)
    ensures acc + (if count >= RequiredLineLength then Run(s, d, start, |line|) else []) ==
      acc0 + Collect(marks, s, d, |line|)
  {
    EndOfRun(line, marks, s, d, start, |line|, color);
  }

  /** The cells of the current run, as the diagonal scanners gather them. */
  function Gathered(s: Pos, d: Dir, i: int, start: int, color: Option<Color>): seq<Pos> {
    if color.Some? then Run(s, d, start, i) else []
  }

  /** Continuing the run appends the next cell to the gathered cells. */
  lemma ExtendGathered(s: Pos, d: Dir, i: int, start: int, color: Option<Color>)
    requires start <= i && color.Some?
    ensures Gathered(s, d, i + 1, start, color) == Gathered(s, d, i, start, color) + [Shift(s, d, i)]
  {
  }

  /** A new run gathers its first cell; a gap gathers nothing. */
  lemma RestartGathered(s: Pos, d: Dir, i: int, color: Option<Color>)
    ensures Gathered(s, d, i + 1, i, color) == if color.Some? then [Shift(s, d, i)] else []
  {
  }

  /** Pushes the cells lo .. hi-1 of the line from s along d, one by one. */
  method PushRun(acc: seq<Pos>, s: Pos, d: Dir, lo: int, hi: int) returns (acc': seq<Pos>)
    requires lo <= hi
    ensures acc' == acc + Run(s, d, lo, hi)
  {
    acc' := acc;
    for i := lo to hi
      invariant acc' == acc + Run(s, d, lo, i)
    {
      acc' := acc' + [Shift(s, d, i)];
      assert Run(s, d, lo, i + 1) == Run(s, d, lo, i) + [Shift(s, d, i)];
    }
  }

  /**
   * The inner loop of checkHorizontalLines and checkVerticalLines: walks the
   * n cells from s along d keeping the colour, length and first index of the
   * current run, and when a run of five or more ends pushes its cells one by
   * one. It appends exactly the marked cells of the line, in line order,
   * where `marks` flags the entries that lie in a window of five.
   */
  method ScanLineRuns(g: Grid, s: Pos, d: Dir, n: nat, acc: seq<Pos>,
                      ghost line: seq<Option<Color>>, ghost marks: seq<bool>)
    returns (acc': seq<Pos>)
    requires IsGrid(g) && |line| == n && MarksOf(line, marks)
    requires forall j :: 0 <= j < n ==> InBounds(Shift(s, d, j))
    requires forall j :: 0 <= j < n && InBounds(Shift(s, d, j)) ==>
      line[j] == CellColor(g[Shift(s, d, j).row, Shift(s, d, j).col])
    ensures acc' == acc + Collect(marks, s, d, n)
  {
    var currentColor: Option<Color> := None;
    var count := 0;
    var lineStart := 0;
    acc' := acc;
    for col := 0 to n
      invariant Scanning(line, marks, s, d, acc, col, lineStart, currentColor, count, acc')
    {
      var p := Shift(s, d, col);
      var ball := g[p.row, p.col];
      assert line[col] == CellColor(ball);
      if ball.Some? && Some(ball.value.color) == currentColor {
        ExtendRun(line, marks, s, d, acc, col, lineStart, currentColor, count, acc');
        count := count + 1;
      } else {
        BreakRun(line, marks, s, d, acc, col, lineStart, currentColor, count, acc');
        if count >= RequiredLineLength {
          acc' := PushRun(acc', s, d, lineStart, col);
        } else {
          assert acc' + [] == acc';
        }
        currentColor := CellColor(ball);
        count := if ball.Some? then 1 else 0;
        lineStart := col;
      }
    }
    FinishRun(line, marks, s, d, acc, lineStart, currentColor, count, acc');
    if count >= RequiredLineLength {
      acc' := PushRun(acc', s, d, lineStart, n);
    } else {
      assert acc' + [] == acc';
    }
  }

  /**
   * The inner loop of the two diagonal scanners: the same walk, but the
   * cells of the current run are gathered in `positions` as they are met
   * and pushed together when a run of five or more ends. It appends exactly
   * the marked cells of the line, in line order.
   */
  method ScanLinePositions(g: Grid, s: Pos, d: Dir, n: nat, acc: seq<Pos>,
                           ghost line: seq<Option<Color>>, ghost marks: seq<bool>)
    returns (acc': seq<Pos>)
    requires IsGrid(g) && |line| == n && MarksOf(line, marks)
    requires forall j :: 0 <= j < n ==> InBounds(Shift(s, d, j))
    requires forall j :: 0 <= j < n && InBounds(Shift(s, d, j)) ==>
      line[j] == CellColor(g[Shift(s, d, j).row, Shift(s, d, j).col])
    ensures acc' == acc + Collect(marks, s, d, n)
  {
    var currentColor: Option<Color> := None;
    var count := 0;
    var positions: seq<Pos> := [];
    ghost var runStart := 0;
    acc' := acc;
    for i := 0 to n
      invariant Scanning(line, marks, s, d, acc, i, runStart, currentColor, count, acc')
      invariant positions == Gathered(s, d, i, runStart, currentColor)
    {
      var p := Shift(s, d, i);
      var ball := g[p.row, p.col];
      assert line[i] == CellColor(ball);
      if ball.Some? && Some(ball.value.color) == currentColor {
        ExtendRun(line, marks, s, d, acc, i, runStart, currentColor, count, acc');
        ExtendGathered(s, d, i, runStart, currentColor);
        count := count + 1;
        positions := positions + [p];
      } else {
        BreakRun(line, marks, s, d, acc, i, runStart, currentColor, count, acc');
        if count >= RequiredLineLength {
          acc' := acc' + positions;
        } else {
          assert acc' + [] == acc';
        }
        currentColor := CellColor(ball);
        count := if ball.Some? then 1 else 0;
        positions := if ball.Some? then [p] else [];
        runStart := i;
        RestartGathered(s, d, i, currentColor);
      }
    }
    FinishRun(line, marks, s, d, acc, runStart, currentColor, count, acc');
    if count >= RequiredLineLength {
      acc' := acc' + positions;
    } else {
      assert acc' + [] == acc';
    }
  }

  // ---------------------------------------------------------------------
  // The lines the scanners walk
  // ---------------------------------------------------------------------

  /** The first cell, in row-major order, of the line through p along d. */
  function LineStart(p: Pos, d: Dir): Pos {
    match d
    case Horizontal => Pos(p.row, 0)
    case Vertical => Pos(0, p.col)
    case DownRight => if p.row <= p.col then Pos(0, p.col - p.row) else Pos(p.row - p.col, 0)
    case DownLeft => if p.row + p.col <= 8 then Pos(0, p.row + p.col) else Pos(p.row + p.col - 8, 8)
  }

  /** Number of cells a scanner visits from s along d: up to the edge of the board. */
  function LineLen(s: Pos, d: Dir): int {
    match d
    case Horizontal => GridSize
    case Vertical => GridSize
    case DownRight => if GridSize - s.row <= GridSize - s.col then GridSize - s.row else GridSize - s.col
    case DownLeft => if GridSize - s.row <= s.col + 1 then GridSize - s.row else s.col + 1
  }

  /**
   * The cells a scanner starts a line from: the first cell of every row,
   * the top of every column, and startRow in 0..4 with startCol in 0..4
   * (down-right) or in 4..8 (down-left).
   */
  predicate ScanStart(s: Pos, d: Dir) {
    match d
    case Horizontal => 0 <= s.row < GridSize && s.col == 0
    case Vertical => s.row == 0 && 0 <= s.col < GridSize
    case DownRight => 0 <= s.row <= GridSize - RequiredLineLength && 0 <= s.col <= GridSize - RequiredLineLength
    case DownLeft => 0 <= s.row <= GridSize - RequiredLineLength && RequiredLineLength - 1 <= s.col < GridSize
  }

  /** Every cell a scanner visits from a start is on the board. */
  lemma ScanInBounds(s: Pos, d: Dir)
    requires ScanStart(s, d)
    ensures LineLen(s, d) >= RequiredLineLength
    ensures forall j :: 0 <= j < LineLen(s, d) ==> InBounds(Shift(s, d, j))
  {
  }

  /**
   * A window of five lies on the line from its own line start, which is a
   * cell the scanners start from, and fits inside the cells scanned there.
   */
  lemma WindowOnItsLine(b: Board, t: Pos, d: Dir)
    requires IsBoard(b) && Window5(b, t, d)
    ensures ScanStart(LineStart(t, d), d)
    ensures 0 <= LineIndex(LineStart(t, d), d, t)
    ensures LineIndex(LineStart(t, d), d, t) + RequiredLineLength <= LineLen(LineStart(t, d), d)
    ensures t == Shift(LineStart(t, d), d, LineIndex(LineStart(t, d), d, t))
  {
    assert ColorAt(b, Shift(t, d, 0)) == ColorAt(b, t);
    assert ColorAt(b, Shift(t, d, 4)) == ColorAt(b, t);
  }

  /** Every cell of a window found on a scanned line is collected by the scan of that line. */
  lemma LineCollectsWindow(b: Board, s: Pos, d: Dir, w: int)
    requires ScanStart(s, d) && 0 <= w && w + RequiredLineLength <= LineLen(s, d)
    requires Window5(b, Shift(s, d, w), d)
    ensures forall i :: 0 <= i < RequiredLineLength ==>
      Shift(Shift(s, d, w), d, i) in Collect(Marks(LineColors(b, s, d, LineLen(s, d))), s, d, LineLen(s, d))
  {
    var n := LineLen(s, d);
    var line := LineColors(b, s, d, n);
    var marks := Marks(line);
    forall j | w <= j < w + RequiredLineLength
      ensures line[j] == line[w]
    {
      ShiftShift(s, d, w, j - w);
    }
    assert WindowAt(line, w);
    CollectMembers(line, marks, s, d, n);
    forall i | 0 <= i < RequiredLineLength
      ensures Shift(Shift(s, d, w), d, i) in Collect(marks, s, d, n)
    {
      ShiftShift(s, d, w, i);
      assert InWindow(line, w + i);
    }
  }

  /** A window of the colours of a line is a window of five on the board. */
  lemma WindowOfLine(b: Board, s: Pos, d: Dir, n: nat, w: int)
    requires WindowAt(LineColors(b, s, d, n), w)
    ensures Window5(b, Shift(s, d, w), d)
  {
    var line := LineColors(b, s, d, n);
    forall k | 0 <= k < RequiredLineLength
      ensures ColorAt(b, Shift(Shift(s, d, w), d, k)) == ColorAt(b, Shift(s, d, w))
    {
      ShiftShift(s, d, w, k);
      assert line[w + k] == line[w];
    }
  }

  /** Whatever the scan of a line collects lies in a run of five along d. */
  lemma LineCollectSound(b: Board, s: Pos, d: Dir, n: nat)
    ensures forall q :: q in Collect(Marks(LineColors(b, s, d, n)), s, d, n) ==> InLine(b, q, d)
  {
    var line := LineColors(b, s, d, n);
    var marks := Marks(line);
    CollectMembers(line, marks, s, d, n);
    forall q | q in Collect(marks, s, d, n)
      ensures InLine(b, q, d)
    {
      var j := LineIndex(s, d, q);
      assert InWindow(line, j);
      var w :| w <= j < w + RequiredLineLength && WindowAt(line, w);
      WindowOfLine(b, s, d, n, w);
      ShiftShift(s, d, j, w - j);
      assert Shift(q, d, w - j) == Shift(s, d, w);
    }
  }

  /** Every collected cell lies in a run of five along d. */
  ghost predicate Sound(b: Board, d: Dir, found: seq<Pos>) {
    forall q :: q in found ==> InLine(b, q, d)
  }

  /** Every window of five whose line starts before `upto` (row-major) is collected in full. */
  ghost predicate Covered(b: Board, d: Dir, found: seq<Pos>, upto: Pos) {
    forall t, i :: Window5(b, t, d) && RowMajorBefore(LineStart(t, d), upto) && 0 <= i < RequiredLineLength ==>
      Shift(t, d, i) in found
  }

  /**
   * Scanning the line from s keeps the collected cells sound and covers
   * every window whose line starts at s.
   */
  lemma ScanStep(b: Board, s: Pos, d: Dir, found: seq<Pos>, upto: Pos, next: Pos)
    requires IsBoard(b) && ScanStart(s, d) && Sound(b, d, found) && Covered(b, d, found, upto)
    requires forall p :: ScanStart(p, d) && RowMajorBefore(p, next) ==> RowMajorBefore(p, upto) || p == s
    ensures Sound(b, d, found + Collect(Marks(LineColors(b, s, d, LineLen(s, d))), s, d, LineLen(s, d)))
    ensures Covered(b, d, found + Collect(Marks(LineColors(b, s, d, LineLen(s, d))), s, d, LineLen(s, d)), next)
  {
    var n := LineLen(s, d);
    var found' := found + Collect(Marks(LineColors(b, s, d, n)), s, d, n);
    LineCollectSound(b, s, d, n);
    forall t, i | Window5(b, t, d) && RowMajorBefore(LineStart(t, d), next) && 0 <= i < RequiredLineLength
      ensures Shift(t, d, i) in found'
    {
      WindowOnItsLine(b, t, d);
      if LineStart(t, d) == s {
        var w := LineIndex(s, d, t);
        LineCollectsWindow(b, s, d, w);
      } else {
        assert Shift(t, d, i) in found;
      }
    }
  }

  /** Coverage carries over to a later bound when no scan start lies between the two. */
  lemma CoveredMove(b: Board, d: Dir, found: seq<Pos>, upto: Pos, next: Pos)
    requires IsBoard(b) && Covered(b, d, found, upto)
    requires forall p :: ScanStart(p, d) && RowMajorBefore(p, next) ==> RowMajorBefore(p, upto)
    ensures Covered(b, d, found, next)
  {
    forall t, i | Window5(b, t, d) && RowMajorBefore(LineStart(t, d), next) && 0 <= i < RequiredLineLength
      ensures Shift(t, d, i) in found
    {
      WindowOnItsLine(b, t, d);
    }
  }

  /** Once every scan start is passed, every cell in a run of five along d is collected. */
  lemma CoveredAll(b: Board, d: Dir, found: seq<Pos>, upto: Pos)
    requires IsBoard(b) && Covered(b, d, found, upto)
    requires forall p :: ScanStart(p, d) ==> RowMajorBefore(p, upto)
    ensures forall q :: InLine(b, q, d) ==> q in found
  {
    forall q | InLine(b, q, d)
      ensures q in found
    {
      var k :| -RequiredLineLength < k <= 0 && Window5(b, Shift(q, d, k), d);
      WindowOnItsLine(b, Shift(q, d, k), d);
      ShiftShift(q, d, k, -k);
    }
  }

  /** A cell in a run of five holds a ball. */
  lemma InLineOccupied(b: Board, p: Pos, d: Dir)
    requires InLine(b, p, d)
    ensures p in b
  {
    var k :| -RequiredLineLength < k <= 0 && Window5(b, Shift(p, d, k), d);
    ShiftShift(p, d, k, -k);
    assert ColorAt(b, Shift(Shift(p, d, k), d, -k)) == ColorAt(b, Shift(p, d, k));
  }

  /** Before any scan, no window lies on a line starting before the first scan start. */
  lemma CoveredStart(b: Board, d: Dir, upto: Pos)
    requires IsBoard(b)
    requires forall p :: ScanStart(p, d) ==> !RowMajorBefore(p, upto)
    ensures Covered(b, d, [], upto)
  {
    forall t | Window5(b, t, d)
      ensures !RowMajorBefore(LineStart(t, d), upto)
    {
      WindowOnItsLine(b, t, d);
    }
  }

  // ---------------------------------------------------------------------
  // The four scanners
  // ---------------------------------------------------------------------

  /**
   * checkHorizontalLines: scans every row from its first cell. The cells it
   * pushes after `acc` are exactly those lying in a horizontal run of five
   * or more.
   */
  method CheckHorizontalLines(g: Grid, acc: seq<Pos>) returns (acc': seq<Pos>)
    requires IsGrid(g)
    ensures |acc| <= |acc'| && acc'[..|acc|] == acc
    ensures forall q :: q in acc' <==> q in acc || InLine(Cells(g), q, Horizontal)
  {
    ghost var b := Cells(g);
    ghost var found: seq<Pos> := [];
    CoveredStart(b, Horizontal, Pos(0, 0));
    acc' := acc;
    for row := 0 to GridSize
      invariant acc' == acc + found
      invariant Sound(b, Horizontal, found) && Covered(b, Horizontal, found, Pos(row, 0))
    {
      var s := Pos(row, 0);
      ghost var line := LineColors(b, s, Horizontal, GridSize);
      ScanInBounds(s, Horizontal);
      LineOfGrid(g, s, Horizontal, GridSize);
      ScanStep(b, s, Horizontal, found, s, Pos(row + 1, 0));
      acc' := ScanLineRuns(g, s, Horizontal, GridSize, acc', line, Marks(line));
      found := found + Collect(Marks(line), s, Horizontal, GridSize);
    }
    CoveredAll(b, Horizontal, found, Pos(GridSize, 0));
    assert acc'[..|acc|] == acc;
  }

  /**
   * checkVerticalLines: scans every column from its top cell. The cells it
   * pushes after `acc` are exactly those lying in a vertical run of five or
   * more.
   */
  method CheckVerticalLines(g: Grid, acc: seq<Pos>) returns (acc': seq<Pos>)
    requires IsGrid(g)
    ensures |acc| <= |acc'| && acc'[..|acc|] == acc
    ensures forall q :: q in acc' <==> q in acc || InLine(Cells(g), q, Vertical)
  {
    ghost var b := Cells(g);
    ghost var found: seq<Pos> := [];
    CoveredStart(b, Vertical, Pos(0, 0));
    acc' := acc;
    for col := 0 to GridSize
      invariant acc' == acc + found
      invariant Sound(b, Vertical, found) && Covered(b, Vertical, found, Pos(0, col))
    {
      var s := Pos(0, col);
      ghost var line := LineColors(b, s, Vertical, GridSize);
      ScanInBounds(s, Vertical);
      LineOfGrid(g, s, Vertical, GridSize);
      ScanStep(b, s, Vertical, found, s, Pos(0, col + 1));
      acc' := ScanLineRuns(g, s, Vertical, GridSize, acc', line, Marks(line));
      found := found + Collect(Marks(line), s, Vertical, GridSize);
    }
    CoveredAll(b, Vertical, found, Pos(0, GridSize));
    assert acc'[..|acc|] == acc;
  }

  /**
   * checkDiagonalLinesTopLeftToBottomRight: scans a down-right line from
   * every start with startRow and startCol in 0..4, up to the edge of the
   * board. Starts inside a diagonal re-scan part of it, so a cell may be
   * pushed more than once; the cells pushed after `acc` are exactly those
   * lying in a down-right run of five or more.
   */
  method CheckDiagonalLinesTopLeftToBottomRight(g: Grid, acc: seq<Pos>) returns (acc': seq<Pos>)
    requires IsGrid(g)
    ensures |acc| <= |acc'| && acc'[..|acc|] == acc
    ensures forall q :: q in acc' <==> q in acc || InLine(Cells(g), q, DownRight)
  {
    ghost var b := Cells(g);
    ghost var found: seq<Pos> := [];
    CoveredStart(b, DownRight, Pos(0, 0));
    acc' := acc;
    for startRow := 0 to GridSize - RequiredLineLength + 1
      invariant acc' == acc + found
      invariant Sound(b, DownRight, found) && Covered(b, DownRight, found, Pos(startRow, 0))
    {
      for startCol := 0 to GridSize - RequiredLineLength + 1
        invariant acc' == acc + found
        invariant Sound(b, DownRight, found) && Covered(b, DownRight, found, Pos(startRow, startCol))
      {
        var s := Pos(startRow, startCol);
        var n := LineLen(s, DownRight);
        ghost var line := LineColors(b, s, DownRight, n);
        ScanInBounds(s, DownRight);
        LineOfGrid(g, s, DownRight, n);
        ScanStep(b, s, DownRight, found, s, Pos(startRow, startCol + 1));
        acc' := ScanLinePositions(g, s, DownRight, n, acc', line, Marks(line));
        found := found + Collect(Marks(line), s, DownRight, n);
      }
      CoveredMove(b, DownRight, found, Pos(startRow, GridSize - RequiredLineLength + 1), Pos(startRow + 1, 0));
    }
    CoveredAll(b, DownRight, found, Pos(GridSize - RequiredLineLength + 1, 0));
    assert acc'[..|acc|] == acc;
  }

  /**
   * checkDiagonalLinesTopRightToBottomLeft: scans a down-left line from
   * every start with startRow in 0..4 and startCol in 4..8. The cells pushed
   * after `acc` are exactly those lying in a down-left run of five or more.
   */
  method CheckDiagonalLinesTopRightToBottomLeft(g: Grid, acc: seq<Pos>) returns (acc': seq<Pos>)
    requires IsGrid(g)
    ensures |acc| <= |acc'| && acc'[..|acc|] == acc
    ensures forall q :: q in acc' <==> q in acc || InLine(Cells(g), q, DownLeft)
  {
    ghost var b := Cells(g);
    ghost var found: seq<Pos> := [];
    CoveredStart(b, DownLeft, Pos(0, RequiredLineLength - 1));
    acc' := acc;
    for startRow := 0 to GridSize - RequiredLineLength + 1
      invariant acc' == acc + found
      invariant Sound(b, DownLeft, found) && Covered(b, DownLeft, found, Pos(startRow, RequiredLineLength - 1))
    {
      for startCol := RequiredLineLength - 1 to GridSize
        invariant acc' == acc + found
        invariant Sound(b, DownLeft, found) && Covered(b, DownLeft, found, Pos(startRow, startCol))
      {
        var s := Pos(startRow, startCol);
        var n := LineLen(s, DownLeft);
        ghost var line := LineColors(b, s, DownLeft, n);
        ScanInBounds(s, DownLeft);
        LineOfGrid(g, s, DownLeft, n);
        ScanStep(b, s, DownLeft, found, s, Pos(startRow, startCol + 1));
        acc' := ScanLinePositions(g, s, DownLeft, n, acc', line, Marks(line));
        found := found + Collect(Marks(line), s, DownLeft, n);
      }
      CoveredMove(b, DownLeft, found, Pos(startRow, GridSize), Pos(startRow + 1, RequiredLineLength - 1));
    }
    CoveredAll(b, DownLeft, found, Pos(GridSize - RequiredLineLength + 1, RequiredLineLength - 1));
    assert acc'[..|acc|] == acc;
  }

  // ---------------------------------------------------------------------
  // Clearing
  // ---------------------------------------------------------------------

  /** A cell in a run of five holds a ball, so it is on the board. */
  lemma QualifiesOccupied(b: Board, p: Pos)
    requires Qualifies(b, p)
    ensures p in b
  {
    if InLine(b, p, Horizontal) {
      InLineOccupied(b, p, Horizontal);
    } else if InLine(b, p, Vertical) {
      InLineOccupied(b, p, Vertical);
    } else if InLine(b, p, DownRight) {
      InLineOccupied(b, p, DownRight);
    } else {
      InLineOccupied(b, p, DownLeft);
    }
  }

  /** The positions listed in s. */
  function Listed(s: seq<Pos>): (r: set<Pos>)
    ensures forall q :: q in r <==> q in s
  {
    set q | q in s
  }

  /**
   * The clearing loop of removeLines: walks the collected positions, skips
   * one already seen or one whose cell has no ball, and otherwise records
   * it and empties its cell. Every listed cell ends up empty, every other
   * cell keeps its ball, and the count is the number of distinct listed
   * cells that held a ball.
   */
  method ClearCollected(g: Grid, ballsToRemove: seq<Pos>) returns (pointsScored: nat)
    requires IsGrid(g) && forall q :: q in ballsToRemove ==> InBounds(q)
    modifies g
    ensures Cells(g) == old(Cells(g)) - Listed(ballsToRemove)
    ensures pointsScored == |Listed(ballsToRemove) * old(Cells(g)).Keys|
  {
    ghost var b := Cells(g);
    var uniquePositions: set<Pos> := {};
    for k := 0 to |ballsToRemove|
      invariant forall q :: q in uniquePositions <==> q in ballsToRemove[..k] && q in b
      invariant forall r, c :: 0 <= r < 9 && 0 <= c < 9 ==>
        g[r, c] == if Pos(r, c) in ballsToRemove[..k] then None else CellOf(b, r, c)
    {
      var p := ballsToRemove[k];
      assert p in ballsToRemove;
      assert InBounds(p) && p == Pos(p.row, p.col);
      if p !in uniquePositions && g[p.row, p.col].Some? {
        uniquePositions := uniquePositions + {p};
        g[p.row, p.col] := None;
      }
      assert ballsToRemove[..k + 1] == ballsToRemove[..k] + [p];
    }
    assert ballsToRemove[..|ballsToRemove|] == ballsToRemove;
    assert uniquePositions == Listed(ballsToRemove) * b.Keys;
    CellsOf(g, b - Listed(ballsToRemove));
    pointsScored := |uniquePositions|;
  }

  /**
   * removeLines: runs the four scanners over the live grid, then empties
   * every collected cell once and adds the number of distinct emptied
   * cells to the score. The row copy the source makes shares its cells with
   * the caller's grid, so the cells are emptied in place. The score sound
   * plays when at least one cell was emptied.
   */
  method RemoveLines(g: Grid, score: int) returns (newScore: int, playSound: bool)
    requires IsGrid(g)
    modifies g
    ensures Cells(g) == old(Cells(g)) - ClearSet(old(Cells(g)))
    ensures newScore == score + |ClearSet(old(Cells(g)))|
    ensures playSound <==> ClearSet(old(Cells(g))) != {}
  {
    ghost var b := Cells(g);
    var ballsToRemove := CheckHorizontalLines(g, []);
    ballsToRemove := CheckVerticalLines(g, ballsToRemove);
    ballsToRemove := CheckDiagonalLinesTopLeftToBottomRight(g, ballsToRemove);
    ballsToRemove := CheckDiagonalLinesTopRightToBottomLeft(g, ballsToRemove);
    forall q | q in ballsToRemove
      ensures q in b && InBounds(q)
    {
      QualifiesOccupied(b, q);
    }
    assert Listed(ballsToRemove) == ClearSet(b);
    assert Listed(ballsToRemove) * b.Keys == ClearSet(b);
    newScore := score;
    playSound := false;
    if |ballsToRemove| > 0 {
      var pointsScored := ClearCollected(g, ballsToRemove);
      newScore := score + pointsScored;
      if pointsScored > 0 {
        playSound := true;
      }
    } else {
      assert b - ClearSet(b) == b;
    }
  }

  /** Removing balls cannot create a run: a run of five after removal was one before. */
  lemma InLineShrinks(b: Board, C: set<Pos>, p: Pos, d: Dir)
    requires InLine(b - C, p, d)
    ensures InLine(b, p, d)
  {
    var k :| -RequiredLineLength < k <= 0 && Window5(b - C, Shift(p, d, k), d);
    var t := Shift(p, d, k);
    forall i | 0 <= i < RequiredLineLength
      ensures ColorAt(b, Shift(t, d, i)) == ColorAt(b, t)
    {
      assert ColorAt(b - C, Shift(t, d, i)) == ColorAt(b - C, t);
    }
    assert Window5(b, t, d);
  }

  /**
   * Clearing only opens gaps: every run of five on the cleared board was
   * already one before, so all its cells were cleared. Running the clearing
   * step again on its own output clears nothing.
   */
  lemma ClearIdempotent(b: Board)
    ensures ClearSet(b - ClearSet(b)) == {}
  {
    var C := ClearSet(b);
    forall p | Qualifies(b - C, p)
      ensures Qualifies(b, p)
    {
      if InLine(b - C, p, Horizontal) {
        InLineShrinks(b, C, p, Horizontal);
      } else if InLine(b - C, p, Vertical) {
        InLineShrinks(b, C, p, Vertical);
      } else if InLine(b - C, p, DownRight) {
        InLineShrinks(b, C, p, DownRight);
      } else {
        InLineShrinks(b, C, p, DownLeft);
      }
    }
  }
}
