/**
 * The grid model and the pathfinder of hooks/use-grid.ts: creating the empty
 * 9x9 grid, listing its empty cells in row-major order, and the breadth-first
 * search that validates a move.
 */
module GridOps {
  import opened Types

  /** Creates the empty grid: 9 rows of 9 cells, none holding a ball. */
  method InitializeGrid() returns (g: Grid)
    ensures fresh(g) && IsGrid(g)
    ensures forall r, c :: 0 <= r < 9 && 0 <= c < 9 ==> g[r, c].None?
    ensures Cells(g) == map[]
  {
    g := new Option<Ball>[9, 9]((r, c) => None);
    var b := Cells(g);
    forall p ensures p !in b {
      if InBounds(p) {
        assert p == Pos(p.row, p.col);
      }
    }
  }

  /** The occupied cells that come before q in row-major order. */
  ghost function OccupiedBefore(b: Board, q: Pos): set<Pos> {
    set p | p in b && RowMajorBefore(p, q)
  }

  /** Counting one more cell in row-major order counts it as occupied exactly when it holds a ball. */
  lemma OccupiedBeforeNext(b: Board, row: int, col: int)
    requires IsBoard(b) && 0 <= row < 9 && 0 <= col < 9
    ensures |OccupiedBefore(b, Pos(row, col + 1))| ==
      |OccupiedBefore(b, Pos(row, col))| + (if Pos(row, col) in b then 1 else 0)
    ensures col == 8 ==> OccupiedBefore(b, Pos(row, col + 1)) == OccupiedBefore(b, Pos(row + 1, 0))
  {
    assert OccupiedBefore(b, Pos(row, col + 1)) ==
      OccupiedBefore(b, Pos(row, col)) + (if Pos(row, col) in b then {Pos(row, col)} else {});
  }

  lemma OccupiedBeforeEnd(b: Board)
    requires IsBoard(b)
    ensures OccupiedBefore(b, Pos(9, 0)) == b.Keys
  {
  }

  /**
   * Lists the empty cells. Every ball-less cell of the board appears exactly
   * once, in row-major order, and there are as many of them as the board has
   * cells without a ball. The grid is only read.
   */
  method GetEmptyCells(g: Grid) returns (emptyCells: seq<Pos>)
    requires IsGrid(g)
    ensures forall p :: p in emptyCells <==> Free(Cells(g), p)
    ensures forall i, j :: 0 <= i < j < |emptyCells| ==> RowMajorBefore(emptyCells[i], emptyCells[j])
    ensures |emptyCells| == CellCount - |Cells(g)|
  {
    ghost var b := Cells(g);
    emptyCells := [];
    for row := 0 to 9
      invariant forall p :: p in emptyCells <==> Free(b, p) && p.row < row
      invariant forall i, j :: 0 <= i < j < |emptyCells| ==> RowMajorBefore(emptyCells[i], emptyCells[j])
      invariant |emptyCells| + |OccupiedBefore(b, Pos(row, 0))| == 9 * row
    {
      for col := 0 to 9
        invariant forall p :: p in emptyCells <==> Free(b, p) && RowMajorBefore(p, Pos(row, col))
        invariant forall i, j :: 0 <= i < j < |emptyCells| ==> RowMajorBefore(emptyCells[i], emptyCells[j])
        invariant |emptyCells| + |OccupiedBefore(b, Pos(row, col))| == 9 * row + col
      {
        OccupiedBeforeNext(b, row, col);
        if g[row, col].None? {
          emptyCells := emptyCells + [Pos(row, col)];
        }
      }
      OccupiedBeforeNext(b, row, 8);
    }
    OccupiedBeforeEnd(b);
  }

  /** One orthogonal step: up, down, left or right. */
  predicate Adjacent(p: Pos, q: Pos) {
    (p.row == q.row && (p.col == q.col + 1 || p.col + 1 == q.col)) ||
    (p.col == q.col && (p.row == q.row + 1 || p.row + 1 == q.row))
  }

  /**
   * A route a ball may take from s to e: it starts at s (which holds the ball
   * being moved), ends at e, moves one orthogonal step at a time, and every
   * later cell is on the board and empty.
   */
  ghost predicate IsPath(b: Board, path: seq<Pos>, s: Pos, e: Pos) {
    && |path| >= 1 && path[0] == s && path[|path| - 1] == e
    && (forall i :: 1 <= i < |path| ==> Free(b, path[i]))
    && (forall i :: 0 <= i < |path| - 1 ==> Adjacent(path[i], path[i + 1]))
  }

  /** The four neighbours, in the expansion order up, down, left, right. */
  function Directions(p: Pos): (ds: seq<Pos>)
    ensures |ds| == 4 && forall q :: Adjacent(p, q) <==> q in ds
  {
    [Pos(p.row - 1, p.col), Pos(p.row + 1, p.col), Pos(p.row, p.col - 1), Pos(p.row, p.col + 1)]
  }

  /** A search-queue entry: a cell and the route that led to it (without the cell). */
  datatype Entry = Entry(pos: Pos, path: seq<Pos>)

  /** Number of cells of the route an entry stands for. */
  function Len(e: Entry): nat {
    |e.path| + 1
  }

  /** Some entry for n whose route has at most l cells is waiting in the queue. */
  ghost predicate Queued(queue: seq<Entry>, n: Pos, l: int) {
    exists j :: 0 <= j < |queue| && queue[j].pos == n && Len(queue[j]) <= l
  }

  /** Entries of non-decreasing length, none more than one step longer than the first. */
  predicate Layered(queue: seq<Entry>) {
    && (forall i, j :: 0 <= i < j < |queue| ==> Len(queue[i]) <= Len(queue[j]))
    && (forall i :: 0 <= i < |queue| ==> Len(queue[i]) <= Len(queue[0]) + 1)
  }

  /** A queued cell is either the head, which is then no longer than promised, or still queued after the head is dequeued. */
  lemma QueuedAfterDequeue(queue: seq<Entry>, n: Pos, l: int)
    requires Queued(queue, n, l) && Layered(queue)
    ensures (queue[0].pos == n && Len(queue[0]) <= l) || Queued(queue[1..], n, l)
  {
    var j :| 0 <= j < |queue| && queue[j].pos == n && Len(queue[j]) <= l;
    if j > 0 {
      assert queue[1..][j - 1] == queue[j];
    }
  }

  lemma QueuedAppend(queue: seq<Entry>, more: seq<Entry>, n: Pos, l: int)
    requires Queued(queue, n, l)
    ensures Queued(queue + more, n, l)
  {
    var j :| 0 <= j < |queue| && queue[j].pos == n && Len(queue[j]) <= l;
    assert (queue + more)[j] == queue[j];
  }

  /**
   * The frontier property of the search: every empty neighbour of a visited
   * cell is visited at most one step further away, or waits in the queue with
   * a route at most one step longer.
   */
  ghost predicate Closed(b: Board, queue: seq<Entry>, visited: set<Pos>, dist: map<Pos, nat>)
    requires visited <= dist.Keys
  {
    forall v, n :: v in visited && Adjacent(v, n) && Free(b, n) ==>
      (n in visited && n in dist && dist[n] <= dist[v] + 1) || Queued(queue, n, dist[v] + 1)
  }

  /**
   * Every route shorter than every queued entry runs through visited cells
   * only, and reaches each of them no sooner than the search did.
   */
  lemma {:induction false} ShortRouteIsVisited(b: Board, s: Pos, queue: seq<Entry>, visited: set<Pos>,
                                               dist: map<Pos, nat>, p: seq<Pos>, x: Pos)
    requires visited == dist.Keys
    requires (s in visited && dist[s] == 1) || (visited == {} && queue == [Entry(s, [])])
    requires Closed(b, queue, visited, dist)
    requires IsPath(b, p, s, x)
    requires forall j :: 0 <= j < |queue| ==> |p| < Len(queue[j])
    ensures x in visited && dist[x] <= |p|
    decreases |p|
  {
    if |queue| > 0 {
      assert |p| < Len(queue[0]);
    }
    if |p| > 1 {
      var y := p[|p| - 2];
      var prefix := p[..|p| - 1];
      assert IsPath(b, prefix, s, y) by {
        forall i | 0 <= i < |prefix| - 1 ensures Adjacent(prefix[i], prefix[i + 1]) {
          assert prefix[i] == p[i] && prefix[i + 1] == p[i + 1];
        }
      }
      ShortRouteIsVisited(b, s, queue, visited, dist, prefix, y);
      assert Adjacent(y, x) && Free(b, x) by {
        assert Adjacent(p[|p| - 2], p[|p| - 1]);
      }
    }
  }

  lemma ExtendPath(b: Board, path: seq<Pos>, s: Pos, u: Pos, n: Pos)
    requires IsPath(b, path + [u], s, u)
    requires Adjacent(u, n) && Free(b, n)
    ensures IsPath(b, path + [u] + [n], s, n)
  {
    var p := path + [u] + [n];
    forall i | 0 <= i < |p| - 1 ensures Adjacent(p[i], p[i + 1]) {
      if i < |p| - 2 {
        assert p[i] == (path + [u])[i] && p[i + 1] == (path + [u])[i + 1];
      }
    }
  }

  /** Every queued entry's route followed by its cell is a route from the start to that cell. */
  ghost predicate Routed(b: Board, s: Pos, queue: seq<Entry>) {
    forall i :: 0 <= i < |queue| ==> InBounds(queue[i].pos) && IsPath(b, queue[i].path + [queue[i].pos], s, queue[i].pos)
  }

  /** Dequeuing the head and queueing free neighbours of its cell keeps every queued route a route. */
  lemma RoutedAfterExpand(b: Board, s: Pos, before: seq<Entry>, queue: seq<Entry>)
    requires |before| > 0 && Routed(b, s, before)
    requires |queue| >= |before| - 1 && queue[..|before| - 1] == before[1..]
    requires forall i :: |before| - 1 <= i < |queue| ==>
      queue[i].path == before[0].path + [before[0].pos] && Adjacent(before[0].pos, queue[i].pos) && Free(b, queue[i].pos)
    ensures Routed(b, s, queue)
  {
    forall i | 0 <= i < |queue|
      ensures InBounds(queue[i].pos) && IsPath(b, queue[i].path + [queue[i].pos], s, queue[i].pos)
    {
      if i >= |before| - 1 {
        ExtendPath(b, before[0].path, s, before[0].pos, queue[i].pos);
      } else {
        assert queue[i] == queue[..|before| - 1][i] == before[i + 1];
      }
    }
  }

  /**
   * Dequeuing the first entry and appending entries one step longer than it
   * keeps the queue layered, and the new head is no shorter than the old one.
   */
  lemma LayeredAfterExpand(before: seq<Entry>, queue: seq<Entry>)
    requires |before| > 0 && Layered(before)
    requires |queue| >= |before| - 1 && queue[..|before| - 1] == before[1..]
    requires forall i :: |before| - 1 <= i < |queue| ==> Len(queue[i]) == Len(before[0]) + 1
    ensures Layered(queue)
    ensures |queue| > 0 ==> Len(before[0]) <= Len(queue[0])
  {
    forall i | 0 <= i < |before| - 1 ensures queue[i] == before[i + 1] {
      assert queue[..|before| - 1][i] == queue[i];
    }
  }

  /** Skipping an already visited head keeps the frontier property. */
  lemma ClosedAfterSkip(b: Board, before: seq<Entry>, visited: set<Pos>, dist: map<Pos, nat>)
    requires |before| > 0 && Layered(before) && visited == dist.Keys
    requires before[0].pos in visited && dist[before[0].pos] <= Len(before[0])
    requires Closed(b, before, visited, dist)
    ensures Closed(b, before[1..], visited, dist)
  {
    forall v, n | v in visited && Adjacent(v, n) && Free(b, n)
      ensures (n in visited && n in dist && dist[n] <= dist[v] + 1) || Queued(before[1..], n, dist[v] + 1)
    {
      if !(n in visited && dist[n] <= dist[v] + 1) {
        QueuedAfterDequeue(before, n, dist[v] + 1);
      }
    }
  }

  /**
   * Visiting the head u and queueing its unvisited empty neighbours one step
   * further keeps the frontier property.
   */
  lemma ClosedAfterVisit(b: Board, before: seq<Entry>, queue: seq<Entry>, oldVisited: set<Pos>,
                         oldDist: map<Pos, nat>, visited: set<Pos>, dist: map<Pos, nat>)
    requires |before| > 0 && Layered(before) && oldVisited == oldDist.Keys
    requires before[0].pos !in oldVisited
    requires forall v :: v in oldVisited ==> oldDist[v] <= Len(before[0])
    requires visited == oldVisited + {before[0].pos} && dist == oldDist[before[0].pos := Len(before[0])]
    requires Closed(b, before, oldVisited, oldDist)
    requires |queue| >= |before| - 1 && queue[..|before| - 1] == before[1..]
    requires forall n :: Adjacent(before[0].pos, n) && Free(b, n) && n !in visited ==>
      Queued(queue, n, Len(before[0]) + 1)
    ensures Closed(b, queue, visited, dist)
  {
    var u := before[0].pos;
    assert queue == before[1..] + queue[|before| - 1..];
    forall v, n | v in visited && Adjacent(v, n) && Free(b, n)
      ensures (n in visited && n in dist && dist[n] <= dist[v] + 1) || Queued(queue, n, dist[v] + 1)
    {
      if v != u && !(n in oldVisited && oldDist[n] <= oldDist[v] + 1) {
        QueuedAfterDequeue(before, n, oldDist[v] + 1);
        if n != u {
          QueuedAppend(before[1..], queue[|before| - 1..], n, oldDist[v] + 1);
        }
      }
    }
  }

  /**
   * The loop invariant of the search from s towards e: e is not yet
   * visited, every visited cell has its distance, queued routes are routes,
   * the queue is layered and no shorter than any visited distance, the
   * start is visited first at distance 1, and the frontier is closed.
   */
  ghost predicate Searching(b: Board, s: Pos, e: Pos, queue: seq<Entry>, visited: set<Pos>, dist: map<Pos, nat>) {
    && visited <= AllCells() && visited == dist.Keys && e !in visited
    && Routed(b, s, queue)
    && Layered(queue)
    && (|queue| > 0 ==> forall v :: v in visited ==> dist[v] <= Len(queue[0]))
    && ((s in visited && dist[s] == 1) || (visited == {} && queue == [Entry(s, [])]))
    && Closed(b, queue, visited, dist)
  }

  /** Dropping a head whose cell is already visited keeps the search invariant. */
  lemma SearchAfterSkip(b: Board, s: Pos, e: Pos, queue: seq<Entry>, visited: set<Pos>, dist: map<Pos, nat>)
    requires Searching(b, s, e, queue, visited, dist) && |queue| > 0 && queue[0].pos in visited
    ensures Searching(b, s, e, queue[1..], visited, dist)
  {
    ClosedAfterSkip(b, queue, visited, dist);
    forall i | 0 <= i < |queue| - 1
      ensures InBounds(queue[1..][i].pos) && IsPath(b, queue[1..][i].path + [queue[1..][i].pos], s, queue[1..][i].pos)
    {
      assert queue[1..][i] == queue[i + 1];
    }
    if |queue| > 1 {
      assert queue[1..][0] == queue[1];
      assert Len(queue[0]) <= Len(queue[1]);
    }
  }

  /**
   * Visiting the head's cell, at the head's distance, and queueing its
   * unvisited empty neighbours one step further keeps the search invariant.
   */
  lemma SearchAfterVisit(b: Board, s: Pos, e: Pos, before: seq<Entry>, queue: seq<Entry>,
                         visited: set<Pos>, dist: map<Pos, nat>)
    requires Searching(b, s, e, before, visited, dist) && |before| > 0
    requires before[0].pos !in visited && before[0].pos != e
    requires |queue| >= |before| - 1 && queue[..|before| - 1] == before[1..]
    requires forall i :: |before| - 1 <= i < |queue| ==>
      queue[i].path == before[0].path + [before[0].pos] && Adjacent(before[0].pos, queue[i].pos) && Free(b, queue[i].pos)
    requires forall n :: Adjacent(before[0].pos, n) && Free(b, n) && n !in visited + {before[0].pos} ==>
      Queued(queue, n, Len(before[0]) + 1)
    ensures before[0].pos in AllCells()
    ensures Searching(b, s, e, queue, visited + {before[0].pos}, dist[before[0].pos := Len(before[0])])
  {
    var u := before[0].pos;
    assert InBounds(u);
    forall i | |before| - 1 <= i < |queue| ensures Len(queue[i]) == Len(before[0]) + 1 {
    }
    RoutedAfterExpand(b, s, before, queue);
    LayeredAfterExpand(before, queue);
    ClosedAfterVisit(b, before, queue, visited, dist, visited + {u}, dist[u := Len(before[0])]);
    if visited == {} {
      assert u == s && Len(before[0]) == 1;
    }
  }

  /**
   * What expanding `entry` appends to the queue when its neighbours are
   * tried in the order ds: an entry, with the route extended by the
   * entry's cell, for each neighbour that is free on b and not visited.
   */
  ghost function Expansion(b: Board, visited: set<Pos>, entry: Entry, ds: seq<Pos>): seq<Entry>
    decreases |ds|
  {
    if ds == [] then []
    else
      var n := ds[|ds| - 1];
      Expansion(b, visited, entry, ds[..|ds| - 1]) +
        (if Free(b, n) && n !in visited then [Entry(n, entry.path + [entry.pos])] else [])
  }

  /**
   * An expansion queues only free, unvisited cells of ds, each with the
   * route extended by the expanded cell, and it queues every such cell.
   */
  lemma {:induction false} ExpansionEntries(b: Board, visited: set<Pos>, entry: Entry, ds: seq<Pos>)
    ensures forall i :: 0 <= i < |Expansion(b, visited, entry, ds)| ==>
      && Expansion(b, visited, entry, ds)[i].path == entry.path + [entry.pos]
      && Expansion(b, visited, entry, ds)[i].pos in ds
      && Free(b, Expansion(b, visited, entry, ds)[i].pos) && Expansion(b, visited, entry, ds)[i].pos !in visited
    ensures forall n :: n in ds && Free(b, n) && n !in visited ==>
      exists j :: 0 <= j < |Expansion(b, visited, entry, ds)| && Expansion(b, visited, entry, ds)[j].pos == n
    decreases |ds|
  {
    if ds != [] {
      var m := |ds| - 1;
      ExpansionEntries(b, visited, entry, ds[..m]);
      assert forall n :: n in ds <==> n in ds[..m] || n == ds[m] by {
        assert ds == ds[..m] + [ds[m]];
      }
      var earlier := Expansion(b, visited, entry, ds[..m]);
      var all := Expansion(b, visited, entry, ds);
      forall i | 0 <= i < |earlier|
        ensures all[i] == earlier[i]
      {
      }
      forall n | n in ds && Free(b, n) && n !in visited
        ensures exists j :: 0 <= j < |all| && all[j].pos == n
      {
        if n == ds[m] {
          assert all[|all| - 1].pos == n;
        } else {
          var j :| 0 <= j < |earlier| && earlier[j].pos == n;
          assert all[j].pos == n;
        }
      }
    }
  }

  /**
   * The inner loop of the search: tries the four neighbours of the entry's
   * cell in the order up, down, left, right and queues, with the route
   * extended by that cell, each one that is on the board, empty and not yet
   * visited.
   */
  method QueueNeighbours(g: Grid, queue: seq<Entry>, visited: set<Pos>, entry: Entry) returns (queue': seq<Entry>)
    requires IsGrid(g)
    ensures queue' == queue + Expansion(Cells(g), visited, entry, Directions(entry.pos))
    ensures |queue'| >= |queue| && queue'[..|queue|] == queue
    ensures forall i :: |queue| <= i < |queue'| ==>
      queue'[i].path == entry.path + [entry.pos] && Adjacent(entry.pos, queue'[i].pos) &&
      Free(Cells(g), queue'[i].pos) && queue'[i].pos !in visited
    ensures forall n :: Adjacent(entry.pos, n) && Free(Cells(g), n) && n !in visited ==>
      Queued(queue', n, Len(entry) + 1)
  {
    ghost var b := Cells(g);
    var u := entry.pos;
    var directions := Directions(u);
    queue' := queue;
    for k := 0 to 4
      invariant queue' == queue + Expansion(b, visited, entry, directions[..k])
    {
      var next := directions[k];
      assert directions[..k + 1][..k] == directions[..k] && directions[..k + 1][k] == next;
      assert InBounds(next) ==> (Free(b, next) <==> g[next.row, next.col].None?) by {
        assert next == Pos(next.row, next.col);
      }
      if 0 <= next.row < 9 && 0 <= next.col < 9 && g[next.row, next.col].None? && next !in visited {
        queue' := queue' + [Entry(next, entry.path + [u])];
      }
    }
    assert directions[..4] == directions;
    var added := Expansion(b, visited, entry, directions);
    ExpansionEntries(b, visited, entry, directions);
    forall i | |queue| <= i < |queue'|
      ensures queue'[i] == added[i - |queue|]
    {
    }
    forall n | Adjacent(u, n) && Free(b, n) && n !in visited
      ensures Queued(queue', n, Len(entry) + 1)
    {
      var j :| 0 <= j < |added| && added[j].pos == n;
      assert queue'[|queue| + j] == added[j];
    }
  }

  /**
   * Breadth-first search from (startRow, startCol) to (endRow, endCol)
   * through empty cells. An occupied destination is refused at once, even if
   * it could be reached. Otherwise a route is returned exactly when one
   * exists, and it is a shortest one. The grid is only read.
   */
  method FindPath(g: Grid, startRow: int, startCol: int, endRow: int, endCol: int) returns (r: Option<seq<Pos>>)
    requires IsGrid(g)
    requires InBounds(Pos(startRow, startCol)) && InBounds(Pos(endRow, endCol))
    ensures g[endRow, endCol].Some? ==> r.None?
    ensures r.Some? ==> IsPath(Cells(g), r.value, Pos(startRow, startCol), Pos(endRow, endCol))
    ensures r.Some? ==> forall p :: IsPath(Cells(g), p, Pos(startRow, startCol), Pos(endRow, endCol)) ==> |r.value| <= |p|
    ensures r.None? && g[endRow, endCol].None? ==>
      forall p :: !IsPath(Cells(g), p, Pos(startRow, startCol), Pos(endRow, endCol))
  {
    ghost var b := Cells(g);
    var s, e := Pos(startRow, startCol), Pos(endRow, endCol);
    if g[endRow, endCol].Some? {
      return None;
    }
    var queue := [Entry(s, [])];
    var visited: set<Pos> := {};
    ghost var dist: map<Pos, nat> := map[];
    while |queue| > 0
      invariant Searching(b, s, e, queue, visited, dist)
      decreases AllCells() - visited, |queue|
    {
      var entry := queue[0];
      if entry.pos.row == endRow && entry.pos.col == endCol {
        forall p | IsPath(b, p, s, e) ensures Len(entry) <= |p| {
          if |p| < Len(entry) {
            ShortRouteIsVisited(b, s, queue, visited, dist, p, e);
          }
        }
        return Some(entry.path + [entry.pos]);
      }
      if entry.pos in visited {
        SearchAfterSkip(b, s, e, queue, visited, dist);
        queue := queue[1..];
        continue;
      }
      var rest := QueueNeighbours(g, queue[1..], visited + {entry.pos}, entry);
      SearchAfterVisit(b, s, e, queue, rest, visited, dist);
      queue := rest;
      visited := visited + {entry.pos};
      dist := dist[entry.pos := Len(entry)];
    }
    forall p | IsPath(b, p, s, e) ensures false {
      ShortRouteIsVisited(b, s, queue, visited, dist, p, e);
    }
    return None;
  }
}
