/**
 * The statistics aggregator of sim_stats.c: per-action counters, the
 * deduplicated visit count backed by the `visited` matrix, dirt-cleaned
 * crediting and the totals rebuilt from a map.
 *
 * The C module keeps one static struct and one static matrix; here they
 * are the fields of one Stats object. Battery amounts are C floats,
 * modelled as reals.
 */
module SimStats {
  import opened Types
  import opened Pgm
  import opened SimWorld

  /** struct _stat as a value, the snapshot stats_get exposes. */
  datatype StatsRecord = StatsRecord(
    cellTotal: int, cellVisited: int, dirtTotal: int, dirtCleaned: int,
    batTotal: real, batMean: real, moves: seq<int>)

  /** The all-zero struct _stat. */
  const ZERO: StatsRecord := StatsRecord(0, 0, 0, 0, 0.0, 0.0, [0, 0, 0, 0, 0])

  // ---------------------------------------------------------------------------
  // What stats_rebuild_from_map counts
  // ---------------------------------------------------------------------------

  /** The number of non-wall cells among the first n of row i. */
  function RowNonWall(m: Map, i: int, n: int): nat
    reads m, m.cells
    requires m.Valid() && 0 <= i < WORLDSIZE && 0 <= n <= WORLDSIZE
  {
    if n == 0 then 0 else RowNonWall(m, i, n - 1) + (if m.cells[i, n - 1] != WALL then 1 else 0)
  }

  /** The sum of the depths (c - '0' for non-sentinel c) among the first n cells of row i. */
  function RowDirt(m: Map, i: int, n: int): int
    reads m, m.cells
    requires m.Valid() && 0 <= i < WORLDSIZE && 0 <= n <= WORLDSIZE
  {
    if n == 0 then 0 else RowDirt(m, i, n - 1) + DirtOf(m.cells[i, n - 1])
  }

  /** The non-wall cells of the first r rows, n columns wide. */
  function NonWall(m: Map, r: int, n: int): nat
    reads m, m.cells
    requires m.Valid() && 0 <= r <= WORLDSIZE && 0 <= n <= WORLDSIZE
  {
    if r == 0 then 0 else NonWall(m, r - 1, n) + RowNonWall(m, r - 1, n)
  }

  /** The summed depth of the first r rows, n columns wide. */
  function DirtSum(m: Map, r: int, n: int): int
    reads m, m.cells
    requires m.Valid() && 0 <= r <= WORLDSIZE && 0 <= n <= WORLDSIZE
  {
    if r == 0 then 0 else DirtSum(m, r - 1, n) + RowDirt(m, r - 1, n)
  }

  /** cell_total as rebuilt from a map: its non-wall cells. */
  function CellTotal(m: Map): nat
    reads m, m.cells
    requires m.Valid()
  {
    NonWall(m, Count(m.nrow), Count(m.ncol))
  }

  /** dirt_total as rebuilt from a map: the sum of its depths. */
  function DirtTotal(m: Map): int
    reads m, m.cells
    requires m.Valid()
  {
    DirtSum(m, Count(m.nrow), Count(m.ncol))
  }

  /** A row never has more non-wall cells than cells, and each carries at most MAXDIRT. */
  lemma {:induction false} RowBounds(m: Map, i: int, n: int)
    requires m.Valid() && 0 <= i < WORLDSIZE && 0 <= n <= WORLDSIZE
    requires forall j :: 0 <= j < n ==> IsMapChar(m.cells[i, j])
    ensures RowNonWall(m, i, n) <= n
    ensures 0 <= RowDirt(m, i, n) <= MAXDIRT * RowNonWall(m, i, n)
  {
    if n > 0 {
      RowBounds(m, i, n - 1);
      assert IsMapChar(m.cells[i, n - 1]);
    }
  }

  /**
   * When the first r rows and n columns hold only map characters, the totals
   * over them are bounded by the region: at most r * n non-wall cells, each
   * with at most MAXDIRT dirt.
   */
  lemma {:induction false} TotalsBounds(m: Map, r: int, n: int)
    requires m.Valid() && 0 <= r <= WORLDSIZE && 0 <= n <= WORLDSIZE
    requires forall i, j :: 0 <= i < r && 0 <= j < n ==> IsMapChar(m.cells[i, j])
    ensures NonWall(m, r, n) <= r * n
    ensures 0 <= DirtSum(m, r, n) <= MAXDIRT * NonWall(m, r, n)
  {
    if r > 0 {
      TotalsBounds(m, r - 1, n);
      RowBounds(m, r - 1, n);
      var prev, row := NonWall(m, r - 1, n), RowNonWall(m, r - 1, n);
      assert (r - 1) * n + n == r * n;
      assert MAXDIRT * prev + MAXDIRT * row == MAXDIRT * (prev + row);
    }
  }

  /** On a bordered map only the interior can be free: at most (nrow-2) * (ncol-2) cells. */
  lemma {:induction false} RowNonWallBordered(m: Map, i: int, n: int)
    requires m.Valid() && m.Bordered() && 0 < i < m.nrow - 1 && 1 <= n <= m.ncol <= WORLDSIZE
    ensures RowNonWall(m, i, n) <= n - 1
  {
    if n > 1 {
      RowNonWallBordered(m, i, n - 1);
    } else {
      assert OnBorder(m.nrow, m.ncol, i, 0);
    }
  }

  lemma RowNonWallFull(m: Map, i: int, n: int)
    requires m.Valid() && m.Bordered() && 0 < i < m.nrow - 1 && 2 <= n == m.ncol <= WORLDSIZE
    ensures RowNonWall(m, i, n) <= n - 2
  {
    RowNonWallBordered(m, i, n - 1);
    assert OnBorder(m.nrow, m.ncol, i, n - 1);
  }

  /** A border row (the first or the last) holds walls only. */
  lemma {:induction false} RowNonWallBorderRow(m: Map, i: int, n: int)
    requires m.Valid() && m.Bordered() && (i == 0 || i == m.nrow - 1) && 0 <= i && 0 <= n <= m.ncol
    ensures RowNonWall(m, i, n) == 0
  {
    if n > 0 {
      RowNonWallBorderRow(m, i, n - 1);
      assert OnBorder(m.nrow, m.ncol, i, n - 1);
    }
  }

  lemma {:induction false} NonWallBordered(m: Map, r: int)
    requires m.Valid() && m.Bordered() && 2 <= m.nrow && 2 <= m.ncol && 1 <= r <= m.nrow
    ensures NonWall(m, r, m.ncol) <= (r - 1) * (m.ncol - 2)
  {
    if r == 1 {
      RowNonWallBorderRow(m, 0, m.ncol);
    } else {
      NonWallBordered(m, r - 1);
      if r - 1 == m.nrow - 1 {
        RowNonWallBorderRow(m, r - 1, m.ncol);
      } else {
        RowNonWallFull(m, r - 1, m.ncol);
      }
      assert (r - 2) * (m.ncol - 2) + (m.ncol - 2) == (r - 1) * (m.ncol - 2);
    }
  }

  /** An inner row of a map without obstacles: column 0 is its only wall among the first n < ncol cells. */
  lemma {:induction false} RowNonWallInner(m: Map, i: int, n: int)
    requires m.Valid() && m.OnlyBorderWalls() && 0 < i < m.nrow - 1 && 1 <= n < m.ncol && m.ncol <= WORLDSIZE
    ensures RowNonWall(m, i, n) == n - 1
  {
    if n > 1 {
      RowNonWallInner(m, i, n - 1);
      assert !OnBorder(m.nrow, m.ncol, i, n - 1);
    } else {
      assert OnBorder(m.nrow, m.ncol, i, 0);
    }
  }

  /** The first r rows of a map without obstacles, 1 <= r < nrow: r - 1 inner rows of ncol - 2 free cells. */
  lemma {:induction false} NonWallOnlyBorder(m: Map, r: int)
    requires m.Valid() && m.OnlyBorderWalls() && 2 <= m.nrow && 2 <= m.ncol && 1 <= r < m.nrow
    ensures NonWall(m, r, m.ncol) == (r - 1) * (m.ncol - 2)
  {
    if r == 1 {
      RowNonWallBorderRow(m, 0, m.ncol);
    } else {
      NonWallOnlyBorder(m, r - 1);
      RowNonWallInnerFull(m, r - 1);
      var w := m.ncol - 2;
      assert (r - 2) * w + w == (r - 1) * w;
    }
  }

  /** A whole inner row of a map without obstacles: ncol - 2 free cells. */
  lemma RowNonWallInnerFull(m: Map, i: int)
    requires m.Valid() && m.OnlyBorderWalls() && 0 < i < m.nrow - 1 && 2 <= m.ncol <= WORLDSIZE
    ensures RowNonWall(m, i, m.ncol) == m.ncol - 2
  {
    RowNonWallInner(m, i, m.ncol - 1);
    assert OnBorder(m.nrow, m.ncol, i, m.ncol - 1);
  }

  /** cell_total of a map without obstacles counts exactly the (nrow-2) x (ncol-2) interior. */
  lemma CellTotalOnlyBorder(m: Map)
    requires m.Valid() && m.OnlyBorderWalls() && 2 <= m.nrow && 2 <= m.ncol
    ensures CellTotal(m) == (m.nrow - 2) * (m.ncol - 2)
  {
    NonWallOnlyBorder(m, m.nrow - 1);
    RowNonWallBorderRow(m, m.nrow - 1, m.ncol);
  }

  /** cell_total of a map whose border is walls counts at most the (nrow-2) x (ncol-2) interior. */
  lemma CellTotalBordered(m: Map)
    requires m.Valid() && m.Bordered() && 2 <= m.nrow && 2 <= m.ncol
    ensures CellTotal(m) <= (m.nrow - 2) * (m.ncol - 2)
  {
    RowNonWallBorderRow(m, m.nrow - 1, m.ncol);
    NonWallBordered(m, m.nrow - 1);
  }

  // ---------------------------------------------------------------------------
  // The aggregator
  // ---------------------------------------------------------------------------

  /** struct _stat stats together with the visited matrix. */
  class Stats {
    var cellTotal: int
    var cellVisited: int
    var dirtTotal: int
    var dirtCleaned: int
    var batTotal: real
    var batMean: real
    /** moves[k]: the number of actions of kind k (FWD, TURN, BUMP, CLEAN, LOAD). */
    const moves: array<int>
    const visited: array2<bool>

    /** The cells visited since the last reset or rebuild. */
    ghost function Visited(): set<(int, int)>
      reads visited
      requires visited.Length0 == WORLDSIZE && visited.Length1 == WORLDSIZE
    {
      set i, j | 0 <= i < WORLDSIZE && 0 <= j < WORLDSIZE && visited[i, j] :: (i, j)
    }

    /** The shapes of the arrays, and cell_visited counts the true entries of visited. */
    ghost predicate Valid()
      reads this, visited
    {
      Shape() && cellVisited == |Visited()|
    }

    /** A counter per action kind and an entry per cell of the grid. */
    predicate Shape() {
      moves.Length == NMOVES && visited.Length0 == WORLDSIZE && visited.Length1 == WORLDSIZE
    }

    /** stats_get: the struct's current value. */
    function Get(): (s: StatsRecord)
      reads this, moves
      ensures |s.moves| == moves.Length
    {
      StatsRecord(cellTotal, cellVisited, dirtTotal, dirtCleaned, batTotal, batMean, moves[..])
    }

    /** The static zero-initialised struct and matrix. */
    constructor ()
      ensures Valid() && fresh(moves) && fresh(visited)
      ensures Get() == ZERO
      ensures forall i, j :: 0 <= i < WORLDSIZE && 0 <= j < WORLDSIZE ==> !visited[i, j]
    {
      cellTotal, cellVisited, dirtTotal, dirtCleaned := 0, 0, 0, 0;
      batTotal, batMean := 0.0, 0.0;
      moves := new int[NMOVES](k => 0);
      visited := new bool[WORLDSIZE, WORLDSIZE]((i, j) => false);
      new;
      assert Visited() == {};
      assert moves[..] == [0, 0, 0, 0, 0];
    }

    /** stats_move: one more action of the given kind; the C code does not check kind. */
    method Move(kind: int)
      requires Valid() && 0 <= kind < NMOVES
      modifies moves
      ensures Valid()
      ensures Get() == old(Get()).(moves := old(moves[..])[kind := old(moves[kind]) + 1])
    {
      moves[kind] := moves[kind] + 1;
    }

    /** stats_bump: one more BUMP. */
    method Bump()
      requires Valid()
      modifies moves
      ensures Valid()
      ensures Get() == old(Get()).(moves := old(moves[..])[BUMP := old(moves[BUMP]) + 1])
    {
      moves[BUMP] := moves[BUMP] + 1;
    }

    /**
     * stats_visit_cell for the robot's cell (x, y): the first visit of an
     * on-grid cell marks it and counts it; anything else changes nothing.
     */
    method VisitCell(x: int, y: int)
      requires Valid()
      modifies this, visited
      ensures Valid()
      ensures InGrid(y, x) ==> Visited() == old(Visited()) + {(y, x)}
      ensures !InGrid(y, x) ==> Visited() == old(Visited())
      ensures cellVisited == old(cellVisited) + (if InGrid(y, x) && !old(visited[y, x]) then 1 else 0)
      ensures Get() == old(Get()).(cellVisited := cellVisited)
      ensures forall i, j :: 0 <= i < WORLDSIZE && 0 <= j < WORLDSIZE && (i, j) != (y, x) ==> visited[i, j] == old(visited[i, j])
      ensures InGrid(y, x) ==> visited[y, x]
    {
      if 0 <= x < WORLDSIZE && 0 <= y < WORLDSIZE {
        if !visited[y, x] {
          ghost var before := Visited();
          visited[y, x] := true;
          cellVisited := cellVisited + 1;
          assert Visited() == before + {(y, x)};
        }
      }
    }

    /** stats_clean_action: one more CLEAN; a cell cleaned to depth 0 is credited. */
    method CleanAction(before: int, after: int)
      requires Valid()
      modifies this, moves
      ensures Valid()
      ensures dirtCleaned == old(dirtCleaned) + (if before > 0 && after == 0 then 1 else 0)
      ensures Get() == old(Get()).(dirtCleaned := dirtCleaned, moves := old(moves[..])[CLEAN := old(moves[CLEAN]) + 1])
      ensures unchanged(visited)
    {
      moves[CLEAN] := moves[CLEAN] + 1;
      if before > 0 && after == 0 {
        dirtCleaned := dirtCleaned + 1;
      }
    }

    /** stats_battery_consume: the amount is added to bat_total. */
    method BatteryConsume(amount: real)
      requires Valid()
      modifies this
      ensures Valid()
      ensures batTotal == old(batTotal) + amount
      ensures 0.0 <= amount ==> old(batTotal) <= batTotal
      ensures Get() == old(Get()).(batTotal := batTotal)
    {
      batTotal := batTotal + amount;
    }

    /** stats_set_mean_battery. */
    method SetMeanBattery(mean: real)
      requires Valid()
      modifies this
      ensures Valid()
      ensures Get() == old(Get()).(batMean := mean)
    {
      batMean := mean;
    }

    /** Every entry of visited false, and so no cell counted. */
    method ClearVisited()
      requires Shape()
      modifies this, visited
      ensures Valid() && cellVisited == 0 && Visited() == {}
      ensures forall i, j :: 0 <= i < WORLDSIZE && 0 <= j < WORLDSIZE ==> !visited[i, j]
      ensures Get() == old(Get()).(cellVisited := 0)
    {
      for i := 0 to WORLDSIZE
        invariant Get() == old(Get())
        invariant forall i', j :: 0 <= i' < i && 0 <= j < WORLDSIZE ==> !visited[i', j]
      {
        ClearRow(i);
      }
      cellVisited := 0;
      assert Visited() == {};
    }

    /** One row of visited set to false. */
    method ClearRow(i: int)
      requires visited.Length0 == WORLDSIZE && visited.Length1 == WORLDSIZE && 0 <= i < WORLDSIZE
      modifies visited
      ensures forall j :: 0 <= j < WORLDSIZE ==> !visited[i, j]
      ensures forall i', j :: 0 <= i' < WORLDSIZE && 0 <= j < WORLDSIZE && i' != i ==> visited[i', j] == old(visited[i', j])
    {
      for j := 0 to WORLDSIZE
        invariant forall j' :: 0 <= j' < j ==> !visited[i, j']
        invariant forall i', j' :: 0 <= i' < WORLDSIZE && 0 <= j' < WORLDSIZE && i' != i ==> visited[i', j'] == old(visited[i', j'])
      {
        visited[i, j] := false;
      }
    }

    /**
     * stats_rebuild_from_map: the visit record cleared, cell_total the map's
     * non-wall cells and dirt_total the sum of its depths; the counters and
     * battery figures stay.
     */
    method RebuildFromMap(m: Map)
      requires Valid() && m.Valid()
      modifies this, visited
      ensures Valid() && Visited() == {}
      ensures forall i, j :: 0 <= i < WORLDSIZE && 0 <= j < WORLDSIZE ==> !visited[i, j]
      ensures Get() == old(Get()).(cellVisited := 0, cellTotal := CellTotal(m), dirtTotal := DirtTotal(m))
    {
      ClearVisited();
      var cells, dirtSum := CountMap(m);
      cellTotal, dirtTotal := cells, dirtSum;
    }

    /** The outer loop of stats_rebuild_from_map over the nrow x ncol region. */
    static method CountMap(m: Map) returns (cells: int, dirtSum: int)
      requires m.Valid()
      ensures cells == CellTotal(m) && dirtSum == DirtTotal(m)
    {
      cells, dirtSum := 0, 0;
      var nr, nc := Count(m.nrow), Count(m.ncol);
      for i := 0 to nr
        invariant cells == NonWall(m, i, nc) && dirtSum == DirtSum(m, i, nc)
      {
        var rowCells, rowDirt := CountRow(m, i, nc);
        cells, dirtSum := cells + rowCells, dirtSum + rowDirt;
      }
    }

    /** The inner loop of stats_rebuild_from_map over row i. */
    static method CountRow(m: Map, i: int, n: int) returns (cells: int, dirtSum: int)
      requires m.Valid() && 0 <= i < WORLDSIZE && 0 <= n <= WORLDSIZE
      ensures cells == RowNonWall(m, i, n) && dirtSum == RowDirt(m, i, n)
    {
      cells, dirtSum := 0, 0;
      for j := 0 to n
        invariant cells == RowNonWall(m, i, j) && dirtSum == RowDirt(m, i, j)
      {
        var c := m.cells[i, j];
        if c != WALL {
          cells := cells + 1;
        }
        if c != WALL && c != EMPTY && c != BASE {
          dirtSum := dirtSum + (CharValue(c) - DIGIT_BASE as int);
        }
      }
    }

    /** stats_reset: every field zero and every visited entry false. */
    method Reset()
      requires Valid()
      modifies this, moves, visited
      ensures Valid() && Get() == ZERO && Visited() == {}
      ensures forall i, j :: 0 <= i < WORLDSIZE && 0 <= j < WORLDSIZE ==> !visited[i, j]
    {
      cellTotal, cellVisited, dirtTotal, dirtCleaned := 0, 0, 0, 0;
      batTotal, batMean := 0.0, 0.0;
      ClearMoves();
      ClearVisited();
    }

    /** Every action counter zero. */
    method ClearMoves()
      requires Shape()
      modifies moves
      ensures moves[..] == [0, 0, 0, 0, 0]
    {
      for k := 0 to NMOVES
        invariant forall k' :: 0 <= k' < k ==> moves[k'] == 0
      {
        moves[k] := 0;
      }
      assert moves[..] == [0, 0, 0, 0, 0];
    }
  }

  /** The per-call effects of stats_visit_cell compose: a second visit of a cell changes nothing. */
  method VisitTwice(s: Stats, x: int, y: int)
    requires s.Valid()
    modifies s, s.visited
    ensures s.Valid()
    ensures s.cellVisited == old(s.cellVisited) + (if InGrid(y, x) && !old(s.visited[y, x]) then 1 else 0)
    ensures s.Visited() == old(s.Visited()) + (if InGrid(y, x) then {(y, x)} else {})
  {
    s.VisitCell(x, y);
    s.VisitCell(x, y);
  }

  /** cell_visited never exceeds the number of cells of the matrix. */
  lemma VisitedBound(s: Stats)
    requires s.Valid()
    ensures 0 <= s.cellVisited <= WORLDAREA
  {
    var all := set i, j | 0 <= i < WORLDSIZE && 0 <= j < WORLDSIZE :: (i, j);
    assert s.Visited() <= all;
    SubsetSize(s.Visited(), all);
    GridSize();
  }

  lemma SubsetSize<T>(a: set<T>, b: set<T>)
    requires a <= b
    ensures |a| <= |b|
  {
    assert b == a + (b - a);
    assert a * (b - a) == {};
  }

  /** The grid has WORLDAREA cells. */
  lemma GridSize()
    ensures |set i, j | 0 <= i < WORLDSIZE && 0 <= j < WORLDSIZE :: (i, j)| == WORLDAREA
  {
    RectSize(WORLDSIZE);
  }

  lemma {:induction false} RectSize(r: nat)
    requires r <= WORLDSIZE
    ensures |set i, j | 0 <= i < r && 0 <= j < WORLDSIZE :: (i, j)| == r * WORLDSIZE
  {
    if r > 0 {
      RectSize(r - 1);
      var prev := set i, j | 0 <= i < r - 1 && 0 <= j < WORLDSIZE :: (i, j);
      var i := r - 1;
      var row := set j | 0 <= j < WORLDSIZE :: (i, j);
      assert (set i, j | 0 <= i < r && 0 <= j < WORLDSIZE :: (i, j)) == prev + row;
      assert prev * row == {};
      RowSize(i, WORLDSIZE);
    } else {
      assert (set i, j | 0 <= i < r && 0 <= j < WORLDSIZE :: (i, j)) == {};
    }
  }

  lemma {:induction false} RowSize(i: int, n: nat)
    ensures |set j | 0 <= j < n :: (i, j)| == n
  {
    if n > 0 {
      RowSize(i, n - 1);
      var prev := set j | 0 <= j < n - 1 :: (i, j);
      assert (set j | 0 <= j < n :: (i, j)) == prev + {(i, n - 1)};
    } else {
      assert (set j | 0 <= j < n :: (i, j)) == {};
    }
  }
}
