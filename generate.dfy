/**
 * The standalone map generator of maps/generate.c: it fills an int grid in
 * place with plain-PGM sample values (128 wall, 255 empty, 1..MAXDIRT
 * dirt), draws a border, one kind of obstacle and the dirt cells, and
 * writes the grid as a PGM file.
 *
 * rand() is the stream `rnd`; a stream that runs out before the generator
 * is done gives `ok == false`. The grid is the caller's
 * int m[WORLDSIZE][WORLDSIZE], an `array2<int>`.
 */
module MapGen {
  import opened Types
  import opened Pgm
  import opened SimWorld

  const GEN_WALL: int := 128
  const GEN_EMPTY: int := 255
  const GEN_BASE: int := 0

  /** enum obstacle. */
  const NONE: int := 0
  const VERT: int := 1
  const HORIZ: int := 2
  const RANDOM: int := 3

  predicate IsGrid(m: array2<int>) {
    m.Length0 == WORLDSIZE && m.Length1 == WORLDSIZE
  }

  // ---------------------------------------------------------------------------
  // Draws
  // ---------------------------------------------------------------------------

  /**
   * vertical_wall(m, nrow, ncol) from the draws r1, r2, r3: length
   * rand() % nrow / 2 + nrow / 4, first row rand() % nrow / 2 + 2, column
   * ncol / 2 + rand() % 10 - 5.
   */
  function VerticalDraw(nrow: int, ncol: int, r1: nat, r2: nat, r3: nat): (s: Segment)
    requires nrow != 0
    ensures s.vertical && 2 <= s.init
    ensures ncol / 2 - 5 <= s.line < ncol / 2 + 5 || ncol < 0
  {
    Segment(true, CDiv(ncol, 2) + CMod(r3, 10) - 5, CDiv(CMod(r2, nrow), 2) + 2, CDiv(CMod(r1, nrow), 2) + CDiv(nrow, 4))
  }

  /**
   * horiz_wall(m, nrow, ncol) from the draws r1, r2, r3: length
   * rand() % ncol / 2 + ncol / 4, first column rand() % ncol / 2 + 2, row
   * nrow / 2 + rand() % 10 - 5.
   */
  function HorizDraw(nrow: int, ncol: int, r1: nat, r2: nat, r3: nat): (s: Segment)
    requires ncol != 0
    ensures !s.vertical && 2 <= s.init
    ensures nrow / 2 - 5 <= s.line < nrow / 2 + 5 || nrow < 0
  {
    Segment(false, CDiv(nrow, 2) + CMod(r3, 10) - 5, CDiv(CMod(r2, ncol), 2) + 2, CDiv(CMod(r1, ncol), 2) + CDiv(ncol, 4))
  }

  /** On a full-size grid a vertical wall can run 12 rows past the last row. */
  lemma VerticalWallCanLeaveGrid()
    ensures VerticalDraw(WORLDSIZE, WORLDSIZE, 49, 49, 0) == Segment(true, 20, 26, 36)
    ensures !InsideGrid(VerticalDraw(WORLDSIZE, WORLDSIZE, 49, 49, 0))
  {
  }

  /** With at most 40 rows and 10..WORLDSIZE columns, every vertical draw stays inside the array. */
  lemma {:induction false} VerticalDrawFits(nrow: int, ncol: int, r1: nat, r2: nat, r3: nat)
    requires 1 <= nrow <= 40 && 10 <= ncol <= WORLDSIZE
    ensures InsideGrid(VerticalDraw(nrow, ncol, r1, r2, r3))
  {
    var s := VerticalDraw(nrow, ncol, r1, r2, r3);
    assert s.init <= (nrow - 1) / 2 + 2;
    assert s.len <= (nrow - 1) / 2 + nrow / 4;
  }

  /** The cells a segment covers. */
  function CoveredCells(s: Segment): (c: set<(int, int)>)
    ensures forall i, j :: (i, j) in c <==> 0 <= i < WORLDSIZE && 0 <= j < WORLDSIZE && Covers(s, i, j)
  {
    set i, j | 0 <= i < WORLDSIZE && 0 <= j < WORLDSIZE && Covers(s, i, j) :: (i, j)
  }

  /** Whether the rejection draws rand() % d + off stay on the grid: d is not 0 and off..off+|d|-1 fits. */
  predicate DrawFits(d: int, off: int) {
    d != 0 && 0 <= off && off + Abs(d) <= WORLDSIZE
  }

  /** random_obs(m, nrow, ncol, ...) draws rows rand() % (nrow - 4) + 2 and columns likewise. */
  predicate RandomObsFits(nrow: int, ncol: int) {
    DrawFits(nrow - 4, 2) && DrawFits(ncol - 4, 2)
  }

  /** The dirt loop draws rows rand() % (nrow - 2) + 1 and columns likewise. */
  predicate DirtFits(nrow: int, ncol: int) {
    DrawFits(nrow - 2, 1) && DrawFits(ncol - 2, 1)
  }

  /** For a real map the draw ranges are the interior bands. */
  lemma DrawRanges(n: int)
    requires 5 <= n <= WORLDSIZE
    ensures DrawFits(n - 4, 2) && 2 + Abs(n - 4) == n - 2
    ensures DrawFits(n - 2, 1) && 1 + Abs(n - 2) == n - 1
  {
  }

  /** The obstacle count of gen_map: (int)(WORLDSIZE * WORLDSIZE * density). */
  function ObstacleCount(density: real): int {
    Trunc((WORLDAREA as real) * density)
  }

  /**
   * What gen_map needs of its obstacle draws: the swapped call
   * vertical_wall(m, ncol, nrow) or horiz_wall(m, ncol, nrow) must stay on
   * the grid, and random_obs(m, ncol, nrow, ...) must draw on it.
   */
  predicate ObstaclesFit(nrow: int, ncol: int, obs: int, density: real, rnd: seq<nat>) {
    (obs == VERT && |rnd| >= 3 ==> ncol != 0 && InsideGrid(VerticalDraw(ncol, nrow, rnd[0], rnd[1], rnd[2]))) &&
    (obs == HORIZ && |rnd| >= 3 ==> nrow != 0 && InsideGrid(HorizDraw(ncol, nrow, rnd[0], rnd[1], rnd[2]))) &&
    (obs == RANDOM && ObstacleCount(density) > 0 ==> RandomObsFits(ncol, nrow))
  }

  /**
   * The four maps the generator's main writes, 50 x 50 with 50 dirty cells
   * and no obstacle or 25, 75 and 125 random ones, meet what gen_map needs
   * of its sizes whatever rand() returns.
   */
  lemma MainMapsFit(density: real, rnd: seq<nat>)
    requires density == 0.0 || density == 0.01 || density == 0.03 || density == 0.05
    ensures BorderFits(WORLDSIZE, WORLDSIZE) && DirtFits(WORLDSIZE, WORLDSIZE)
    ensures ObstaclesFit(WORLDSIZE, WORLDSIZE, NONE, density, rnd)
    ensures ObstaclesFit(WORLDSIZE, WORLDSIZE, RANDOM, density, rnd)
    ensures ObstacleCount(density) == Trunc(2500.0 * density) && 0 <= ObstacleCount(density) <= 125
    ensures density == 0.0 ==> ObstacleCount(density) == 0
    ensures density == 0.05 ==> ObstacleCount(density) == 125
  {
    DrawRanges(WORLDSIZE);
  }

  // ---------------------------------------------------------------------------
  // Filling the grid
  // ---------------------------------------------------------------------------

  /** The first loop of gen_map: every cell of the array becomes EMPTY. */
  method FillEmpty(m: array2<int>)
    requires IsGrid(m)
    modifies m
    ensures forall i, j :: 0 <= i < WORLDSIZE && 0 <= j < WORLDSIZE ==> m[i, j] == GEN_EMPTY
  {
    for i := 0 to WORLDSIZE
      invariant forall i', j :: 0 <= i' < i && 0 <= j < WORLDSIZE ==> m[i', j] == GEN_EMPTY
    {
      for j := 0 to WORLDSIZE
        invariant forall i', j' :: 0 <= i' < WORLDSIZE && 0 <= j' < WORLDSIZE && (i' < i || (i' == i && j' < j)) ==> m[i', j'] == GEN_EMPTY
      {
        m[i, j] := GEN_EMPTY;
      }
    }
  }

  /** The border loops of gen_map: column 0 and ncol-1 of each row, then row 0 and nrow-1 of each column. */
  method BorderWalls(m: array2<int>, nrow: int, ncol: int)
    requires IsGrid(m) && nrow <= WORLDSIZE && ncol <= WORLDSIZE && BorderFits(nrow, ncol)
    modifies m
    ensures forall i, j :: 0 <= i < WORLDSIZE && 0 <= j < WORLDSIZE ==>
      m[i, j] == if OnBorder(nrow, ncol, i, j) then GEN_WALL else old(m[i, j])
  {
    for i := 0 to Count(nrow)
      invariant forall i', j :: 0 <= i' < WORLDSIZE && 0 <= j < WORLDSIZE ==>
        m[i', j] == if i' < i && (j == 0 || j == ncol - 1) then GEN_WALL else old(m[i', j])
    {
      m[i, 0] := GEN_WALL;
      m[i, ncol - 1] := GEN_WALL;
    }
    for j := 0 to Count(ncol)
      invariant forall i, j' :: 0 <= i < WORLDSIZE && 0 <= j' < WORLDSIZE ==>
        m[i, j'] == if (0 <= i < nrow && (j' == 0 || j' == ncol - 1)) || (j' < j && (i == 0 || i == nrow - 1)) then GEN_WALL else old(m[i, j'])
    {
      m[0, j] := GEN_WALL;
      m[nrow - 1, j] := GEN_WALL;
    }
  }

  /** The loop of vertical_wall and horiz_wall: each covered cell becomes a wall. */
  method FillLine(m: array2<int>, s: Segment)
    requires IsGrid(m) && InsideGrid(s)
    modifies m
    ensures forall i, j :: 0 <= i < WORLDSIZE && 0 <= j < WORLDSIZE ==>
      m[i, j] == if Covers(s, i, j) then GEN_WALL else old(m[i, j])
  {
    for k := 0 to Count(s.len)
      invariant forall i, j :: 0 <= i < WORLDSIZE && 0 <= j < WORLDSIZE ==>
        m[i, j] == if Covers(Segment(s.vertical, s.line, s.init, k), i, j) then GEN_WALL else old(m[i, j])
    {
      if s.vertical {
        m[s.init + k, s.line] := GEN_WALL;
      } else {
        m[s.line, s.init + k] := GEN_WALL;
      }
    }
  }

  /**
   * vertical_wall(m, nrow, ncol) or horiz_wall(m, nrow, ncol): three draws,
   * then the wall; nothing when the stream runs out first.
   */
  method Wall(m: array2<int>, vertical: bool, nrow: int, ncol: int, rnd: seq<nat>) returns (rest: seq<nat>, ok: bool)
    requires IsGrid(m)
    requires |rnd| >= 3 && vertical ==> nrow != 0 && InsideGrid(VerticalDraw(nrow, ncol, rnd[0], rnd[1], rnd[2]))
    requires |rnd| >= 3 && !vertical ==> ncol != 0 && InsideGrid(HorizDraw(nrow, ncol, rnd[0], rnd[1], rnd[2]))
    modifies m
    ensures ok <==> |rnd| >= 3
    ensures !ok ==> rest == rnd && unchanged(m)
    ensures ok ==> rest == rnd[3..]
    ensures ok ==> forall i, j :: 0 <= i < WORLDSIZE && 0 <= j < WORLDSIZE ==>
      m[i, j] == if Covers(if vertical then VerticalDraw(nrow, ncol, rnd[0], rnd[1], rnd[2])
                           else HorizDraw(nrow, ncol, rnd[0], rnd[1], rnd[2]), i, j) then GEN_WALL else old(m[i, j])
  {
    if |rnd| < 3 {
      return rnd, false;
    }
    var s := if vertical then VerticalDraw(nrow, ncol, rnd[0], rnd[1], rnd[2]) else HorizDraw(nrow, ncol, rnd[0], rnd[1], rnd[2]);
    FillLine(m, s);
    return rnd[3..], true;
  }

  /**
   * The do-while of random_obs and of the dirt loop: draw a row
   * rand() % drow + off and a column rand() % dcol + off until the cell is
   * EMPTY.
   */
  method DrawEmpty(m: array2<int>, drow: int, dcol: int, off: int, rnd: seq<nat>) returns (row: int, col: int, rest: seq<nat>, ok: bool)
    requires IsGrid(m) && DrawFits(drow, off) && DrawFits(dcol, off)
    ensures |rest| <= |rnd| && rest == rnd[|rnd| - |rest|..]
    ensures ok ==> off <= row < off + Abs(drow) && off <= col < off + Abs(dcol) && m[row, col] == GEN_EMPTY
  {
    row, col, rest, ok := 0, 0, rnd, false;
    while !ok
      invariant |rest| <= |rnd| && rest == rnd[|rnd| - |rest|..]
      invariant ok ==> off <= row < off + Abs(drow) && off <= col < off + Abs(dcol) && m[row, col] == GEN_EMPTY
      decreases |rest|, !ok
    {
      if |rest| < 2 {
        return;
      }
      row := CMod(rest[0], drow) + off;
      col := CMod(rest[1], dcol) + off;
      rest := rest[2..];
      ok := m[row, col] == GEN_EMPTY;
    }
  }

  /**
   * random_obs(m, nrow, ncol, nobs): nobs times, an EMPTY cell of the band
   * 2..nrow-3 x 2..ncol-3 found by rejection becomes a wall. `walls` holds
   * the cells turned: nobs distinct cells that were EMPTY.
   */
  method RandomObs(m: array2<int>, nrow: int, ncol: int, nobs: int, rnd: seq<nat>)
    returns (rest: seq<nat>, ok: bool, ghost walls: set<(int, int)>)
    requires IsGrid(m) && (nobs > 0 ==> RandomObsFits(nrow, ncol))
    modifies m
    ensures |rest| <= |rnd| && rest == rnd[|rnd| - |rest|..]
    ensures ok ==> |walls| == Count(nobs)
    ensures forall c :: c in walls ==>
      2 <= c.0 < 2 + Abs(nrow - 4) && 2 <= c.1 < 2 + Abs(ncol - 4) && c.0 < WORLDSIZE && c.1 < WORLDSIZE &&
      old(m[c.0, c.1]) == GEN_EMPTY && m[c.0, c.1] == GEN_WALL
    ensures forall i, j :: 0 <= i < WORLDSIZE && 0 <= j < WORLDSIZE && (i, j) !in walls ==> m[i, j] == old(m[i, j])
  {
    rest, ok, walls := rnd, true, {};
    for n := 0 to Count(nobs)
      invariant |rest| <= |rnd| && rest == rnd[|rnd| - |rest|..]
      invariant |walls| == n
      invariant forall c :: c in walls ==>
        2 <= c.0 < 2 + Abs(nrow - 4) && 2 <= c.1 < 2 + Abs(ncol - 4) && c.0 < WORLDSIZE && c.1 < WORLDSIZE &&
        old(m[c.0, c.1]) == GEN_EMPTY && m[c.0, c.1] == GEN_WALL
      invariant forall i, j :: 0 <= i < WORLDSIZE && 0 <= j < WORLDSIZE && (i, j) !in walls ==> m[i, j] == old(m[i, j])
    {
      var row, col;
      row, col, rest, ok := DrawEmpty(m, nrow - 4, ncol - 4, 2, rest);
      if !ok {
        return;
      }
      assert (row, col) !in walls;
      m[row, col] := GEN_WALL;
      walls := walls + {(row, col)};
    }
  }

  /**
   * The dirt loop of gen_map: num times, an EMPTY cell of the band
   * 1..nrow-2 x 1..ncol-2 found by rejection gets depth rand() % MAXDIRT + 1.
   * `dirt` holds the cells: num distinct cells that were EMPTY.
   */
  method PlaceDirt(m: array2<int>, nrow: int, ncol: int, num: int, rnd: seq<nat>)
    returns (rest: seq<nat>, ok: bool, ghost dirt: set<(int, int)>)
    requires IsGrid(m) && (num > 0 ==> DirtFits(nrow, ncol))
    modifies m
    ensures |rest| <= |rnd| && rest == rnd[|rnd| - |rest|..]
    ensures ok ==> |dirt| == Count(num)
    ensures forall c :: c in dirt ==>
      1 <= c.0 < 1 + Abs(nrow - 2) && 1 <= c.1 < 1 + Abs(ncol - 2) && c.0 < WORLDSIZE && c.1 < WORLDSIZE &&
      old(m[c.0, c.1]) == GEN_EMPTY && 1 <= m[c.0, c.1] <= MAXDIRT
    ensures forall i, j :: 0 <= i < WORLDSIZE && 0 <= j < WORLDSIZE && (i, j) !in dirt ==> m[i, j] == old(m[i, j])
  {
    rest, ok, dirt := rnd, true, {};
    for n := 0 to Count(num)
      invariant |rest| <= |rnd| && rest == rnd[|rnd| - |rest|..]
      invariant |dirt| == n
      invariant forall c :: c in dirt ==>
        1 <= c.0 < 1 + Abs(nrow - 2) && 1 <= c.1 < 1 + Abs(ncol - 2) && c.0 < WORLDSIZE && c.1 < WORLDSIZE &&
        old(m[c.0, c.1]) == GEN_EMPTY && 1 <= m[c.0, c.1] <= MAXDIRT
      invariant forall i, j :: 0 <= i < WORLDSIZE && 0 <= j < WORLDSIZE && (i, j) !in dirt ==> m[i, j] == old(m[i, j])
    {
      var row, col;
      row, col, rest, ok := DrawEmpty(m, nrow - 2, ncol - 2, 1, rest);
      if !ok {
        return;
      }
      if |rest| == 0 {
        ok := false;
        return;
      }
      assert (row, col) !in dirt;
      m[row, col] := rest[0] % MAXDIRT + 1;
      rest := rest[1..];
      dirt := dirt + {(row, col)};
    }
  }

  /**
   * The obstacle switch of gen_map, with its swapped arguments: VERT calls
   * vertical_wall(m, ncol, nrow), HORIZ horiz_wall(m, ncol, nrow), RANDOM
   * random_obs(m, ncol, nrow, (int)(WORLDSIZE * WORLDSIZE * density)).
   * `walls` holds the cells turned into walls.
   */
  method Obstacles(m: array2<int>, nrow: int, ncol: int, obs: int, density: real, rnd: seq<nat>)
    returns (rest: seq<nat>, ok: bool, ghost walls: set<(int, int)>)
    requires IsGrid(m) && ObstaclesFit(nrow, ncol, obs, density, rnd)
    modifies m
    ensures |rest| <= |rnd| && rest == rnd[|rnd| - |rest|..]
    ensures forall c :: c in walls ==> 0 <= c.0 < WORLDSIZE && 0 <= c.1 < WORLDSIZE && m[c.0, c.1] == GEN_WALL
    ensures forall i, j :: 0 <= i < WORLDSIZE && 0 <= j < WORLDSIZE && (i, j) !in walls ==> m[i, j] == old(m[i, j])
    ensures obs != VERT && obs != HORIZ && obs != RANDOM ==> ok && walls == {} && rest == rnd
    ensures obs == VERT || obs == HORIZ ==> (ok <==> |rnd| >= 3) && (!ok ==> walls == {} && unchanged(m))
    ensures obs == VERT && ok ==> walls == CoveredCells(VerticalDraw(ncol, nrow, rnd[0], rnd[1], rnd[2]))
    ensures obs == HORIZ && ok ==> walls == CoveredCells(HorizDraw(ncol, nrow, rnd[0], rnd[1], rnd[2]))
    ensures obs == RANDOM ==>
      (ok ==> |walls| == Count(ObstacleCount(density))) &&
      forall c :: c in walls ==> old(m[c.0, c.1]) == GEN_EMPTY
  {
    rest, ok, walls := rnd, true, {};
    if obs == VERT || obs == HORIZ {
      rest, ok := Wall(m, obs == VERT, ncol, nrow, rnd);
      if ok {
        walls := CoveredCells(if obs == VERT then VerticalDraw(ncol, nrow, rnd[0], rnd[1], rnd[2])
                              else HorizDraw(ncol, nrow, rnd[0], rnd[1], rnd[2]));
      }
    } else if obs == RANDOM {
      rest, ok, walls := RandomObs(m, ncol, nrow, ObstacleCount(density), rnd);
    }
  }

  /** Whether a cell of the generated grid is a wall, empty, or a dirt depth. */
  predicate GenValue(v: int) {
    v == GEN_WALL || v == GEN_EMPTY || 1 <= v <= MAXDIRT
  }

  /**
   * gen_map: -1 and nothing written when a size exceeds WORLDSIZE;
   * otherwise 0, and the grid is all EMPTY except the border walls, the
   * obstacle cells `walls` and the `dirt` cells, which are num_dirty
   * distinct interior cells with depth 1..MAXDIRT that no wall covers.
   */
  method GenMap(m: array2<int>, nrow: int, ncol: int, numDirty: int, obs: int, density: real, rnd: seq<nat>)
    returns (r: int, ok: bool, ghost walls: set<(int, int)>, ghost dirt: set<(int, int)>)
    requires IsGrid(m)
    requires nrow <= WORLDSIZE && ncol <= WORLDSIZE ==>
      BorderFits(nrow, ncol) && ObstaclesFit(nrow, ncol, obs, density, rnd) &&
      (numDirty > 0 ==> DirtFits(nrow, ncol))
    modifies m
    ensures nrow > WORLDSIZE || ncol > WORLDSIZE ==> r == -1 && unchanged(m)
    ensures nrow <= WORLDSIZE && ncol <= WORLDSIZE ==> r == 0
    ensures r == 0 ==> forall i, j :: 0 <= i < WORLDSIZE && 0 <= j < WORLDSIZE ==>
      GenValue(m[i, j]) &&
      (OnBorder(nrow, ncol, i, j) ==> m[i, j] == GEN_WALL) &&
      (m[i, j] == GEN_WALL ==> OnBorder(nrow, ncol, i, j) || (i, j) in walls) &&
      (m[i, j] == GEN_EMPTY ==> !OnBorder(nrow, ncol, i, j) && (i, j) !in walls && (i, j) !in dirt) &&
      ((i, j) in dirt <==> 1 <= m[i, j] <= MAXDIRT)
    ensures r == 0 && ok ==> |dirt| == Count(numDirty)
    ensures r == 0 ==> forall c :: c in walls ==> 0 <= c.0 < WORLDSIZE && 0 <= c.1 < WORLDSIZE && m[c.0, c.1] == GEN_WALL
    ensures r == 0 && obs != VERT && obs != HORIZ && obs != RANDOM ==> walls == {}
    ensures r == 0 && ok && obs == VERT ==> |rnd| >= 3 && walls == CoveredCells(VerticalDraw(ncol, nrow, rnd[0], rnd[1], rnd[2]))
    ensures r == 0 && ok && obs == HORIZ ==> |rnd| >= 3 && walls == CoveredCells(HorizDraw(ncol, nrow, rnd[0], rnd[1], rnd[2]))
    ensures r == 0 && ok && obs == RANDOM ==> |walls| == Count(ObstacleCount(density))
    ensures r == 0 ==> forall c :: c in dirt ==> 1 <= c.0 < 1 + Abs(nrow - 2) && 1 <= c.1 < 1 + Abs(ncol - 2)
  {
    walls, dirt := {}, {};
    if nrow > WORLDSIZE || ncol > WORLDSIZE {
      return -1, true, walls, dirt;
    }
    r := 0;
    FillEmpty(m);
    BorderWalls(m, nrow, ncol);
    var rest;
    rest, ok, walls := Obstacles(m, nrow, ncol, obs, density, rnd);
    assert forall i, j :: 0 <= i < WORLDSIZE && 0 <= j < WORLDSIZE ==>
      (m[i, j] == GEN_WALL || m[i, j] == GEN_EMPTY) &&
      (OnBorder(nrow, ncol, i, j) ==> m[i, j] == GEN_WALL) &&
      (m[i, j] == GEN_WALL ==> OnBorder(nrow, ncol, i, j) || (i, j) in walls) &&
      (m[i, j] == GEN_EMPTY ==> !OnBorder(nrow, ncol, i, j) && (i, j) !in walls);
    if !ok {
      return;
    }
    rest, ok, dirt := PlaceDirt(m, nrow, ncol, numDirty, rest);
  }

  // ---------------------------------------------------------------------------
  // save
  // ---------------------------------------------------------------------------

  /** The first n values of row i. */
  function GridRow(m: array2<int>, i: int, n: int): (row: seq<int>)
    reads m
    requires IsGrid(m) && 0 <= i < WORLDSIZE && n <= WORLDSIZE
    ensures |row| == Count(n)
    ensures forall j :: 0 <= j < |row| ==> row[j] == m[i, j]
    decreases Count(n)
  {
    if n <= 0 then [] else GridRow(m, i, n - 1) + [m[i, n - 1]]
  }

  /** The first n rows, each cut to cols values. */
  function GridRows(m: array2<int>, n: int, cols: int): (rows: seq<seq<int>>)
    reads m
    requires IsGrid(m) && n <= WORLDSIZE && cols <= WORLDSIZE
    ensures |rows| == Count(n)
    ensures forall i :: 0 <= i < |rows| ==> |rows[i]| == Count(cols)
    decreases Count(n)
  {
    if n <= 0 then [] else GridRows(m, n - 1, cols) + [GridRow(m, n - 1, cols)]
  }

  /** The image save writes: the header names rows where the format expects the width. */
  function SavedImage(m: array2<int>, rows: int, cols: int): (img: Image)
    reads m
    requires IsGrid(m) && rows <= WORLDSIZE && cols <= WORLDSIZE
    ensures img.width == rows && img.height == cols && img.maxval == GEN_EMPTY
  {
    Image(rows, cols, GEN_EMPTY, GridRows(m, rows, cols))
  }

  /** The inner loop of save: row i's values, each followed by a space. */
  method SaveRow(m: array2<int>, i: int, cols: int) returns (line: string)
    requires IsGrid(m) && 0 <= i < WORLDSIZE && cols <= WORLDSIZE
    ensures line == ValuesThen(GridRow(m, i, cols), "")
  {
    line := "";
    for j := 0 to Count(cols)
      invariant line == ValuesThen(GridRow(m, i, j), "")
    {
      ValuesThenSnoc(GridRow(m, i, j), m[i, j]);
      line := line + IntToString(m[i, j]) + " ";
    }
    assert GridRow(m, i, Count(cols)) == GridRow(m, i, cols);
  }

  /**
   * save(m, rows, cols, filename): "P2", the comment line, "rows cols",
   * maxval 255, then each row's values followed by a space and a newline.
   */
  method Save(m: array2<int>, rows: int, cols: int) returns (text: string)
    requires IsGrid(m) && rows <= WORLDSIZE && cols <= WORLDSIZE
    ensures text == Encode(SavedImage(m, rows, cols))
  {
    text := HeaderThen(rows, cols, GEN_EMPTY, "");
    ghost var header := text;
    assert text == header + RowsThen(GridRows(m, 0, cols), "");
    for i := 0 to Count(rows)
      invariant text == header + RowsThen(GridRows(m, i, cols), "")
    {
      var line := SaveRow(m, i, cols);
      ghost var done, row := GridRows(m, i, cols), GridRow(m, i, cols);
      assert GridRows(m, i + 1, cols) == done + [row];
      RowsThenAppendLine(text, header, done, row, line);
      text := text + line + "\n";
    }
    SavedText(m, rows, cols, text);
  }

  lemma SavedText(m: array2<int>, rows: int, cols: int, text: string)
    requires IsGrid(m) && rows <= WORLDSIZE && cols <= WORLDSIZE
    requires text == HeaderThen(rows, cols, GEN_EMPTY, "") + RowsThen(GridRows(m, Count(rows), cols), "")
    ensures text == Encode(SavedImage(m, rows, cols))
  {
    HeaderSplit(rows, cols, GEN_EMPTY, RowsThen(GridRows(m, rows, cols), ""));
    assert GridRows(m, Count(rows), cols) == GridRows(m, rows, cols);
  }

  /**
   * A square grid, as every map the generator writes, reads back as its own
   * rows: size, maxval and every value.
   */
  lemma SquareRoundTrip(m: array2<int>, n: int)
    requires IsGrid(m) && n <= WORLDSIZE
    ensures Decode(Encode(SavedImage(m, n, n))) == Decoded(Image(n, n, GEN_EMPTY, GridRows(m, n, n)))
  {
    DecodeEncode(SavedImage(m, n, n));
  }

  /**
   * With fewer rows than columns the header swaps the sizes: the file
   * announces `rows` columns per line, so the reader regroups the values
   * into lines of the wrong length.
   */
  lemma NonSquareMisread(m: array2<int>, rows: int, cols: int)
    requires IsGrid(m) && 1 <= rows < cols <= WORLDSIZE
    ensures !Shaped(SavedImage(m, rows, cols).rows, SavedImage(m, rows, cols).height, SavedImage(m, rows, cols).width)
  {
  }

  /** Each value the generator leaves is a sample the simulator's loader reads as a map character of the same kind. */
  lemma GeneratedValuesLoad(v: int)
    requires GenValue(v)
    ensures v == GEN_WALL ==> CharOfSample(v) == WALL
    ensures v == GEN_EMPTY ==> CharOfSample(v) == EMPTY
    ensures 1 <= v <= MAXDIRT ==> CharOfSample(v) == DigitChar(v) && DirtOf(CharOfSample(v)) == v
    ensures IsMapChar(CharOfSample(v))
  {
    if 1 <= v <= MAXDIRT {
      DirtCharRoundTrip(v);
    }
  }
}
