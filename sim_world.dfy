/**
 * The map model of sim_world.c: the WORLDSIZE x WORLDSIZE character grid,
 * its cell queries and mutators, base placement, procedural generation and
 * the plain-PGM save and load.
 *
 * rand() is an oracle: the values it would return, in order, as a finite
 * sequence. An operation that needs more values than the sequence holds
 * stops and reports ok == false; what it wrote until then stays written.
 */
module SimWorld {
  import opened Types
  import opened Pgm

  // ---------------------------------------------------------------------------
  // Cells as characters
  // ---------------------------------------------------------------------------

  /** The four compass headings base_heading chooses from. */
  const HEADINGS: seq<real> := [PI / 2.0, 3.0 * PI / 2.0, 0.0, PI]

  /**
   * The heading a robot leaves the base with: east on the first column,
   * west on the last, south on the first row, north otherwise.
   */
  function BaseHeading(ncol: int, x: int, y: int): (h: real)
    ensures h in HEADINGS
    ensures 0.0 <= h < TWO_PI
  {
    if x == 1 then HEADINGS[2]
    else if x == ncol - 2 then HEADINGS[3]
    else if y == 1 then HEADINGS[0]
    else HEADINGS[1]
  }

  /** The depth sim_world_cell_dirt reads: 0 on a sentinel, c - '0' otherwise. */
  function DirtOf(c: char): (d: int)
    ensures c == WALL || c == EMPTY || c == BASE ==> d == 0
    ensures CellOf(c).Dirt? ==> d == CellOf(c).d
    ensures IsMapChar(c) ==> 0 <= d <= MAXDIRT
  {
    match CellOf(c)
    case Dirt(k) => k
    case _ => 0
  }

  /** The character sim_world_set_cell_dirt stores: EMPTY for d <= 0, (char)('0' + d) otherwise. */
  function DirtChar(d: int): (c: char)
    ensures d <= 0 ==> c == EMPTY
    ensures 1 <= d <= MAXDIRT ==> IsMapChar(c) && c == DigitChar(d)
  {
    if d <= 0 then EMPTY else ByteChar('0' as int + d)
  }

  /**
   * Depths that fit a signed char after '0' is added read back unchanged,
   * except 18: '0' + 18 is the base character 'B'.
   */
  lemma DirtCharRoundTrip(d: int)
    requires 0 <= d <= 127 - '0' as int && d != BASE as int - '0' as int
    ensures DirtOf(DirtChar(d)) == d
  {
  }

  /** Depth 18 is stored as 'B': the cell then reads as a base with no dirt. */
  lemma DirtCharBaseAlias()
    ensures DirtChar(18) == BASE && DirtOf(DirtChar(18)) == 0
  {
  }

  /** What sim_world_clean_cell leaves in a cell: one level less dirt, or the cell as it was. */
  function CleanChar(c: char): (r: char)
    ensures DirtOf(c) <= 0 ==> r == c
    ensures 1 <= DirtOf(c) <= 128 - '0' as int && DirtOf(c) != BASE as int - '0' as int + 1
            ==> DirtOf(r) == DirtOf(c) - 1
    ensures DirtOf(c) == 1 ==> r == EMPTY
  {
    var d := DirtOf(c);
    if d > 0 then
      DirtCharRoundTrip(if d - 1 == BASE as int - '0' as int then 0 else d - 1);
      DirtChar(d - 1)
    else c
  }

  /** The cell after k calls of sim_world_clean_cell. */
  function CleanTimes(c: char, k: nat): char {
    if k == 0 then c else CleanChar(CleanTimes(c, k - 1))
  }

  /** Cleaning a cell of depth d exactly k <= d times leaves depth d - k; d times leaves it EMPTY. */
  lemma {:induction false} CleanTimesDepth(d: int, k: nat)
    requires 1 <= d <= 9 && k <= d
    ensures CleanTimes(DigitChar(d), k) == DirtChar(d - k)
    ensures DirtOf(CleanTimes(DigitChar(d), k)) == d - k
    ensures k == d ==> CleanTimes(DigitChar(d), k) == EMPTY
  {
    if k > 0 {
      CleanTimesDepth(d, k - 1);
      DirtCharRoundTrip(d - k + 1);
    }
    DirtCharRoundTrip(d - k);
  }

  // ---------------------------------------------------------------------------
  // PGM samples
  // ---------------------------------------------------------------------------

  /** The grey level sim_world_save writes for a cell. */
  function SampleOf(c: char): (v: int)
    ensures c == WALL <==> v == 128
    ensures c == EMPTY ==> v == 255
    ensures c == BASE ==> v == 0
    ensures IsMapChar(c) && IsDigit(c) ==> 1 <= v <= MAXDIRT && v == DirtOf(c)
  {
    if c == WALL then 128
    else if c == EMPTY then 255
    else if c == BASE then 0
    else CharValue(c) - '0' as int
  }

  /** The three samples the loader treats specially; every other value is dirt. */
  predicate IsSentinel(v: int) {
    v == 128 || v == 255 || v == 0
  }

  /** The character sim_world_load stores for a sample. */
  function CharOfSample(v: int): (c: char)
    ensures v == 128 ==> c == WALL
    ensures v == 255 ==> c == EMPTY
    ensures v == 0 ==> c == BASE
    ensures 1 <= v <= MAXDIRT ==> c == DigitChar(v)
  {
    if v == 128 then WALL
    else if v == 255 then EMPTY
    else if v == 0 then BASE
    else ByteChar(v + '0' as int)
  }

  /** Loading inverts saving on every character a well-formed map holds. */
  lemma SampleRoundTrip(c: char)
    requires IsMapChar(c)
    ensures CharOfSample(SampleOf(c)) == c
    ensures IsSentinel(SampleOf(c)) <==> !IsDigit(c)
  {
  }

  /** Samples 18 and -13 are loaded as 'B' and '#' without being a base or a wall sample. */
  lemma SampleAliases()
    ensures CharOfSample(18) == BASE && !IsSentinel(18)
    ensures CharOfSample(-13) == WALL && !IsSentinel(-13)
  {
  }

  /** The dirt record the loader makes for sample v at row i, column j: x is the column. */
  function LoadedRecord(i: int, j: int, v: int): (r: DirtRecord)
    ensures r.y == i && r.x == j && r.depth == v
  {
    DirtRecord(j, i, v)
  }

  /** The record sim_world.c:180-182 writes as it stands: x is the row, y the column. */
  function LoadedRecordAsWritten(i: int, j: int, v: int): (r: DirtRecord)
    ensures r == LoadedRecord(j, i, v)
    ensures r == LoadedRecord(i, j, v) <==> i == j
  {
    DirtRecord(i, j, v)
  }

  predicate Before(rows: seq<seq<int>>, i: nat, j: nat) {
    i <= |rows| && (i < |rows| ==> j <= |rows[i]|) && (i == |rows| ==> j == 0)
  }

  /**
   * The dirt records sim_world_load collects from rows[..i] and rows[i][..j],
   * in row-major order, with the record function `asWritten` chooses.
   */
  function LoadedDirt(rows: seq<seq<int>>, i: nat, j: nat, asWritten: bool): seq<DirtRecord>
    requires Before(rows, i, j)
    decreases i, j
  {
    if j > 0 then
      LoadedDirt(rows, i, j - 1, asWritten)
        + (if IsSentinel(rows[i][j - 1]) then []
           else if asWritten then [LoadedRecordAsWritten(i, j - 1, rows[i][j - 1])]
           else [LoadedRecord(i, j - 1, rows[i][j - 1])])
    else if i > 0 then LoadedDirt(rows, i - 1, |rows[i - 1]|, asWritten)
    else []
  }

  /** (row, column) strictly before (row', column') in row-major order. */
  predicate RowMajorLess(a: DirtRecord, b: DirtRecord) {
    a.y < b.y || (a.y == b.y && a.x < b.x)
  }

  /** The record r lies at a sample of rows[..i] or rows[i][..j] and carries that sample's dirt value. */
  predicate RecordFrom(rows: seq<seq<int>>, i: nat, j: nat, r: DirtRecord) {
    0 <= r.y < |rows| && 0 <= r.x < |rows[r.y]| &&
    (r.y < i || (r.y == i && r.x < j)) &&
    rows[r.y][r.x] == r.depth && !IsSentinel(r.depth)
  }

  /** The records are in strictly increasing row-major order. */
  predicate Ordered(d: seq<DirtRecord>) {
    forall k, l :: 0 <= k < l < |d| ==> RowMajorLess(d[k], d[l])
  }

  /**
   * Every record the loader collects sits at its own sample, which is not a
   * sentinel, and the records are in strictly increasing row-major order
   * (so no cell is listed twice).
   */
  lemma {:induction false} LoadedDirtSound(rows: seq<seq<int>>, i: nat, j: nat)
    requires Before(rows, i, j)
    ensures forall r :: r in LoadedDirt(rows, i, j, false) ==> RecordFrom(rows, i, j, r)
    ensures Ordered(LoadedDirt(rows, i, j, false))
    decreases i, j
  {
    var d := LoadedDirt(rows, i, j, false);
    if j > 0 {
      LoadedDirtSound(rows, i, j - 1);
      var prev := LoadedDirt(rows, i, j - 1, false);
      var v := rows[i][j - 1];
      var r := LoadedRecord(i, j - 1, v);
      assert d == prev + (if IsSentinel(v) then [] else [r]);
      forall k, l | 0 <= k < l < |d|
        ensures RowMajorLess(d[k], d[l])
      {
        if l < |prev| {
          assert d[k] == prev[k] && d[l] == prev[l];
        } else {
          assert d[l] == r && d[k] == prev[k] && prev[k] in prev;
        }
      }
    } else if i > 0 {
      LoadedDirtSound(rows, i - 1, |rows[i - 1]|);
      assert d == LoadedDirt(rows, i - 1, |rows[i - 1]|, false);
    }
  }

  /**
   * Each non-sentinel sample of rows (in the loaded region) is listed by some
   * record: the loader misses no dirt.
   */
  lemma {:induction false} LoadedDirtComplete(rows: seq<seq<int>>, i: nat, j: nat, y: nat, x: nat)
    requires Before(rows, i, j)
    requires y < |rows| && x < |rows[y]| && (y < i || (y == i && x < j))
    requires !IsSentinel(rows[y][x])
    ensures LoadedRecord(y, x, rows[y][x]) in LoadedDirt(rows, i, j, false)
    decreases i, j
  {
    var d := LoadedDirt(rows, i, j, false);
    if j > 0 {
      var prev := LoadedDirt(rows, i, j - 1, false);
      if y == i && x == j - 1 {
        assert d == prev + [LoadedRecord(y, x, rows[y][x])];
      } else {
        LoadedDirtComplete(rows, i, j - 1, y, x);
        assert d == prev + (d[|prev|..]);
      }
    } else {
      LoadedDirtComplete(rows, i - 1, |rows[i - 1]|, y, x);
      assert d == LoadedDirt(rows, i - 1, |rows[i - 1]|, false);
    }
  }

  /** The base position after loading rows[..i] and rows[i][..j]: the last 0 sample, else `base`. */
  function LoadedBase(rows: seq<seq<int>>, i: nat, j: nat, base: (int, int)): (int, int)
    requires Before(rows, i, j)
    decreases i, j
  {
    if j > 0 then
      if rows[i][j - 1] == 0 then (j - 1, i) else LoadedBase(rows, i, j - 1, base)
    else if i > 0 then LoadedBase(rows, i - 1, |rows[i - 1]|, base)
    else base
  }

  /** The base the loader records is a base sample inside the map, or the old base. */
  lemma {:induction false} LoadedBaseSound(rows: seq<seq<int>>, i: nat, j: nat, base: (int, int))
    requires Before(rows, i, j)
    ensures var b := LoadedBase(rows, i, j, base);
      b == base || (0 <= b.1 < |rows| && 0 <= b.0 < |rows[b.1]| && rows[b.1][b.0] == 0)
    decreases i, j
  {
    if j > 0 {
      LoadedBaseSound(rows, i, j - 1, base);
    } else if i > 0 {
      LoadedBaseSound(rows, i - 1, |rows[i - 1]|, base);
    }
  }

  /**
   * As written, the loader's record for the dirt sample of the second row,
   * third column names row 2 of a two-row map: x and y are swapped.
   */
  lemma LoadedDirtAsWrittenSwapped()
    ensures var rows := [[255, 255, 255], [255, 255, 3]];
      LoadedDirt(rows, 2, 0, true) == [DirtRecord(1, 2, 3)] &&
      LoadedDirt(rows, 2, 0, true)[0].y >= |rows| &&
      LoadedDirt(rows, 2, 0, false) == [DirtRecord(2, 1, 3)] &&
      rows[1][2] == 3
  {
    var rows := [[255, 255, 255], [255, 255, 3]];
    assert LoadedDirt(rows, 0, 3, true) == [];
    assert LoadedDirt(rows, 1, 2, true) == [];
    assert LoadedDirt(rows, 0, 3, false) == [];
    assert LoadedDirt(rows, 1, 2, false) == [];
  }

  // ---------------------------------------------------------------------------
  // Generation helpers
  // ---------------------------------------------------------------------------

  /** The border of an nrow x ncol map: its first and last rows and columns. */
  predicate OnBorder(nrow: int, ncol: int, i: int, j: int) {
    (0 <= i < nrow && (j == 0 || j == ncol - 1)) || (0 <= j < ncol && (i == 0 || i == nrow - 1))
  }

  /**
   * add_border_walls indexes column ncol-1 for every row and row nrow-1 for
   * every column, so either both sizes are positive or neither loop runs.
   */
  predicate BorderFits(nrow: int, ncol: int) {
    (1 <= nrow && 1 <= ncol) || (nrow <= 0 && ncol <= 0)
  }

  /** A straight wall: `len` cells from `init` down column `line` (vertical) or along row `line`. */
  datatype Segment = Segment(vertical: bool, line: int, init: int, len: int)

  predicate Covers(s: Segment, i: int, j: int) {
    if s.vertical then j == s.line && s.init <= i < s.init + s.len
    else i == s.line && s.init <= j < s.init + s.len
  }

  /** Whether writing the segment stays inside the WORLDSIZE x WORLDSIZE array. */
  predicate InsideGrid(s: Segment) {
    s.len <= 0 || (0 <= s.line < WORLDSIZE && 0 <= s.init && s.init + s.len <= WORLDSIZE)
  }

  /** Whether the three draws of a wall avoid C's division by zero: r0 odd draws a vertical wall. */
  predicate Drawable(nrow: int, ncol: int, r0: nat) {
    if r0 % 2 != 0 then nrow != 0 && ncol != 4 else ncol != 0 && nrow != 4
  }

  /** The segment create_vertical_wall or create_horiz_wall draws from r1, r2, r3. */
  function DrawSegment(nrow: int, ncol: int, r0: nat, r1: nat, r2: nat, r3: nat): (s: Segment)
    requires Drawable(nrow, ncol, r0)
    ensures s.vertical <==> r0 % 2 != 0
    ensures 2 <= s.line && 2 <= s.init
  {
    if r0 % 2 != 0 then
      Segment(true, CMod(r3, ncol - 4) + 2, CDiv(CMod(r2, nrow), 2) + 2, CDiv(CMod(r1, nrow), 2) + CDiv(nrow, 4))
    else
      Segment(false, CMod(r3, nrow - 4) + 2, CDiv(CMod(r2, ncol), 2) + 2, CDiv(CMod(r1, ncol), 2) + CDiv(ncol, 4))
  }

  /** A vertical wall in a full-size map can run past the last row. */
  lemma WallCanLeaveGrid()
    ensures !InsideGrid(DrawSegment(WORLDSIZE, WORLDSIZE, 1, 49, 49, 0))
  {
    assert DrawSegment(WORLDSIZE, WORLDSIZE, 1, 49, 49, 0) == Segment(true, 2, 26, 36);
  }

  /** The four values wall number t of add_obstacles draws: orientation, length, start, line. */
  function WallDraws(rnd: seq<nat>, t: nat): (w: seq<nat>)
    requires 4 * t + 4 <= |rnd|
    ensures |w| == 4
  {
    rnd[4 * t..4 * t + 4]
  }

  /** Whether the wall drawn from w can be computed and stays inside the grid. */
  predicate WallFits(nrow: int, ncol: int, w: seq<nat>)
    requires |w| == 4
  {
    Drawable(nrow, ncol, w[0]) && InsideGrid(DrawSegment(nrow, ncol, w[0], w[1], w[2], w[3]))
  }

  /**
   * The wall drawn from four stream values w: vertical for an odd w[0], and
   * when the map is at least 5 x 5 its row or column lies 2..n-3 inside it.
   */
  function WallSegment(nrow: int, ncol: int, w: seq<nat>): (s: Segment)
    requires |w| == 4 && WallFits(nrow, ncol, w)
    ensures InsideGrid(s)
    ensures s.vertical <==> w[0] % 2 != 0
    ensures 5 <= nrow && 5 <= ncol ==> if s.vertical then 2 <= s.line <= ncol - 3 else 2 <= s.line <= nrow - 3
  {
    DrawSegment(nrow, ncol, w[0], w[1], w[2], w[3])
  }

  /**
   * Whether every one of the first k walls add_obstacles draws from rnd, as
   * far as rnd reaches, can be computed and stays inside the grid.
   */
  predicate SegmentsFit(nrow: int, ncol: int, rnd: seq<nat>, k: int) {
    forall t: nat :: t < k && 4 * t + 4 <= |rnd| ==> WallFits(nrow, ncol, WallDraws(rnd, t))
  }

  /** Whether cell (i, j) lies on one of the first k walls drawn from rnd. */
  predicate InWalls(nrow: int, ncol: int, rnd: seq<nat>, k: nat, i: int, j: int)
    requires 4 * k <= |rnd| && SegmentsFit(nrow, ncol, rnd, k)
  {
    k > 0 &&
    (InWalls(nrow, ncol, rnd, k - 1, i, j) || Covers(WallSegment(nrow, ncol, WallDraws(rnd, k - 1)), i, j))
  }

  /** Whether rand()/(float)RAND_MAX < prop for the value v. */
  predicate Hits(v: nat, prop: real) {
    (v as real) / (RAND_MAX as real) < prop
  }

  /** The cells create_random_obstacles may turn into walls: rows and columns 2..WORLDSIZE-3. */
  predicate InRandomArea(i: int, j: int) {
    2 <= i < WORLDSIZE - 2 && 2 <= j < WORLDSIZE - 2
  }

  const RANDOM_SIDE: int := WORLDSIZE - 4

  /** The position in the stream of the value create_random_obstacles draws for cell (i, j). */
  function RandomIndex(i: int, j: int): int {
    (i - 2) * RANDOM_SIDE + (j - 2)
  }

  /**
   * Whether cell (i, j) is one of the obstacles sim_world_generate adds for
   * nobs: a cell of the first Trunc(nobs) drawn walls when nobs >= 1, a hit
   * of the random area when 0 < nobs < 1, and none otherwise.
   */
  predicate Obstacle(nrow: int, ncol: int, nobs: real, rnd: seq<nat>, i: int, j: int)
    requires nobs >= 1.0 ==> 4 * Trunc(nobs) <= |rnd| && SegmentsFit(nrow, ncol, rnd, Trunc(nobs))
    requires 0.0 < nobs < 1.0 ==> |rnd| >= RANDOM_SIDE * RANDOM_SIDE
  {
    if nobs >= 1.0 then InWalls(nrow, ncol, rnd, Trunc(nobs), i, j)
    else 0.0 < nobs && InRandomArea(i, j) && Hits(rnd[RandomIndex(i, j)], nobs)
  }

  /** For dirt placement: rand() % (n - 2) + 1, a row or column 1..n-2. */
  function InteriorDraw(n: int, v: nat): (k: int)
    requires n >= 3
    ensures 1 <= k <= n - 2
  {
    v % (n - 2) + 1
  }

  /** What sim_world_generate needs of its arguments and of rand() beyond the size check. */
  predicate GenerateFits(nrow: int, ncol: int, numDirty: int, nobs: real, rnd: seq<nat>) {
    BorderFits(nrow, ncol) &&
    (nobs >= 1.0 ==> SegmentsFit(nrow, ncol, rnd, Trunc(nobs))) &&
    (numDirty > 0 ==> 3 <= nrow && 3 <= ncol)
  }

  /** Every record lies strictly inside an nrow x ncol map and has depth 1..MAXDIRT. */
  predicate Interior(d: seq<DirtRecord>, nrow: int, ncol: int) {
    forall k :: 0 <= k < |d| ==>
      1 <= d[k].y <= nrow - 2 && 1 <= d[k].x <= ncol - 2 && 1 <= d[k].depth <= MAXDIRT &&
      InGrid(d[k].y, d[k].x)
  }

  /** No two records name the same cell. */
  predicate Distinct(d: seq<DirtRecord>) {
    forall k, l :: 0 <= k < l < |d| ==> (d[k].x, d[k].y) != (d[l].x, d[l].y)
  }

  /** Whether some record of d names row y, column x. */
  predicate Occupied(d: seq<DirtRecord>, y: int, x: int) {
    d != [] && ((d[|d| - 1].y == y && d[|d| - 1].x == x) || Occupied(d[..|d| - 1], y, x))
  }

  lemma OccupiedAppend(d: seq<DirtRecord>, r: DirtRecord, y: int, x: int)
    ensures Occupied(d + [r], y, x) <==> (r.y == y && r.x == x) || Occupied(d, y, x)
  {
    assert (d + [r])[..|d|] == d;
  }

  lemma {:induction false} OccupiedIndex(d: seq<DirtRecord>, k: int)
    requires 0 <= k < |d|
    ensures Occupied(d, d[k].y, d[k].x)
  {
    if k < |d| - 1 {
      OccupiedIndex(d[..|d| - 1], k);
    }
  }

  /** A record on a free interior cell keeps the records inside the map and distinct. */
  lemma AppendPlaced(d: seq<DirtRecord>, r: DirtRecord, nrow: int, ncol: int)
    requires Interior(d, nrow, ncol) && Distinct(d) && !Occupied(d, r.y, r.x)
    requires 1 <= r.y <= nrow - 2 && 1 <= r.x <= ncol - 2 && 1 <= r.depth <= MAXDIRT && InGrid(r.y, r.x)
    ensures Interior(d + [r], nrow, ncol) && Distinct(d + [r])
    ensures forall k :: 0 <= k < |d| ==> (d[k].y, d[k].x) != (r.y, r.x)
  {
    forall k | 0 <= k < |d|
      ensures (d[k].y, d[k].x) != (r.y, r.x)
    {
      OccupiedIndex(d, k);
    }
  }

  /** The name snprintf stores into char name[256]: at most 255 characters. */
  function StoredName(filename: string): (n: string)
    ensures |n| < 256 && |n| <= |filename| && n == filename[..|n|]
    ensures |filename| < 256 ==> n == filename
  {
    if |filename| < 256 then filename else filename[..255]
  }

  // ---------------------------------------------------------------------------
  // The map
  // ---------------------------------------------------------------------------

  /** map_t: the grid, its size, the dirt list, the file name and the base position. */
  class Map {
    const cells: array2<char>
    var nrow: int
    var ncol: int
    /** The records of dirt[0..] written by the last generation or load. */
    var dirt: seq<DirtRecord>
    var ndirt: int
    var name: string
    var baseX: int
    var baseY: int

    ghost predicate Valid()
      reads this
    {
      cells.Length0 == WORLDSIZE && cells.Length1 == WORLDSIZE &&
      nrow <= WORLDSIZE && ncol <= WORLDSIZE &&
      |name| < 256 && InGrid(baseY, baseX)
    }

    /** A map_t with static storage: every byte zero. */
    constructor ()
      ensures Valid() && fresh(cells)
      ensures nrow == 0 && ncol == 0 && dirt == [] && ndirt == 0 && name == []
      ensures baseX == 0 && baseY == 0
      ensures forall i, j :: 0 <= i < WORLDSIZE && 0 <= j < WORLDSIZE ==> cells[i, j] == 0 as char
    {
      cells := new char[WORLDSIZE, WORLDSIZE]((i, j) => 0 as char);
      nrow, ncol := 0, 0;
      dirt, ndirt := [], 0;
      name := [];
      baseX, baseY := 0, 0;
    }

    /** The content of cell (y, x) as the queries see it. */
    function CellAt(y: int, x: int): Cell
      reads this, cells
      requires Valid() && InGrid(y, x)
    {
      CellOf(cells[y, x])
    }

    /** sim_world_is_wall; the C code does no bounds check, so (y, x) must be on the grid. */
    function IsWall(y: int, x: int): (b: bool)
      reads this, cells
      requires Valid() && InGrid(y, x)
      ensures b <==> CellAt(y, x) == Wall
    {
      cells[y, x] == WALL
    }

    /** sim_world_is_base. */
    function IsBase(y: int, x: int): (b: bool)
      reads this, cells
      requires Valid() && InGrid(y, x)
      ensures b <==> CellAt(y, x) == Base
    {
      cells[y, x] == BASE
    }

    /** sim_world_cell_dirt: the depth of a dirt cell, 0 for wall, empty and base. */
    function CellDirt(y: int, x: int): (d: int)
      reads this, cells
      requires Valid() && InGrid(y, x)
      ensures d == match CellAt(y, x) case Dirt(k) => k case _ => 0
      ensures IsMapChar(cells[y, x]) ==> 0 <= d <= MAXDIRT
    {
      DirtOf(cells[y, x])
    }

    /** Whether every cell of the border of the nrow x ncol map is a wall. */
    ghost predicate Bordered()
      reads this, cells
      requires Valid()
    {
      forall i, j :: 0 <= i < WORLDSIZE && 0 <= j < WORLDSIZE && OnBorder(nrow, ncol, i, j) ==> cells[i, j] == WALL
    }

    /** Whether the border is walled and no other cell is a wall: a map without obstacles. */
    ghost predicate OnlyBorderWalls()
      reads this, cells
      requires Valid()
    {
      Bordered() &&
      forall i, j :: 0 <= i < WORLDSIZE && 0 <= j < WORLDSIZE && cells[i, j] == WALL ==> OnBorder(nrow, ncol, i, j)
    }

    /** Whether the whole array holds only wall, empty, base and depth 1..MAXDIRT characters. */
    ghost predicate MapChars()
      reads this, cells
      requires Valid()
    {
      forall i, j :: 0 <= i < WORLDSIZE && 0 <= j < WORLDSIZE ==> IsMapChar(cells[i, j])
    }

    /** Whether the nrow x ncol region, the part save and load touch, holds only map characters. */
    ghost predicate RegionChars()
      reads this, cells
      requires Valid()
    {
      forall i, j :: 0 <= i < nrow && 0 <= j < ncol ==> IsMapChar(cells[i, j])
    }

    /**
     * Whether every dirt record lies strictly inside the map, has depth
     * 1..MAXDIRT, is shown by its cell's digit, and no two share a cell.
     */
    ghost predicate DirtPlaced()
      reads this, cells
      requires Valid()
    {
      Interior(dirt, nrow, ncol) && Distinct(dirt) &&
      forall k :: 0 <= k < |dirt| ==> cells[dirt[k].y, dirt[k].x] == DigitChar(dirt[k].depth)
    }

    /** sim_world_put_base: a base at column x, row y, and the heading to leave it with. */
    method PutBase(x: int, y: int) returns (h: real)
      requires Valid() && InGrid(y, x)
      modifies this, cells
      ensures Valid()
      ensures cells[y, x] == BASE && baseX == x && baseY == y
      ensures h == BaseHeading(ncol, x, y)
      ensures forall i, j :: 0 <= i < WORLDSIZE && 0 <= j < WORLDSIZE && (i, j) != (y, x) ==> cells[i, j] == old(cells[i, j])
      ensures nrow == old(nrow) && ncol == old(ncol) && dirt == old(dirt) && ndirt == old(ndirt) && name == old(name)
    {
      cells[y, x] := BASE;
      baseX, baseY := x, y;
      h := BaseHeading(ncol, x, y);
    }

    /**
     * sim_world_set_base_origin: the robot starts at (1, 1) facing east and that
     * cell becomes a base; the recorded base position is not updated.
     */
    method SetBaseOrigin() returns (x: int, y: int, h: real)
      requires Valid()
      modifies cells
      ensures x == 1 && y == 1 && h == 0.0
      ensures cells[1, 1] == BASE
      ensures forall i, j :: 0 <= i < WORLDSIZE && 0 <= j < WORLDSIZE && (i, j) != (1, 1) ==> cells[i, j] == old(cells[i, j])
    {
      x, y, h := 1, 1, 0.0;
      cells[y, x] := BASE;
    }

    /** sim_world_set_cell_dirt. */
    method SetCellDirt(y: int, x: int, d: int)
      requires Valid() && InGrid(y, x)
      modifies cells
      ensures cells[y, x] == DirtChar(d)
      ensures forall i, j :: 0 <= i < WORLDSIZE && 0 <= j < WORLDSIZE && (i, j) != (y, x) ==> cells[i, j] == old(cells[i, j])
    {
      if d <= 0 {
        cells[y, x] := EMPTY;
      } else {
        cells[y, x] := ByteChar('0' as int + d);
      }
    }

    /** sim_world_clean_cell: one level of dirt less; returns the new depth. */
    method CleanCell(y: int, x: int) returns (d: int)
      requires Valid() && InGrid(y, x)
      modifies cells
      ensures cells[y, x] == CleanChar(old(cells[y, x]))
      ensures d == if old(DirtOf(cells[y, x])) > 0 then old(DirtOf(cells[y, x])) - 1 else old(DirtOf(cells[y, x]))
      ensures forall i, j :: 0 <= i < WORLDSIZE && 0 <= j < WORLDSIZE && (i, j) != (y, x) ==> cells[i, j] == old(cells[i, j])
    {
      d := CellDirt(y, x);
      if d > 0 {
        d := d - 1;
        SetCellDirt(y, x, d);
      }
    }

    /** init_empty_world: the new size, and every cell of the array EMPTY. */
    method InitEmptyWorld(nr: int, nc: int)
      requires Valid() && nr <= WORLDSIZE && nc <= WORLDSIZE
      modifies this, cells
      ensures Valid()
      ensures nrow == nr && ncol == nc
      ensures forall i, j :: 0 <= i < WORLDSIZE && 0 <= j < WORLDSIZE ==> cells[i, j] == EMPTY
      ensures dirt == old(dirt) && ndirt == old(ndirt) && name == old(name) && baseX == old(baseX) && baseY == old(baseY)
    {
      nrow, ncol := nr, nc;
      for i := 0 to WORLDSIZE
        invariant Valid() && nrow == nr && ncol == nc
        invariant dirt == old(dirt) && ndirt == old(ndirt) && name == old(name) && baseX == old(baseX) && baseY == old(baseY)
        invariant forall i', j :: 0 <= i' < i && 0 <= j < WORLDSIZE ==> cells[i', j] == EMPTY
      {
        for j := 0 to WORLDSIZE
          invariant Valid() && nrow == nr && ncol == nc
          invariant dirt == old(dirt) && ndirt == old(ndirt) && name == old(name) && baseX == old(baseX) && baseY == old(baseY)
          invariant forall i', j' :: 0 <= i' < i && 0 <= j' < WORLDSIZE ==> cells[i', j'] == EMPTY
          invariant forall j' :: 0 <= j' < j ==> cells[i, j'] == EMPTY
        {
          cells[i, j] := EMPTY;
        }
      }
    }

    /** add_border_walls: walls on the first and last rows and columns, nothing else touched. */
    method AddBorderWalls()
      requires Valid() && BorderFits(nrow, ncol)
      modifies cells
      ensures Bordered()
      ensures forall i, j :: 0 <= i < WORLDSIZE && 0 <= j < WORLDSIZE ==>
        cells[i, j] == if OnBorder(nrow, ncol, i, j) then WALL else old(cells[i, j])
    {
      for i := 0 to Count(nrow)
        invariant forall i', j :: 0 <= i' < WORLDSIZE && 0 <= j < WORLDSIZE ==>
          cells[i', j] == if i' < i && (j == 0 || j == ncol - 1) then WALL else old(cells[i', j])
      {
        cells[i, 0] := WALL;
        cells[i, ncol - 1] := WALL;
      }
      for i := 0 to Count(ncol)
        invariant forall i', j :: 0 <= i' < WORLDSIZE && 0 <= j < WORLDSIZE ==>
          cells[i', j] == if (i' < nrow && (j == 0 || j == ncol - 1)) || (j < i && (i' == 0 || i' == nrow - 1))
                          then WALL else old(cells[i', j])
      {
        cells[0, i] := WALL;
        cells[nrow - 1, i] := WALL;
      }
    }

    /** The loop of create_vertical_wall and create_horiz_wall: the segment's cells become walls. */
    method FillSegment(s: Segment)
      requires Valid() && InsideGrid(s)
      modifies cells
      ensures forall i, j :: 0 <= i < WORLDSIZE && 0 <= j < WORLDSIZE ==>
        cells[i, j] == if Covers(s, i, j) then WALL else old(cells[i, j])
    {
      for k := 0 to Count(s.len)
        invariant forall i, j :: 0 <= i < WORLDSIZE && 0 <= j < WORLDSIZE ==>
          cells[i, j] == if Covers(Segment(s.vertical, s.line, s.init, k), i, j) then WALL else old(cells[i, j])
      {
        if s.vertical {
          cells[s.init + k, s.line] := WALL;
        } else {
          cells[s.line, s.init + k] := WALL;
        }
      }
    }

    /** One row of create_random_obstacles: the draws rnd[0..RANDOM_SIDE] decide columns 2..WORLDSIZE-3 of row i. */
    method RandomRow(i: int, prop: real, rnd: seq<nat>) returns (rest: seq<nat>, ok: bool)
      requires Valid() && 2 <= i < WORLDSIZE - 2
      modifies cells
      ensures ok <==> |rnd| >= RANDOM_SIDE
      ensures ok ==> rest == rnd[RANDOM_SIDE..]
      ensures ok ==> forall i', j :: 0 <= i' < WORLDSIZE && 0 <= j < WORLDSIZE ==>
        cells[i', j] == if i' == i && InRandomArea(i', j) && Hits(rnd[j - 2], prop) then WALL else old(cells[i', j])
      ensures forall i', j :: 0 <= i' < WORLDSIZE && 0 <= j < WORLDSIZE ==>
        cells[i', j] == old(cells[i', j]) || (cells[i', j] == WALL && i' == i && InRandomArea(i', j))
    {
      rest, ok := rnd, true;
      for j := 2 to WORLDSIZE - 2
        invariant j - 2 <= |rnd| && rest == rnd[j - 2..]
        invariant forall i', j' :: 0 <= i' < WORLDSIZE && 0 <= j' < WORLDSIZE ==>
          cells[i', j'] == if i' == i && 2 <= j' < j && Hits(rnd[j' - 2], prop) then WALL else old(cells[i', j'])
      {
        if |rest| == 0 {
          ok := false;
          return;
        }
        if Hits(rest[0], prop) {
          cells[i, j] := WALL;
        }
        rest := rest[1..];
      }
    }

    /**
     * create_random_obstacles: each cell of rows and columns 2..WORLDSIZE-3
     * becomes a wall when its draw, scaled to [0, 1], is below prop.
     */
    method CreateRandomObstacles(prop: real, rnd: seq<nat>) returns (rest: seq<nat>, ok: bool)
      requires Valid()
      modifies cells
      ensures ok <==> |rnd| >= RANDOM_SIDE * RANDOM_SIDE
      ensures ok ==> rest == rnd[RANDOM_SIDE * RANDOM_SIDE..]
      ensures ok ==> forall i, j :: 0 <= i < WORLDSIZE && 0 <= j < WORLDSIZE ==>
        cells[i, j] == if InRandomArea(i, j) && Hits(rnd[RandomIndex(i, j)], prop) then WALL else old(cells[i, j])
      ensures forall i, j :: 0 <= i < WORLDSIZE && 0 <= j < WORLDSIZE ==>
        cells[i, j] == old(cells[i, j]) || (cells[i, j] == WALL && InRandomArea(i, j))
    {
      rest, ok := rnd, true;
      for i := 2 to WORLDSIZE - 2
        invariant RandomIndex(i, 2) <= |rnd| && rest == rnd[RandomIndex(i, 2)..]
        invariant forall i', j :: 0 <= i' < WORLDSIZE && 0 <= j < WORLDSIZE ==>
          cells[i', j] == if InRandomArea(i', j) && i' < i && Hits(rnd[RandomIndex(i', j)], prop) then WALL else old(cells[i', j])
      {
        ghost var before := rest;
        label Row:
        rest, ok := RandomRow(i, prop, rest);
        if !ok {
          return;
        }
        forall i', j | 0 <= i' < WORLDSIZE && 0 <= j < WORLDSIZE
          ensures cells[i', j] ==
            if InRandomArea(i', j) && i' < i + 1 && Hits(rnd[RandomIndex(i', j)], prop) then WALL else old(cells[i', j])
        {
          assert old@Row(cells[i', j]) ==
            if InRandomArea(i', j) && i' < i && Hits(rnd[RandomIndex(i', j)], prop) then WALL else old(cells[i', j]);
          if i' == i && InRandomArea(i', j) {
            assert before[j - 2] == rnd[RandomIndex(i, j)];
          }
        }
      }
    }

    /** The loop of add_obstacles for nobs >= 1: k walls, each vertical when its first draw is odd. */
    method DrawWalls(k: int, rnd: seq<nat>) returns (rest: seq<nat>, ok: bool)
      requires Valid() && SegmentsFit(nrow, ncol, rnd, k)
      modifies cells
      ensures ok <==> 4 * Count(k) <= |rnd|
      ensures ok ==> rest == rnd[4 * Count(k)..]
      ensures ok ==> forall i, j :: 0 <= i < WORLDSIZE && 0 <= j < WORLDSIZE ==>
        cells[i, j] == if InWalls(nrow, ncol, rnd, Count(k), i, j) then WALL else old(cells[i, j])
      ensures forall i, j :: 0 <= i < WORLDSIZE && 0 <= j < WORLDSIZE ==>
        cells[i, j] == old(cells[i, j]) || cells[i, j] == WALL
    {
      rest, ok := rnd, true;
      var t: nat := 0;
      while t < k
        invariant t <= Count(k) && 4 * t <= |rnd| && rest == rnd[4 * t..]
        invariant SegmentsFit(nrow, ncol, rnd, t)
        invariant forall i, j :: 0 <= i < WORLDSIZE && 0 <= j < WORLDSIZE ==>
          cells[i, j] == if InWalls(nrow, ncol, rnd, t, i, j) then WALL else old(cells[i, j])
        decreases k - t
      {
        if |rest| < 4 {
          ok := false;
          return;
        }
        var w := WallDraws(rnd, t);
        assert w == rest[..4];
        var seg := WallSegment(nrow, ncol, w);
        FillSegment(seg);
        rest := rest[4..];
        t := t + 1;
      }
    }

    /**
     * add_obstacles: for nobs >= 1, (int)nobs walls; for 0 < nobs < 1, random
     * obstacles with probability nobs; nothing otherwise. Only walls are written.
     */
    method AddObstacles(nobs: real, rnd: seq<nat>) returns (rest: seq<nat>, ok: bool)
      requires Valid() && (nobs >= 1.0 ==> SegmentsFit(nrow, ncol, rnd, Trunc(nobs)))
      modifies cells
      ensures |rest| <= |rnd| && rest == rnd[|rnd| - |rest|..]
      ensures forall i, j :: 0 <= i < WORLDSIZE && 0 <= j < WORLDSIZE ==>
        cells[i, j] == old(cells[i, j]) || cells[i, j] == WALL
      ensures nobs >= 1.0 ==> (ok <==> 4 * Trunc(nobs) <= |rnd|)
      ensures nobs >= 1.0 && ok ==>
        forall i, j :: 0 <= i < WORLDSIZE && 0 <= j < WORLDSIZE ==>
          cells[i, j] == if InWalls(nrow, ncol, rnd, Trunc(nobs), i, j) then WALL else old(cells[i, j])
      ensures 0.0 < nobs < 1.0 ==> (ok <==> |rnd| >= RANDOM_SIDE * RANDOM_SIDE)
      ensures 0.0 < nobs < 1.0 && ok ==>
        forall i, j :: 0 <= i < WORLDSIZE && 0 <= j < WORLDSIZE ==>
          cells[i, j] == if InRandomArea(i, j) && Hits(rnd[RandomIndex(i, j)], nobs) then WALL else old(cells[i, j])
      ensures nobs <= 0.0 ==> ok && rest == rnd
      ensures nobs <= 0.0 ==> forall i, j :: 0 <= i < WORLDSIZE && 0 <= j < WORLDSIZE ==> cells[i, j] == old(cells[i, j])
    {
      if nobs >= 1.0 {
        rest, ok := DrawWalls(Trunc(nobs), rnd);
        if !ok {
          rest := [];
        }
      } else if nobs > 0.0 {
        rest, ok := CreateRandomObstacles(nobs, rnd);
        if !ok {
          rest := [];
        }
      } else {
        rest, ok := rnd, true;
      }
    }

    /** The do-while of place_dirt: pairs of draws until an EMPTY interior cell turns up. */
    method DrawEmptyInterior(rnd: seq<nat>) returns (row: int, col: int, rest: seq<nat>, ok: bool)
      requires Valid() && 3 <= nrow && 3 <= ncol
      ensures |rest| <= |rnd| && rest == rnd[|rnd| - |rest|..]
      ensures ok ==> 1 <= row <= nrow - 2 && 1 <= col <= ncol - 2 && cells[row, col] == EMPTY
    {
      row, col, rest := 0, 0, rnd;
      ok := false;
      while !ok
        invariant |rest| <= |rnd| && rest == rnd[|rnd| - |rest|..]
        invariant ok ==> 1 <= row <= nrow - 2 && 1 <= col <= ncol - 2 && cells[row, col] == EMPTY
        decreases |rest|, !ok
      {
        if |rest| < 2 {
          return;
        }
        row := InteriorDraw(nrow, rest[0]);
        col := InteriorDraw(ncol, rest[1]);
        rest := rest[2..];
        ok := cells[row, col] == EMPTY;
      }
    }

    /** The body of place_dirt's loop once a cell is chosen: record it and write its digit. */
    method AddDirt(row: int, col: int, depth: int)
      requires Valid() && DirtPlaced() && 1 <= row <= nrow - 2 && 1 <= col <= ncol - 2 && 1 <= depth <= MAXDIRT
      requires cells[row, col] == EMPTY
      requires forall y, x :: 0 <= y < WORLDSIZE && 0 <= x < WORLDSIZE && Occupied(dirt, y, x) ==> cells[y, x] != EMPTY
      modifies this, cells
      ensures Valid() && DirtPlaced()
      ensures nrow == old(nrow) && ncol == old(ncol) && ndirt == old(ndirt)
      ensures name == old(name) && baseX == old(baseX) && baseY == old(baseY)
      ensures dirt == old(dirt) + [DirtRecord(col, row, depth)]
      ensures cells[row, col] == DigitChar(depth)
      ensures forall y, x :: 0 <= y < WORLDSIZE && 0 <= x < WORLDSIZE ==>
        (Occupied(dirt, y, x) <==> (y == row && x == col) || Occupied(old(dirt), y, x))
      ensures forall y, x :: 0 <= y < WORLDSIZE && 0 <= x < WORLDSIZE && (y, x) != (row, col) ==> cells[y, x] == old(cells[y, x])
    {
      var rec := DirtRecord(col, row, depth);
      assert !Occupied(dirt, row, col);
      AppendPlaced(dirt, rec, nrow, ncol);
      forall y, x | 0 <= y < WORLDSIZE && 0 <= x < WORLDSIZE
        ensures Occupied(dirt + [rec], y, x) <==> (y == row && x == col) || Occupied(dirt, y, x)
      {
        OccupiedAppend(dirt, rec, y, x);
      }
      ghost var d := dirt;
      cells[row, col] := DigitChar(depth);
      dirt := dirt + [rec];
      forall k | 0 <= k < |dirt|
        ensures cells[dirt[k].y, dirt[k].x] == DigitChar(dirt[k].depth)
      {
        if k < |d| {
          assert dirt[k] == d[k];
        }
      }
    }

    /**
     * place_dirt: ndirt becomes num; each of num records is drawn by rejection
     * until an EMPTY interior cell turns up, gets depth 1..MAXDIRT and its digit.
     */
    method PlaceDirt(num: int, rnd: seq<nat>) returns (rest: seq<nat>, ok: bool)
      requires Valid() && (num > 0 ==> 3 <= nrow && 3 <= ncol)
      modifies this, cells
      ensures Valid() && nrow == old(nrow) && ncol == old(ncol)
      ensures name == old(name) && baseX == old(baseX) && baseY == old(baseY)
      ensures ndirt == num && |dirt| <= Count(num) && (ok ==> |dirt| == Count(num))
      ensures |rest| <= |rnd| && rest == rnd[|rnd| - |rest|..]
      ensures DirtPlaced()
      ensures forall y, x :: 0 <= y < WORLDSIZE && 0 <= x < WORLDSIZE ==>
        (Occupied(dirt, y, x) ==> old(cells[y, x]) == EMPTY) &&
        (!Occupied(dirt, y, x) ==> cells[y, x] == old(cells[y, x]))
      ensures forall y, x :: 0 <= y < WORLDSIZE && 0 <= x < WORLDSIZE ==>
        cells[y, x] == old(cells[y, x]) || '1' <= cells[y, x] <= '5'
    {
      ndirt := num;
      dirt := [];
      rest, ok := rnd, true;
      for n := 0 to Count(num)
        invariant Valid() && nrow == old(nrow) && ncol == old(ncol)
        invariant name == old(name) && baseX == old(baseX) && baseY == old(baseY)
        invariant ndirt == num && |dirt| == n
        invariant |rest| <= |rnd| && rest == rnd[|rnd| - |rest|..]
        invariant DirtPlaced()
        invariant forall y, x :: 0 <= y < WORLDSIZE && 0 <= x < WORLDSIZE ==>
          (Occupied(dirt, y, x) ==> old(cells[y, x]) == EMPTY && '1' <= cells[y, x] <= '5') &&
          (!Occupied(dirt, y, x) ==> cells[y, x] == old(cells[y, x]))
      {
        var row, col;
        row, col, rest, ok := DrawEmptyInterior(rest);
        if !ok {
          return;
        }
        if |rest| == 0 {
          ok := false;
          return;
        }
        var depth := rest[0] % MAXDIRT + 1;
        rest := rest[1..];
        AddDirt(row, col, depth);
      }
    }

    /**
     * sim_world_generate: refuse a size above WORLDSIZE; otherwise an empty
     * map with border walls, then obstacles, then dirt.
     */
    method Generate(nr: int, nc: int, numDirty: int, nobs: real, rnd: seq<nat>) returns (r: int, ok: bool)
      requires Valid()
      requires nr <= WORLDSIZE && nc <= WORLDSIZE ==> GenerateFits(nr, nc, numDirty, nobs, rnd)
      modifies this, cells
      ensures Valid()
      ensures nr > WORLDSIZE || nc > WORLDSIZE ==> r == -1 && unchanged(this) && unchanged(cells)
      ensures nr <= WORLDSIZE && nc <= WORLDSIZE ==>
        r == 0 && nrow == nr && ncol == nc && Bordered() && MapChars()
      ensures nr <= WORLDSIZE && nc <= WORLDSIZE && ok ==>
        ndirt == numDirty && |dirt| == Count(numDirty) && DirtPlaced() &&
        forall i, j :: 0 <= i < WORLDSIZE && 0 <= j < WORLDSIZE ==>
          cells[i, j] == EMPTY || cells[i, j] == WALL || Occupied(dirt, i, j)
      ensures nr <= WORLDSIZE && nc <= WORLDSIZE && ok ==>
        (nobs >= 1.0 ==> 4 * Trunc(nobs) <= |rnd|) && (0.0 < nobs < 1.0 ==> |rnd| >= RANDOM_SIDE * RANDOM_SIDE) &&
        forall i, j :: 0 <= i < WORLDSIZE && 0 <= j < WORLDSIZE ==>
          (cells[i, j] == WALL <==> OnBorder(nr, nc, i, j) || Obstacle(nr, nc, nobs, rnd, i, j))
    {
      if nr > WORLDSIZE || nc > WORLDSIZE {
        return -1, true;
      }
      r := 0;
      InitEmptyWorld(nr, nc);
      AddBorderWalls();
      var rest;
      rest, ok := AddObstacles(nobs, rnd);
      assert Bordered();
      assert forall i, j :: 0 <= i < WORLDSIZE && 0 <= j < WORLDSIZE ==> cells[i, j] == EMPTY || cells[i, j] == WALL;
      if !ok {
        return;
      }
      assert forall i, j :: 0 <= i < WORLDSIZE && 0 <= j < WORLDSIZE ==>
        (cells[i, j] == WALL <==> OnBorder(nr, nc, i, j) || Obstacle(nr, nc, nobs, rnd, i, j));
      rest, ok := PlaceDirt(numDirty, rest);
    }

    /** The samples sim_world_save writes for the first n cells of row i. */
    function RowSamples(i: int, n: int): (row: seq<int>)
      reads this, cells
      requires Valid() && 0 <= i < WORLDSIZE && n <= WORLDSIZE
      ensures |row| == Count(n)
      decreases Count(n)
    {
      if n <= 0 then [] else RowSamples(i, n - 1) + [SampleOf(cells[i, n - 1])]
    }

    /** The samples sim_world_save writes for the first n rows. */
    function RowsSamples(n: int): (rows: seq<seq<int>>)
      reads this, cells
      requires Valid() && n <= WORLDSIZE
      ensures |rows| == Count(n)
      decreases Count(n)
    {
      if n <= 0 then [] else RowsSamples(n - 1) + [RowSamples(n - 1, ncol)]
    }

    /** The samples sim_world_save writes: one per cell of the nrow x ncol map. */
    function Samples(): seq<seq<int>>
      reads this, cells
      requires Valid()
    {
      RowsSamples(nrow)
    }

    lemma {:induction false} RowSamplesAt(i: int, n: int, j: int)
      requires Valid() && 0 <= i < WORLDSIZE && n <= WORLDSIZE && 0 <= j < Count(n)
      ensures RowSamples(i, n)[j] == SampleOf(cells[i, j])
      decreases Count(n)
    {
      if j < n - 1 {
        RowSamplesAt(i, n - 1, j);
      }
    }

    lemma {:induction false} RowsSamplesAt(n: int, i: int)
      requires Valid() && n <= WORLDSIZE && 0 <= i < Count(n)
      ensures RowsSamples(n)[i] == RowSamples(i, ncol)
      decreases Count(n)
    {
      if i < n - 1 {
        RowsSamplesAt(n - 1, i);
      }
    }

    /** The samples have the map's shape, and each is the sample of its cell. */
    lemma SamplesShape()
      requires Valid()
      ensures Shaped(Samples(), nrow, ncol)
      ensures forall i, j :: 0 <= i < |Samples()| && 0 <= j < |Samples()[i]| ==> Samples()[i][j] == SampleOf(cells[i, j])
    {
      forall i | 0 <= i < |Samples()|
        ensures |Samples()[i]| == Count(ncol)
      {
        RowsSamplesAt(nrow, i);
      }
      forall i, j | 0 <= i < |Samples()| && 0 <= j < |Samples()[i]|
        ensures Samples()[i][j] == SampleOf(cells[i, j])
      {
        RowsSamplesAt(nrow, i);
        RowSamplesAt(i, ncol, j);
      }
    }

    /** The image sim_world_save writes: ncol columns, nrow rows, maxval 255. */
    function SavedImage(): (img: Image)
      reads this, cells
      requires Valid()
      ensures img.width == ncol && img.height == nrow && img.maxval == 255
    {
      Image(ncol, nrow, 255, Samples())
    }

    /** The inner loop of sim_world_save: row i's samples, each followed by a space. */
    method SaveRow(i: int) returns (line: string)
      requires Valid() && 0 <= i < WORLDSIZE
      ensures line == ValuesThen(RowSamples(i, ncol), "")
    {
      line := "";
      for j := 0 to Count(ncol)
        invariant line == ValuesThen(RowSamples(i, j), "")
      {
        ValuesThenSnoc(RowSamples(i, j), SampleOf(cells[i, j]));
        line := line + IntToString(SampleOf(cells[i, j])) + " ";
      }
    }

    /**
     * sim_world_save: nothing when map.pgm cannot be opened; otherwise the
     * header, then each row's samples followed by a space, then a newline.
     */
    method Save(canOpen: bool) returns (file: Option<string>)
      requires Valid()
      ensures !canOpen ==> file == None
      ensures canOpen ==> file == Some(Encode(SavedImage()))
    {
      if !canOpen {
        return None;
      }
      var out := HeaderThen(ncol, nrow, 255, "");
      ghost var header := out;
      assert out == header + RowsThen(RowsSamples(0), "");
      for i := 0 to Count(nrow)
        invariant out == header + RowsThen(RowsSamples(i), "")
      {
        var line := SaveRow(i);
        RowsThenAppendLine(out, header, RowsSamples(i), RowSamples(i, ncol), line);
        out := out + line + "\n";
      }
      SavedText(out);
      return Some(out);
    }

    lemma SavedText(out: string)
      requires Valid() && out == HeaderThen(ncol, nrow, 255, "") + RowsThen(RowsSamples(Count(nrow)), "")
      ensures out == Encode(SavedImage())
    {
      HeaderSplit(ncol, nrow, 255, RowsThen(Samples(), ""));
      assert RowsSamples(Count(nrow)) == RowsSamples(nrow);
    }

    /**
     * One row of sim_world_load: each sample's cell character, put_base for
     * a 0 sample, and a dirt record for every other non-sentinel sample.
     */
    method LoadRow(rows: seq<seq<int>>, i: nat, ghost base: (int, int))
      requires Valid() && i < |rows| && i < WORLDSIZE && |rows[i]| <= WORLDSIZE
      requires dirt == LoadedDirt(rows, i, 0, false) && ndirt == |dirt|
      requires (baseX, baseY) == LoadedBase(rows, i, 0, base)
      modifies this, cells
      ensures Valid() && nrow == old(nrow) && ncol == old(ncol) && name == old(name)
      ensures dirt == LoadedDirt(rows, i, |rows[i]|, false) && ndirt == |dirt|
      ensures (baseX, baseY) == LoadedBase(rows, i, |rows[i]|, base)
      ensures forall y, x :: 0 <= y < WORLDSIZE && 0 <= x < WORLDSIZE ==>
        cells[y, x] == if y == i && x < |rows[i]| then CharOfSample(rows[i][x]) else old(cells[y, x])
    {
      for j := 0 to |rows[i]|
        invariant Valid() && nrow == old(nrow) && ncol == old(ncol) && name == old(name)
        invariant dirt == LoadedDirt(rows, i, j, false) && ndirt == |dirt|
        invariant (baseX, baseY) == LoadedBase(rows, i, j, base)
        invariant forall y, x :: 0 <= y < WORLDSIZE && 0 <= x < WORLDSIZE ==>
          cells[y, x] == if y == i && x < j then CharOfSample(rows[i][x]) else old(cells[y, x])
      {
        var v := rows[i][j];
        if v == 128 {
          cells[i, j] := WALL;
        } else if v == 255 {
          cells[i, j] := EMPTY;
        } else if v == 0 {
          var _ := PutBase(j, i);
        } else {
          dirt := dirt + [LoadedRecord(i, j, v)];
          cells[i, j] := ByteChar(v + '0' as int);
          ndirt := ndirt + 1;
        }
      }
    }

    /**
     * sim_world_load. `file` is the text of the file, None when it cannot be
     * opened. An oversized header is refused with ndirt reset; a readable map
     * sets the size, every cell of the nrow x ncol region, the dirt records,
     * the base of the last 0 sample and the stored name.
     */
    method Load(filename: string, file: Option<string>) returns (r: int)
      requires Valid()
      modifies this, cells
      ensures Valid()
      ensures file.None? ==> r == -1 && unchanged(this) && unchanged(cells)
      ensures file.Some? && !Decode(file.value).Decoded? ==>
        r == -1 && ndirt == 0 && dirt == [] && unchanged(cells) &&
        nrow == old(nrow) && ncol == old(ncol) && name == old(name) && baseX == old(baseX) && baseY == old(baseY)
      ensures file.Some? && Decode(file.value).Decoded? ==>
        r == 0 && nrow == Decode(file.value).img.height && ncol == Decode(file.value).img.width &&
        Shaped(Decode(file.value).img.rows, nrow, ncol) &&
        name == StoredName(filename) &&
        dirt == LoadedDirt(Decode(file.value).img.rows, |Decode(file.value).img.rows|, 0, false) &&
        ndirt == |dirt| &&
        (baseX, baseY) == LoadedBase(Decode(file.value).img.rows, |Decode(file.value).img.rows|, 0, (old(baseX), old(baseY)))
      ensures file.Some? && Decode(file.value).Decoded? ==>
        forall y, x :: 0 <= y < WORLDSIZE && 0 <= x < WORLDSIZE ==>
          cells[y, x] == if y < nrow && x < ncol then CharOfSample(Decode(file.value).img.rows[y][x]) else old(cells[y, x])
    {
      if file.None? {
        return -1;
      }
      var d := Decode(file.value);
      if !d.Decoded? {
        ndirt, dirt := 0, [];
        return -1;
      }
      DecodeShaped(file.value);
      CopyImage(filename, d.img);
      r := 0;
    }

    /**
     * The decoded image copied into the world: its size, every sample's cell
     * character, the dirt records and the base, row by row.
     */
    method CopyImage(filename: string, img: Image)
      requires Valid() && img.width <= WORLDSIZE && img.height <= WORLDSIZE && Shaped(img.rows, img.height, img.width)
      modifies this, cells
      ensures Valid()
      ensures nrow == img.height && ncol == img.width && name == StoredName(filename)
      ensures dirt == LoadedDirt(img.rows, |img.rows|, 0, false) && ndirt == |dirt|
      ensures (baseX, baseY) == LoadedBase(img.rows, |img.rows|, 0, (old(baseX), old(baseY)))
      ensures forall y, x :: 0 <= y < WORLDSIZE && 0 <= x < WORLDSIZE ==>
        cells[y, x] == if y < nrow && x < ncol then CharOfSample(img.rows[y][x]) else old(cells[y, x])
    {
      var rows := img.rows;
      nrow, ncol := img.height, img.width;
      ndirt, dirt := 0, [];
      ghost var base := (baseX, baseY);
      for i := 0 to |rows|
        invariant Valid() && nrow == img.height && ncol == img.width && name == old(name)
        invariant dirt == LoadedDirt(rows, i, 0, false) && ndirt == |dirt|
        invariant (baseX, baseY) == LoadedBase(rows, i, 0, base)
        invariant forall y, x :: 0 <= y < WORLDSIZE && 0 <= x < WORLDSIZE ==>
          cells[y, x] == if y < i && x < ncol then CharOfSample(rows[y][x]) else old(cells[y, x])
      {
        LoadRow(rows, i, base);
      }
      name := StoredName(filename);
    }

    /** What sim_world_save writes, when map.pgm opens, decodes to the saved image. */
    method SaveDecodable() returns (file: Option<string>)
      requires Valid()
      ensures file.Some? && Decode(file.value) == Decoded(SavedImage())
    {
      SamplesShape();
      file := Save(true);
      DecodeEncode(SavedImage());
    }

    /** sim_world_load of a file that decodes to img, stated in terms of img. */
    method LoadImage(filename: string, file: Option<string>, ghost img: Image) returns (r: int)
      requires Valid() && file.Some? && Decode(file.value) == Decoded(img)
      modifies this, cells
      ensures Valid() && r == 0 && nrow == img.height && ncol == img.width && name == StoredName(filename)
      ensures Shaped(img.rows, nrow, ncol)
      ensures dirt == LoadedDirt(img.rows, |img.rows|, 0, false) && ndirt == |dirt|
      ensures forall y, x :: 0 <= y < WORLDSIZE && 0 <= x < WORLDSIZE ==>
        cells[y, x] == if y < nrow && x < ncol then CharOfSample(img.rows[y][x]) else old(cells[y, x])
    {
      r := Load(filename, file);
    }

    /**
     * Saving to map.pgm and loading it back keeps the size and every cell of
     * a map whose nrow x ncol region holds only map characters, and lists
     * exactly its dirt cells, each with x the column and y the row.
     */
    method SaveThenLoad() returns (r: int)
      requires Valid() && RegionChars()
      modifies this, cells
      ensures r == 0 && nrow == old(nrow) && ncol == old(ncol) && name == "map.pgm"
      ensures forall y, x :: 0 <= y < WORLDSIZE && 0 <= x < WORLDSIZE ==> cells[y, x] == old(cells[y, x])
      ensures forall k :: 0 <= k < |dirt| ==>
        0 <= dirt[k].y < nrow && 0 <= dirt[k].x < ncol && 1 <= dirt[k].depth <= MAXDIRT &&
        cells[dirt[k].y, dirt[k].x] == DigitChar(dirt[k].depth)
      ensures forall y, x :: 0 <= y < nrow && 0 <= x < ncol && IsDigit(cells[y, x]) ==>
        DirtRecord(x, y, DirtOf(cells[y, x])) in dirt
    {
      ghost var img := SavedImage();
      SamplesShape();
      SamplesRoundTrip();
      var file := SaveDecodable();
      r := LoadImage("map.pgm", file, img);
      assert forall y, x :: 0 <= y < WORLDSIZE && 0 <= x < WORLDSIZE ==> cells[y, x] == old(cells[y, x]);
      assert forall y, x :: 0 <= y < |img.rows| && 0 <= x < |img.rows[y]| ==> img.rows[y][x] == SampleOf(cells[y, x]);
      assert RegionChars();
      LoadedDirtMatches(img.rows);
    }

    /** When the region holds only map characters, loading a cell's sample gives the cell back. */
    lemma SamplesRoundTrip()
      requires Valid() && RegionChars()
      ensures Shaped(Samples(), nrow, ncol)
      ensures forall y, x :: 0 <= y < |Samples()| && 0 <= x < |Samples()[y]| ==> CharOfSample(Samples()[y][x]) == cells[y, x]
    {
      SamplesShape();
      forall y, x | 0 <= y < |Samples()| && 0 <= x < |Samples()[y]|
        ensures CharOfSample(Samples()[y][x]) == cells[y, x]
      {
        SampleRoundTrip(cells[y, x]);
      }
    }

    /**
     * When rows holds the samples of a map whose region holds only map
     * characters, the records loaded from rows are exactly its dirt cells,
     * each with x the column and y the row.
     */
    lemma LoadedDirtMatches(rows: seq<seq<int>>)
      requires Valid() && RegionChars() && Shaped(rows, nrow, ncol)
      requires forall y, x :: 0 <= y < |rows| && 0 <= x < |rows[y]| ==> rows[y][x] == SampleOf(cells[y, x])
      requires dirt == LoadedDirt(rows, |rows|, 0, false)
      ensures forall k :: 0 <= k < |dirt| ==>
        0 <= dirt[k].y < nrow && 0 <= dirt[k].x < ncol && 1 <= dirt[k].depth <= MAXDIRT &&
        cells[dirt[k].y, dirt[k].x] == DigitChar(dirt[k].depth)
      ensures forall y, x :: 0 <= y < nrow && 0 <= x < ncol && IsDigit(cells[y, x]) ==>
        DirtRecord(x, y, DirtOf(cells[y, x])) in dirt
    {
      LoadedDirtSound(rows, |rows|, 0);
      forall k | 0 <= k < |dirt|
        ensures 0 <= dirt[k].y < nrow && 0 <= dirt[k].x < ncol && 1 <= dirt[k].depth <= MAXDIRT &&
          cells[dirt[k].y, dirt[k].x] == DigitChar(dirt[k].depth)
      {
        assert dirt[k] in dirt;
        SampleRoundTrip(cells[dirt[k].y, dirt[k].x]);
      }
      forall y, x | 0 <= y < nrow && 0 <= x < ncol && IsDigit(cells[y, x])
        ensures DirtRecord(x, y, DirtOf(cells[y, x])) in dirt
      {
        SampleRoundTrip(cells[y, x]);
        LoadedDirtComplete(rows, |rows|, 0, y, x);
      }
    }
  }
}
