/**
 * The self-contained 2024 competition kernel of simulacomp_24.c: its own
 * globals (the map, the robot, the history, the timer and the statistics)
 * and the actions the robot program calls, each ending with the history
 * tick.
 *
 * The globals are the fields of one Comp object. The grid and the dirt
 * list are a SimWorld.Map, whose fields are those of this kernel's map_t
 * (patch, nrow, ncol, dirt, ndirt, the base position bcol, brow). exit(0)
 * inside tick is the `exited` flag; the code that follows a tick which
 * exits is not run. rand() is a stream `rnd` of non-negative values, and
 * the step of a forward move, (rounda(cos h), rounda(sin h)), is the
 * function `stepOf`, of which only its range is known.
 */
module Comp24 {
  import opened Types
  import opened Pgm
  import opened SimWorld
  import opened SimStats
  import opened SimContext
  import opened SimRobot
  import opened CompetitionExt

  /** EXECTIME: the fixed budget of every team, and the length of hist. */
  const EXECTIME: int := 2500

  // ---------------------------------------------------------------------------
  // set_base
  // ---------------------------------------------------------------------------

  /**
   * The base set_base draws, as written: a wall from the second draw, a
   * position along it from the third (the first draw is discarded). Cases 1
   * and 3 draw over n-2 positions starting at 2.
   */
  function SetBaseAsWritten(nrow: int, ncol: int, c: nat, v: nat): (b: (int, int, real))
    requires 5 <= nrow && 5 <= ncol
    ensures 1 <= b.0 <= ncol - 1 && 1 <= b.1 <= nrow - 1
    ensures (b.1 == 1 && b.2 == PI / 2.0) || (b.1 == nrow - 2 && b.2 == -PI / 2.0) ||
            (b.0 == 1 && b.2 == 0.0) || (b.0 == ncol - 2 && b.2 == PI)
    ensures c % 4 == 0 || c % 4 == 2 ==> b == SetBase(nrow, ncol, c, v)
  {
    match c % 4
    case 0 => (v % (ncol - 4) + 2, 1, PI / 2.0)
    case 1 => (v % (ncol - 2) + 2, nrow - 2, -PI / 2.0)
    case 2 => (1, v % (nrow - 4) + 2, 0.0)
    case _ => (ncol - 2, v % (nrow - 2) + 2, PI)
  }

  /** On a 50 x 50 map set_base can put the base into the right border column or the bottom border row. */
  lemma BaseOnBorderAsWritten()
    ensures SetBaseAsWritten(WORLDSIZE, WORLDSIZE, 1, 47) == (49, 48, -PI / 2.0)
    ensures OnBorder(WORLDSIZE, WORLDSIZE, 48, 49)
    ensures SetBaseAsWritten(WORLDSIZE, WORLDSIZE, 3, 47) == (48, 49, PI)
    ensures OnBorder(WORLDSIZE, WORLDSIZE, 49, 48)
  {
  }

  /**
   * The base set_base means to draw: a cell next to one of the four walls,
   * at positions 2..n-3 along it as in cases 0 and 2, with the heading
   * that leaves the wall behind.
   */
  function SetBase(nrow: int, ncol: int, c: nat, v: nat): (b: (int, int, real))
    requires 5 <= nrow && 5 <= ncol
    ensures 1 <= b.0 <= ncol - 2 && 1 <= b.1 <= nrow - 2
    ensures !OnBorder(nrow, ncol, b.1, b.0)
    ensures (b.1 == 1 && b.2 == PI / 2.0) || (b.1 == nrow - 2 && b.2 == -PI / 2.0) ||
            (b.0 == 1 && b.2 == 0.0) || (b.0 == ncol - 2 && b.2 == PI)
  {
    match c % 4
    case 0 => (v % (ncol - 4) + 2, 1, PI / 2.0)
    case 1 => (v % (ncol - 4) + 2, nrow - 2, -PI / 2.0)
    case 2 => (1, v % (nrow - 4) + 2, 0.0)
    case _ => (ncol - 2, v % (nrow - 4) + 2, PI)
  }

  // ---------------------------------------------------------------------------
  // rmb_clean
  // ---------------------------------------------------------------------------

  /** The depth rmb_clean reads, as written: patch - '0' on the signed char, whatever the cell holds. */
  function DepthAsWritten(c: char): (d: int)
    ensures IsMapChar(c) && c != BASE ==> if DirtOf(c) > 0 then d == DirtOf(c) else d < 0
  {
    CharValue(c) - '0' as int
  }

  /** The cell rmb_clean leaves, as written: a positive reading is lowered by one and written back as '0' + depth. */
  function CleanedAsWritten(c: char): (r: char)
    ensures DepthAsWritten(c) <= 0 ==> r == c
    ensures DepthAsWritten(c) > 0 ==> DepthAsWritten(r) == DepthAsWritten(c) - 1
  {
    if DepthAsWritten(c) > 0 then ByteChar(DepthAsWritten(c) - 1 + '0' as int) else c
  }

  /** Cleaning on the base reads depth 18: the base becomes 'A', and the action counts as a clean. */
  lemma CleanOnBaseAsWritten()
    ensures DepthAsWritten(BASE) == 18
    ensures CleanedAsWritten(BASE) == 'A' && CleanedAsWritten(BASE) != BASE
  {
  }

  /**
   * The cell rmb_clean means to leave: the depth is that of a dirt cell
   * only (0 on wall, empty and base, as sim_world_cell_dirt reads it); a
   * positive depth is lowered by one and a fully cleaned cell holds '0'.
   */
  function Cleaned(c: char): (r: char)
    ensures DirtOf(c) <= 0 ==> r == c
    ensures 1 <= DirtOf(c) <= 9 ==> r == DigitChar(DirtOf(c) - 1)
  {
    if DirtOf(c) > 0 then ByteChar(DirtOf(c) - 1 + '0' as int) else c
  }

  /**
   * Cleaning keeps the base, the walls and the empty cells; on a map
   * character or '0' it lowers the depth by one down to '0', and what it
   * leaves is again a map character or '0'.
   */
  lemma CleanKeepsBase(c: char)
    requires IsMapChar(c) || c == '0'
    ensures c == BASE || c == WALL || c == EMPTY || c == '0' ==> Cleaned(c) == c
    ensures '1' <= c <= '5' ==> Cleaned(c) == (c as int - 1) as char
    ensures IsMapChar(Cleaned(c)) || Cleaned(c) == '0'
    ensures DirtOf(Cleaned(c)) == if DirtOf(c) > 0 then DirtOf(c) - 1 else 0
  {
  }

  /** The corrected clean agrees with the written one on every cell but the base. */
  lemma CleanedAgrees(c: char)
    requires IsMapChar(c) || c == '0'
    requires c != BASE
    ensures Cleaned(c) == CleanedAsWritten(c)
  {
  }

  // ---------------------------------------------------------------------------
  // Horizontal walls of generate_map
  // ---------------------------------------------------------------------------

  /**
   * The segment the 2024 wall builders draw, as written: the row of a
   * horizontal wall is drawn over the columns, rand() % (ncol - 4) + 2.
   */
  function DrawSegmentAsWritten(nrow: int, ncol: int, r0: nat, r1: nat, r2: nat, r3: nat): (s: Segment)
    requires nrow != 0 && ncol != 0 && ncol != 4
    ensures s.vertical <==> r0 % 2 != 0
    ensures 5 <= ncol ==> 2 <= s.line <= ncol - 3
  {
    if r0 % 2 != 0 then
      Segment(true, CMod(r3, ncol - 4) + 2, CDiv(CMod(r2, nrow), 2) + 2, CDiv(CMod(r1, nrow), 2) + CDiv(nrow, 4))
    else
      Segment(false, CMod(r3, ncol - 4) + 2, CDiv(CMod(r2, ncol), 2) + 2, CDiv(CMod(r1, ncol), 2) + CDiv(ncol, 4))
  }

  /** On a 10-row, 50-column map a horizontal wall can be drawn on row 47, below the map. */
  lemma HorizWallBelowMap()
    ensures DrawSegmentAsWritten(10, WORLDSIZE, 0, 0, 0, 45).line == 47
    ensures !DrawSegmentAsWritten(10, WORLDSIZE, 0, 0, 0, 45).vertical
  {
  }

  /**
   * The wall sim_world.c draws (DrawSegment): a horizontal wall lies on a
   * row 2..nrow-3 and a vertical one on a column 2..ncol-3, inside the map.
   */
  lemma WallLineInsideMap(nrow: int, ncol: int, r0: nat, r1: nat, r2: nat, r3: nat)
    requires 5 <= nrow && 5 <= ncol
    ensures var s := DrawSegment(nrow, ncol, r0, r1, r2, r3);
      if s.vertical then 2 <= s.line <= ncol - 3 else 2 <= s.line <= nrow - 3
  {
  }

  /** The two draws agree on every vertical wall and on every wall of a square map. */
  lemma DrawSegmentAgrees(nrow: int, ncol: int, r0: nat, r1: nat, r2: nat, r3: nat)
    requires 5 <= nrow && 5 <= ncol
    requires r0 % 2 != 0 || nrow == ncol
    ensures DrawSegment(nrow, ncol, r0, r1, r2, r3) == DrawSegmentAsWritten(nrow, ncol, r0, r1, r2, r3)
  {
  }

  /** The total length of the first k walls drawn from rnd. */
  function WallLengths(nrow: int, ncol: int, rnd: seq<nat>, k: nat): int
    requires 4 * k <= |rnd| && SegmentsFit(nrow, ncol, rnd, k)
  {
    if k == 0 then 0 else WallLengths(nrow, ncol, rnd, k - 1) + WallSegment(nrow, ncol, WallDraws(rnd, k - 1)).len
  }

  /** The sum of the depths of a dirt list. */
  function SumDepths(d: seq<DirtRecord>): (sum: int)
    ensures Interior(d, WORLDSIZE, WORLDSIZE) ==> |d| <= sum <= MAXDIRT * |d|
  {
    if d == [] then 0 else SumDepths(d[..|d| - 1]) + d[|d| - 1].depth
  }

  /** A list of records with depths 1..MAXDIRT sums to between one and MAXDIRT per record. */
  lemma {:induction false} SumDepthsBounds(d: seq<DirtRecord>, nrow: int, ncol: int)
    requires Interior(d, nrow, ncol)
    ensures |d| <= SumDepths(d) <= MAXDIRT * |d|
  {
    if d != [] {
      assert Interior(d[..|d| - 1], nrow, ncol) by {
        forall k | 0 <= k < |d| - 1
          ensures d[..|d| - 1][k] == d[k]
        {
        }
      }
      SumDepthsBounds(d[..|d| - 1], nrow, ncol);
    }
  }

  /**
   * The cell_total generate_map starts from, ncol*nrow - (ncol+nrow-4), set
   * against a generated map without obstacles: it exceeds the map's non-wall
   * cells, (nrow-2)*(ncol-2) of them, by nrow+ncol, while the border has
   * 2*(nrow+ncol)-4 cells.
   */
  lemma CellTotalGenerated(m: Map)
    requires m.Valid() && m.OnlyBorderWalls() && 2 <= m.nrow && 2 <= m.ncol
    ensures m.ncol * m.nrow - (m.ncol + m.nrow - 4) == CellTotal(m) + m.nrow + m.ncol
  {
    CellTotalOnlyBorder(m);
    assert m.ncol * m.nrow - (m.ncol + m.nrow - 4) == (m.nrow - 2) * (m.ncol - 2) + (m.nrow + m.ncol);
  }

  // ---------------------------------------------------------------------------
  // save_config
  // ---------------------------------------------------------------------------

  /** What save_config writes: "%d %d", with no newline. */
  function ConfigText24(rep: int, mapId: int): (t: string)
    ensures t + "\n" == ConfigText(rep, mapId)
    ensures '\n' !in t
  {
    IntToStringOneLine(rep);
    IntToStringOneLine(mapId);
    IntToString(rep) + " " + IntToString(mapId)
  }

  lemma ConfigText24RoundTrip(rep: int, mapId: int)
    ensures ParseConfig(ConfigText24(rep, mapId)) == Some((rep, mapId))
  {
    var a, b := IntToString(rep), IntToString(mapId);
    assert ConfigText24(rep, mapId) == "" + (a + (" " + (b + "")));
    ScanIntString("", rep, " " + (b + ""));
    ScanIntString(" ", mapId, "");
  }

  /**
   * save_config: the two numbers of config.txt are read, the repetition
   * advances modulo COMP_REPS_PER_MAP and the map index follows on wrap;
   * the file is rewritten with the new pair. A file that does not hold two
   * numbers leaves nothing defined to write.
   */
  function SaveConfig(text: string): (written: Option<string>)
    ensures written.Some? <==> ParseConfig(text).Some?
  {
    match ParseConfig(text)
    case None => None
    case Some((rep, mapId)) => Some(ConfigText24(NextRound(rep, mapId).0, NextRound(rep, mapId).1))
  }

  /** The file save_config writes reads back as the next configuration. */
  lemma SaveConfigAdvances(text: string)
    requires ParseConfig(text).Some?
    ensures ParseConfig(SaveConfig(text).value) == Some(NextRound(ParseConfig(text).value.0, ParseConfig(text).value.1))
  {
    var p := ParseConfig(text).value;
    ConfigText24RoundTrip(NextRound(p.0, p.1).0, NextRound(p.0, p.1).1);
  }

  /** save_config on the file "rep id" writes the file of the next configuration. */
  lemma SaveConfigText(rep: int, mapId: int)
    ensures SaveConfig(ConfigText24(rep, mapId)) == Some(ConfigText24(NextRound(rep, mapId).0, NextRound(rep, mapId).1))
  {
    ConfigText24RoundTrip(rep, mapId);
  }

  // ---------------------------------------------------------------------------
  // The kernel
  // ---------------------------------------------------------------------------

  /**
   * The drawing half of generate_map's wall loop: up to k walls drawn from
   * four random values each, every one filled on the map; `lens` is the sum
   * of the lengths of the walls drawn.
   */
  method DrawWalls(m: Map, k: int, rnd: seq<nat>) returns (rest: seq<nat>, ok: bool, lens: int)
    requires m.Valid() && SegmentsFit(m.nrow, m.ncol, rnd, k)
    modifies m.cells
    ensures ok <==> 4 * Count(k) <= |rnd|
    ensures ok ==> rest == rnd[4 * Count(k)..] && lens == WallLengths(m.nrow, m.ncol, rnd, Count(k))
    ensures forall i, j :: 0 <= i < WORLDSIZE && 0 <= j < WORLDSIZE ==>
      m.cells[i, j] == old(m.cells[i, j]) || m.cells[i, j] == WALL
  {
    rest, ok, lens := rnd, true, 0;
    var t: nat := 0;
    while t < k
      invariant t <= Count(k) && 4 * t <= |rnd| && rest == rnd[4 * t..]
      invariant lens == WallLengths(m.nrow, m.ncol, rnd, t)
      invariant forall i, j :: 0 <= i < WORLDSIZE && 0 <= j < WORLDSIZE ==>
        m.cells[i, j] == old(m.cells[i, j]) || m.cells[i, j] == WALL
      decreases k - t
    {
      if |rest| < 4 {
        ok := false;
        return;
      }
      var seg := WallSegment(m.nrow, m.ncol, WallDraws(rnd, t));
      m.FillSegment(seg);
      lens := lens + seg.len;
      rest := rest[4..];
      t := t + 1;
    }
  }

  /** The globals of simulacomp_24.c. */
  class Comp {
    /** _map. */
    const world: Map
    /** hist[EXECTIME]. */
    const hist: array<Sample>
    /** The step of rmb_forward for a heading. */
    const stepOf: real -> (real, real)
    /** The sensor part of robot_t r. */
    var x: int
    var y: int
    var heading: real
    var bumper: int
    var infrared: int
    var battery: real
    /** r.x, r.y: the continuous position. */
    var px: real
    var py: real
    var timer: int
    /** config.exec_time. */
    var execTime: int
    /** Set where tick calls exit(0). */
    var exited: bool
    var stats: StatsRecord

    ghost predicate Valid()
      reads this, world
    {
      world.Valid() && hist.Length == EXECTIME && UnitStep(stepOf) && |stats.moves| == NMOVES &&
      InGrid(y, x) && x == Trunc(px) && y == Trunc(py) && battery <= MAXBAT &&
      0 <= timer <= execTime <= EXECTIME
    }

    /** Whether an action ending with a tick may run: the process is alive and tick's assert holds. */
    predicate Live()
      reads this
    {
      !exited && timer < execTime
    }

    /** save_state: the sensor readings. */
    function Snapshot(): (s: Sample)
      reads this
      ensures s.x == x && s.y == y && s.battery == battery
    {
      Sample(x, y, heading, bumper, infrared, battery)
    }

    /** The zero-initialised globals. */
    constructor (step: real -> (real, real))
      requires UnitStep(step)
      ensures Valid() && fresh(world) && fresh(world.cells) && fresh(hist)
      ensures Snapshot() == Sample(0, 0, 0.0, 0, 0, 0.0) && px == 0.0 && py == 0.0
      ensures timer == 0 && execTime == 0 && !exited && stats == ZERO && stepOf == step
    {
      world := new Map();
      hist := new Sample[EXECTIME](i => Sample(0, 0, 0.0, 0, 0, 0.0));
      stepOf := step;
      x, y, heading, bumper, infrared, battery := 0, 0, 0.0, 0, 0, 0.0;
      px, py := 0.0, 0.0;
      timer, execTime, exited := 0, 0, false;
      stats := ZERO;
    }

    /** configure: the requested budget is ignored, every team gets EXECTIME. */
    method Configure(requested: int)
      requires Valid() && timer <= EXECTIME
      modifies this
      ensures Valid() && execTime == EXECTIME
      ensures Snapshot() == old(Snapshot()) && px == old(px) && py == old(py)
      ensures timer == old(timer) && exited == old(exited) && stats == old(stats)
    {
      execTime := EXECTIME;
    }

    /**
     * tick(action): the snapshot goes to hist[timer]; a battery below 0.1
     * exits before the timer moves; otherwise every action but the bump
     * sentinel -1 advances the timer, and reaching the budget exits.
     */
    method Tick(action: int)
      requires Valid() && Live()
      modifies this, hist
      ensures Valid()
      ensures hist[old(timer)] == Snapshot()
      ensures forall k :: 0 <= k < hist.Length && k != old(timer) ==> hist[k] == old(hist[k])
      ensures timer == old(timer) + (if Advances(battery, action) then 1 else 0)
      ensures exited <==> battery < LOW_BATTERY || (action != BUMP_ACTION && old(timer) + 1 >= execTime)
      ensures !exited ==> timer < execTime
      ensures Snapshot() == old(Snapshot()) && px == old(px) && py == old(py)
      ensures stats == old(stats) && execTime == old(execTime)
    {
      hist[timer] := Snapshot();
      if battery < LOW_BATTERY {
        exited := true;
      } else if action != BUMP_ACTION {
        timer := timer + 1;
        if timer >= execTime {
          exited := true;
        }
      }
    }

    /** at_base: the robot's cell holds the base. */
    function AtBase(): (b: bool)
      reads this, world, world.cells
      requires Valid()
      ensures b <==> world.IsBase(y, x)
    {
      world.cells[y, x] == BASE
    }

    /** put_base_at: a base at column x, row y, recorded as bcol, brow, with the heading base_heading gives. */
    method PutBaseAt(bcol: int, brow: int) returns (h: real)
      requires Valid() && InGrid(brow, bcol)
      modifies world, world.cells
      ensures Valid()
      ensures world.cells[brow, bcol] == BASE && world.baseX == bcol && world.baseY == brow
      ensures h == BaseHeading(world.ncol, bcol, brow)
      ensures forall i, j :: 0 <= i < WORLDSIZE && 0 <= j < WORLDSIZE && (i, j) != (brow, bcol) ==> world.cells[i, j] == old(world.cells[i, j])
      ensures world.nrow == old(world.nrow) && world.ncol == old(world.ncol) && world.dirt == old(world.dirt)
    {
      h := world.PutBase(bcol, brow);
    }

    /**
     * rmb_awake: set_base draws a base next to a wall and marks it (the
     * recorded bcol, by are not updated); the robot stands on it with the
     * drawn heading, a full battery and clear sensors, and one tick is
     * recorded. `ok` is false, and nothing changes, when rand() runs out.
     */
    method Awake(rnd: seq<nat>) returns (bcol: int, brow: int, ok: bool, rest: seq<nat>)
      requires Valid() && Live() && 5 <= world.nrow && 5 <= world.ncol
      modifies this, world.cells, hist
      ensures Valid()
      ensures ok <==> |rnd| >= 3
      ensures !ok ==> unchanged(this) && unchanged(world.cells) && unchanged(hist)
      ensures ok ==> rest == rnd[3..] && (bcol, brow, heading) == SetBase(world.nrow, world.ncol, rnd[1], rnd[2])
      ensures ok ==> x == bcol && y == brow && px == bcol as real && py == brow as real
      ensures ok ==> battery == MAXBAT && bumper == 0 && infrared == 0 && AtBase()
      ensures ok ==> world.cells[brow, bcol] == BASE
      ensures ok ==> forall i, j :: 0 <= i < WORLDSIZE && 0 <= j < WORLDSIZE && (i, j) != (brow, bcol) ==>
        world.cells[i, j] == old(world.cells[i, j])
      ensures ok ==> hist[old(timer)] == Snapshot() && timer == old(timer) + 1 && (exited <==> timer >= execTime)
      ensures ok ==> forall k :: 0 <= k < hist.Length && k != old(timer) ==> hist[k] == old(hist[k])
      ensures stats == old(stats)
    {
      if |rnd| < 3 {
        return x, y, false, rnd;
      }
      var b := SetBase(world.nrow, world.ncol, rnd[1], rnd[2]);
      bcol, brow := b.0, b.1;
      StandOnBase(bcol, brow, b.2);
      Tick(0);
      ok, rest := true, rnd[3..];
    }

    /** The placement half of rmb_awake: the base marked, the robot on it, charged, with clear sensors. */
    method StandOnBase(bcol: int, brow: int, h: real)
      requires Valid() && InGrid(brow, bcol)
      modifies this, world.cells
      ensures Valid()
      ensures x == bcol && y == brow && px == bcol as real && py == brow as real && heading == h
      ensures battery == MAXBAT && bumper == 0 && infrared == 0
      ensures world.cells[brow, bcol] == BASE
      ensures forall i, j :: 0 <= i < WORLDSIZE && 0 <= j < WORLDSIZE && (i, j) != (brow, bcol) ==>
        world.cells[i, j] == old(world.cells[i, j])
      ensures timer == old(timer) && exited == old(exited) && execTime == old(execTime) && stats == old(stats)
    {
      world.cells[brow, bcol] := BASE;
      x, y, heading := bcol, brow, h;
      px, py := bcol as real, brow as real;
      TruncOfInt(bcol);
      TruncOfInt(brow);
      battery, bumper, infrared := MAXBAT, 0, 0;
    }

    /**
     * rmb_turn: the heading turns by alpha (lifted by 2*PI when negative,
     * then reduced with fmod), the bumper clears and 0.1 of battery is
     * spent; no tick is recorded.
     */
    method Turn(alpha: real)
      requires Valid() && !exited
      modifies this
      ensures Valid()
      ensures heading == TurnHeading(old(heading), alpha) && bumper == 0
      ensures battery == old(battery) - COST_TURN
      ensures battery + stats.batTotal == old(battery + stats.batTotal)
      ensures stats == old(stats).(batTotal := old(stats.batTotal) + COST_TURN, moves := old(stats.moves)[TURN := old(stats.moves[TURN]) + 1])
      ensures x == old(x) && y == old(y) && px == old(px) && py == old(py) && infrared == old(infrared)
      ensures timer == old(timer) && exited == old(exited) && execTime == old(execTime)
    {
      heading := heading + alpha;
      if heading < 0.0 {
        heading := heading + TWO_PI;
      }
      heading := FModTwoPi(heading);
      bumper := 0;
      battery := battery - COST_TURN;
      stats := stats.(batTotal := stats.batTotal + COST_TURN, moves := stats.moves[TURN := stats.moves[TURN] + 1]);
    }

    /** The cell (rx, ry) rmb_forward aims at: the continuous position plus the step, truncated. */
    function Target(): (t: (int, int))
      reads this
      ensures UnitStep(stepOf) && 1 <= x && 1 <= y && x == Trunc(px) && y == Trunc(py) ==>
        x - 1 <= t.0 <= x + 1 && y - 1 <= t.1 <= y + 1
    {
      UnitStepAt(stepOf, heading);
      (Trunc(px + stepOf(heading).0), Trunc(py + stepOf(heading).1))
    }

    /** The battery rmb_forward charges, into its `int batt`: a bump's 0.5 and a diagonal's 1.4 are truncated. */
    function ForwardCharge(bump: bool, dx: real, dy: real): (batt: int)
      ensures batt == if bump then 0 else 1
    {
      if bump then Trunc(COST_BUMP) else if dy * dx < DIAG_EPS then Trunc(COST_MOVE) else Trunc(COST_MOVE_DIAG)
    }

    /**
     * rmb_forward against a wall: the bumper is set, tick(-1) records a
     * sample without advancing the timer, BUMP is counted, and the
     * truncated charge is nothing.
     */
    method Bump()
      requires Valid() && Live()
      modifies this, hist
      ensures Valid()
      ensures x == old(x) && y == old(y) && px == old(px) && py == old(py) && heading == old(heading)
      ensures bumper == 1 && infrared == old(infrared) && battery == old(battery)
      ensures hist[old(timer)] == Snapshot() && timer == old(timer)
      ensures forall k :: 0 <= k < hist.Length && k != old(timer) ==> hist[k] == old(hist[k])
      ensures exited <==> old(battery) < LOW_BATTERY
      ensures !exited ==> stats == old(stats).(moves := old(stats.moves)[BUMP := old(stats.moves[BUMP]) + 1])
      ensures exited ==> stats == old(stats)
      ensures !exited ==> timer < execTime
    {
      bumper := 1;
      var batt := ForwardCharge(true, 0.0, 0.0);
      Tick(BUMP_ACTION);
      if exited {
        return;
      }
      stats := stats.(moves := stats.moves[BUMP := stats.moves[BUMP] + 1]);
      battery := battery - batt as real;
      stats := stats.(batTotal := stats.batTotal + batt as real);
    }

    /** The infrared reading rmb_forward takes on arrival: 0 on EMPTY, patch - '0' elsewhere, unchanged on the base. */
    function Arrival(c: char, before: int): (r: int)
      ensures c == BASE ==> r == before
      ensures IsMapChar(c) && c != BASE && c != WALL ==> r == DirtOf(c)
    {
      if c == EMPTY then 0 else if c != BASE then CharValue(c) - '0' as int else before
    }

    /**
     * rmb_forward onto a free cell: the continuous position moves by the
     * step and the cell position to its truncation, the infrared reading
     * is taken, FWD and cell_visited are counted (a revisit counts again),
     * the tick records the reading, and then one unit of battery is
     * charged, straight or diagonal.
     */
    method Move(dx: real, dy: real, rx: int, ry: int)
      requires Valid() && Live() && InGrid(ry, rx) && rx == Trunc(px + dx) && ry == Trunc(py + dy)
      modifies this, hist
      ensures Valid()
      ensures x == rx && y == ry && px == old(px) + dx && py == old(py) + dy && heading == old(heading)
      ensures bumper == old(bumper) && infrared == Arrival(world.cells[ry, rx], old(infrared))
      ensures hist[old(timer)] == old(Snapshot()).(x := rx, y := ry, infrared := infrared)
      ensures forall k :: 0 <= k < hist.Length && k != old(timer) ==> hist[k] == old(hist[k])
      ensures timer == old(timer) + (if Advances(old(battery), infrared) then 1 else 0)
      ensures exited <==> old(battery) < LOW_BATTERY || (infrared != BUMP_ACTION && old(timer) + 1 >= execTime)
      ensures !exited ==> battery == old(battery) - 1.0
      ensures exited ==> battery == old(battery)
      ensures battery + stats.batTotal == old(battery + stats.batTotal)
      ensures stats == old(stats).(moves := old(stats.moves)[FWD := old(stats.moves[FWD]) + 1],
                                   cellVisited := old(stats.cellVisited) + 1, batTotal := stats.batTotal)
      ensures !exited ==> timer < execTime
    {
      var batt := ForwardCharge(false, dx, dy);
      Arrive(dx, dy, rx, ry);
      Tick(infrared);
      if exited {
        return;
      }
      battery := battery - batt as real;
      stats := stats.(batTotal := stats.batTotal + batt as real);
    }

    /** The first half of a move: the new position, the infrared reading, and FWD and cell_visited counted. */
    method Arrive(dx: real, dy: real, rx: int, ry: int)
      requires Valid() && InGrid(ry, rx) && rx == Trunc(px + dx) && ry == Trunc(py + dy)
      modifies this
      ensures Valid()
      ensures x == rx && y == ry && px == old(px) + dx && py == old(py) + dy && heading == old(heading)
      ensures bumper == old(bumper) && infrared == Arrival(world.cells[ry, rx], old(infrared)) && battery == old(battery)
      ensures stats == old(stats).(moves := old(stats.moves)[FWD := old(stats.moves[FWD]) + 1], cellVisited := old(stats.cellVisited) + 1)
      ensures timer == old(timer) && exited == old(exited) && execTime == old(execTime)
    {
      px, py := px + dx, py + dy;
      x, y := rx, ry;
      infrared := Arrival(world.cells[y, x], infrared);
      stats := stats.(moves := stats.moves[FWD := stats.moves[FWD] + 1], cellVisited := stats.cellVisited + 1);
    }

    /**
     * rmb_forward: a bump when the aimed-at cell is a wall, a move
     * otherwise. An aimed-at cell off the 50 x 50 array would be read out
     * of bounds in C; the model reports it as a fault and changes nothing.
     */
    method Forward() returns (fault: bool)
      requires Valid() && Live()
      modifies this, hist
      ensures Valid()
      ensures fault <==> !InGrid(old(Target()).1, old(Target()).0)
      ensures fault ==> unchanged(this) && unchanged(hist)
      ensures !fault && old(world.cells[Target().1, Target().0]) == WALL ==>
        x == old(x) && y == old(y) && px == old(px) && py == old(py) && heading == old(heading) &&
        bumper == 1 && infrared == old(infrared) && battery == old(battery) &&
        hist[old(timer)] == Snapshot() && timer == old(timer) &&
        (exited <==> old(battery) < LOW_BATTERY) &&
        stats == (if exited then old(stats) else old(stats).(moves := old(stats.moves)[BUMP := old(stats.moves[BUMP]) + 1]))
      ensures !fault && old(world.cells[Target().1, Target().0]) != WALL ==>
        (x, y) == old(Target()) && px == old(px + stepOf(heading).0) && py == old(py + stepOf(heading).1) &&
        heading == old(heading) && bumper == old(bumper) && infrared == Arrival(world.cells[y, x], old(infrared)) &&
        hist[old(timer)] == old(Snapshot()).(x := x, y := y, infrared := infrared) &&
        timer == old(timer) + (if Advances(old(battery), infrared) then 1 else 0) &&
        (exited <==> old(battery) < LOW_BATTERY || (infrared != BUMP_ACTION && old(timer) + 1 >= execTime)) &&
        battery == (if exited then old(battery) else old(battery) - 1.0) &&
        stats == old(stats).(moves := old(stats.moves)[FWD := old(stats.moves[FWD]) + 1],
                             cellVisited := old(stats.cellVisited) + 1, batTotal := stats.batTotal)
      ensures !fault ==> forall k :: 0 <= k < hist.Length && k != old(timer) ==> hist[k] == old(hist[k])
      ensures battery + stats.batTotal == old(battery + stats.batTotal)
      ensures battery <= old(battery) && timer <= old(timer) + 1
      ensures !exited ==> timer < execTime
    {
      var step := stepOf(heading);
      var rx, ry := Trunc(px + step.0), Trunc(py + step.1);
      if !InGrid(ry, rx) {
        return true;
      }
      fault := false;
      if world.cells[ry, rx] == WALL {
        Bump();
      } else {
        Move(step.0, step.1, rx, ry);
      }
    }

    /**
     * rmb_clean: a positive depth on the robot's cell is lowered by one,
     * written back as a digit ('0' when clean), costs 0.5 of battery,
     * becomes the infrared reading and counts a CLEAN, and dirt_cleaned
     * when it reaches 0; the tick always follows, with the depth.
     */
    method Clean()
      requires Valid() && Live()
      modifies this, world.cells, hist
      ensures Valid()
      ensures world.cells[y, x] == Cleaned(old(world.cells[y, x]))
      ensures forall i, j :: 0 <= i < WORLDSIZE && 0 <= j < WORLDSIZE && (i, j) != (y, x) ==> world.cells[i, j] == old(world.cells[i, j])
      ensures x == old(x) && y == old(y) && px == old(px) && py == old(py) && heading == old(heading) && bumper == old(bumper)
      ensures var d := old(DirtOf(world.cells[y, x]));
        (d > 0 ==>
          battery == old(battery) - COST_CLEAN && infrared == d - 1 &&
          stats == old(stats).(batTotal := old(stats.batTotal) + COST_CLEAN,
                               moves := old(stats.moves)[CLEAN := old(stats.moves[CLEAN]) + 1],
                               dirtCleaned := old(stats.dirtCleaned) + (if d == 1 then 1 else 0))) &&
        (d <= 0 ==> battery == old(battery) && infrared == old(infrared) && stats == old(stats)) &&
        timer == old(timer) + (if Advances(battery, if d > 0 then d - 1 else d) then 1 else 0) &&
        (exited <==> battery < LOW_BATTERY || ((if d > 0 then d - 1 else d) != BUMP_ACTION && old(timer) + 1 >= execTime))
      ensures !exited ==> timer < execTime
      ensures battery + stats.batTotal == old(battery + stats.batTotal)
      ensures hist[old(timer)] == Snapshot()
      ensures forall k :: 0 <= k < hist.Length && k != old(timer) ==> hist[k] == old(hist[k])
    {
      var dirt := DirtOf(world.cells[y, x]);
      if dirt > 0 {
        dirt := dirt - 1;
        world.cells[y, x] := ByteChar(dirt + '0' as int);
        battery := battery - COST_CLEAN;
        stats := stats.(batTotal := stats.batTotal + COST_CLEAN);
        infrared := dirt;
        stats := stats.(moves := stats.moves[CLEAN := stats.moves[CLEAN] + 1]);
        if dirt == 0 {
          stats := stats.(dirtCleaned := stats.dirtCleaned + 1);
        }
      }
      Tick(dirt);
    }

    /**
     * rmb_load: on the base, 10 units are added up to MAXBAT, a LOAD is
     * counted only when the cap is reached, one tick is recorded and 1 is
     * returned; elsewhere nothing happens and 0 is returned.
     */
    method Load() returns (r: int)
      requires Valid() && !exited && (AtBase() ==> timer < execTime)
      modifies this, hist
      ensures Valid()
      ensures r == 1 <==> old(AtBase())
      ensures r == 0 ==> unchanged(this) && unchanged(hist)
      ensures r == 1 ==>
        battery == (if old(battery) + LOAD_STEP >= MAXBAT then MAXBAT else old(battery) + LOAD_STEP) &&
        stats == old(stats).(moves := old(stats.moves)[LOAD := old(stats.moves[LOAD]) + (if old(battery) + LOAD_STEP >= MAXBAT then 1 else 0)]) &&
        hist[old(timer)] == Snapshot() && timer == old(timer) + (if Advances(battery, 0) then 1 else 0) &&
        (exited <==> battery < LOW_BATTERY || old(timer) + 1 >= execTime) && (!exited ==> timer < execTime) &&
        Snapshot() == old(Snapshot()).(battery := battery) && px == old(px) && py == old(py)
      ensures r == 1 ==> forall k :: 0 <= k < hist.Length && k != old(timer) ==> hist[k] == old(hist[k])
      ensures old(battery) <= battery <= MAXBAT
      ensures x == old(x) && y == old(y)
    {
      if world.cells[y, x] == BASE {
        battery := battery + LOAD_STEP;
        if battery >= MAXBAT {
          battery := MAXBAT;
          stats := stats.(moves := stats.moves[LOAD := stats.moves[LOAD] + 1]);
        }
        Tick(0);
        return 1;
      }
      return 0;
    }

    // -------------------------------------------------------------------------
    // generate_map
    // -------------------------------------------------------------------------

    /**
     * The wall loop of generate_map: k walls, each vertical when its first
     * draw is odd; each takes its length off cell_total.
     */
    method Walls(k: int, rnd: seq<nat>) returns (rest: seq<nat>, ok: bool)
      requires Valid() && SegmentsFit(world.nrow, world.ncol, rnd, k)
      modifies this, world.cells
      ensures Valid()
      ensures ok <==> 4 * Count(k) <= |rnd|
      ensures ok ==> rest == rnd[4 * Count(k)..]
      ensures ok ==> stats == old(stats).(cellTotal := old(stats.cellTotal) - WallLengths(world.nrow, world.ncol, rnd, Count(k)))
      ensures forall i, j :: 0 <= i < WORLDSIZE && 0 <= j < WORLDSIZE ==>
        world.cells[i, j] == old(world.cells[i, j]) || world.cells[i, j] == WALL
      ensures Snapshot() == old(Snapshot()) && px == old(px) && py == old(py)
      ensures timer == old(timer) && exited == old(exited) && execTime == old(execTime)
      ensures !ok ==> stats.dirtTotal == old(stats.dirtTotal) && |stats.moves| == NMOVES
    {
      var lens;
      rest, ok, lens := DrawWalls(world, k, rnd);
      stats := stats.(cellTotal := stats.cellTotal - lens);
    }

    /** The dirt_total bookkeeping of generate_map's dirt loop: the depths placed, summed. */
    method TotalDirt()
      requires Valid()
      modifies this
      ensures Valid()
      ensures stats == old(stats).(dirtTotal := SumDepths(world.dirt))
      ensures Snapshot() == old(Snapshot()) && px == old(px) && py == old(py)
      ensures timer == old(timer) && exited == old(exited) && execTime == old(execTime)
    {
      stats := stats.(dirtTotal := 0);
      for i := 0 to |world.dirt|
        invariant Valid()
        invariant stats == old(stats).(dirtTotal := SumDepths(world.dirt[..i]))
        invariant Snapshot() == old(Snapshot()) && px == old(px) && py == old(py)
        invariant timer == old(timer) && exited == old(exited) && execTime == old(execTime)
      {
        assert world.dirt[..i + 1][..i] == world.dirt[..i];
        stats := stats.(dirtTotal := stats.dirtTotal + world.dirt[i].depth);
      }
      assert world.dirt[..|world.dirt|] == world.dirt;
    }

    /**
     * generate_map: -1 and nothing changed when a size exceeds WORLDSIZE;
     * otherwise an empty map of that size with border walls, cell_total
     * set to ncol*nrow - (ncol+nrow-4), then (int)nobs walls, each taking
     * its length off cell_total, or random obstacles for 0 < nobs < 1, then
     * num_dirty dirt cells whose depths make up dirt_total.
     */
    method Generate(nr: int, nc: int, numDirty: int, nobs: real, rnd: seq<nat>) returns (r: int, ok: bool)
      requires Valid()
      requires nr <= WORLDSIZE && nc <= WORLDSIZE ==> GenerateFits(nr, nc, numDirty, nobs, rnd)
      modifies this, world, world.cells
      ensures Valid()
      ensures nr > WORLDSIZE || nc > WORLDSIZE ==>
        r == -1 && unchanged(this) && unchanged(world) && unchanged(world.cells)
      ensures nr <= WORLDSIZE && nc <= WORLDSIZE ==>
        r == 0 && world.nrow == nr && world.ncol == nc && world.Bordered()
      ensures r == 0 && nobs < 1.0 ==> stats.cellTotal == nc * nr - (nc + nr - 4)
      ensures r == 0 && nobs <= 0.0 && 2 <= nr && 2 <= nc ==>
        world.OnlyBorderWalls() && stats.cellTotal == CellTotal(world) + nr + nc
      ensures r == 0 && nobs >= 1.0 && ok ==>
        4 * Trunc(nobs) <= |rnd| &&
        stats.cellTotal == nc * nr - (nc + nr - 4) - WallLengths(nr, nc, rnd, Trunc(nobs))
      ensures r == 0 && ok ==>
        stats.dirtTotal == SumDepths(world.dirt) && world.ndirt == numDirty &&
        |world.dirt| == Count(numDirty) && world.DirtPlaced()
      ensures r == 0 ==> forall i, j :: 0 <= i < WORLDSIZE && 0 <= j < WORLDSIZE ==>
        world.cells[i, j] == EMPTY || world.cells[i, j] == WALL || '1' <= world.cells[i, j] <= '5'
      ensures Snapshot() == old(Snapshot()) && px == old(px) && py == old(py)
      ensures timer == old(timer) && exited == old(exited) && execTime == old(execTime)
    {
      if nr > WORLDSIZE || nc > WORLDSIZE {
        return -1, true;
      }
      r := 0;
      world.InitEmptyWorld(nr, nc);
      world.AddBorderWalls();
      stats := stats.(cellTotal := nc * nr - (nc + nr - 4));
      var rest;
      if nobs >= 1.0 {
        rest, ok := Walls(Trunc(nobs), rnd);
      } else if nobs > 0.0 {
        rest, ok := world.CreateRandomObstacles(nobs, rnd);
      } else {
        rest, ok := rnd, true;
      }
      assert world.Bordered();
      if !ok {
        return;
      }
      rest, ok := world.PlaceDirt(numDirty, rest);
      TotalDirt();
      if nobs <= 0.0 && 2 <= nr && 2 <= nc {
        CellTotalGenerated(world);
      }
    }
  }
}
