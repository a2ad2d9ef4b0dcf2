/**
 * The action kernel of sim_robot.c: the five primitive actions (awake,
 * turn, forward, clean, load) over the shared map, robot and statistics,
 * each with its battery cost, its counters and its history tick, and the
 * sensor queries.
 *
 * Every action takes the simulation state explicitly where the C code
 * reaches the globals.
 */
module SimRobot {
  import opened Types
  import opened SimWorld
  import opened SimStats
  import opened SimContext

  // ---------------------------------------------------------------------------
  // Headings and steps
  // ---------------------------------------------------------------------------

  /**
   * The heading rmb_turn leaves: the sum, lifted by 2*PI when negative,
   * then reduced with fmod. It stays strictly within one turn of zero, and
   * is non-negative unless the sum is below -2*PI.
   */
  function TurnHeading(h: real, alpha: real): (r: real)
    ensures -TWO_PI < r < TWO_PI
    ensures -TWO_PI <= h + alpha ==> 0.0 <= r
  {
    var t := h + alpha;
    FModTwoPi(if t < 0.0 then t + TWO_PI else t)
  }

  /** fmod by 2*PI on [0, 4*PI) subtracts one turn exactly when the value reaches it. */
  lemma FModTwoPiSmall(v: real)
    requires 0.0 <= v < 2.0 * TWO_PI
    ensures FModTwoPi(v) == if v < TWO_PI then v else v - TWO_PI
  {
    var k := Trunc(v / TWO_PI);
    assert k as real <= v / TWO_PI < k as real + 1.0;
    assert v / TWO_PI < 2.0;
    if v < TWO_PI {
      assert v / TWO_PI < 1.0;
      assert k == 0;
    } else {
      assert 1.0 <= v / TWO_PI;
      assert k == 1;
    }
  }

  /** A heading in [0, 2*PI) turned by alpha in [-2*PI, 2*PI) stays in [0, 2*PI). */
  lemma TurnHeadingRange(h: real, alpha: real)
    requires 0.0 <= h < TWO_PI && -TWO_PI <= alpha < TWO_PI
    ensures 0.0 <= TurnHeading(h, alpha) < TWO_PI
  {
    var t := h + alpha;
    if t < 0.0 {
      FModTwoPiSmall(t + TWO_PI);
    } else {
      FModTwoPiSmall(t);
    }
  }

  /** Turning by alpha and then by -alpha restores a heading of [0, 2*PI). */
  lemma TurnBack(h: real, alpha: real)
    requires 0.0 <= h < TWO_PI && -TWO_PI < alpha < TWO_PI
    ensures TurnHeading(TurnHeading(h, alpha), -alpha) == h
  {
    TurnHeadingRange(h, alpha);
    var t := h + alpha;
    var h1 := TurnHeading(h, alpha);
    if t < 0.0 {
      FModTwoPiSmall(t + TWO_PI);
    } else {
      FModTwoPiSmall(t);
    }
    var t2 := h1 - alpha;
    if t2 < 0.0 {
      FModTwoPiSmall(t2 + TWO_PI);
    } else {
      FModTwoPiSmall(t2);
    }
  }

  /** (dx, dy) for the robot's current heading. */
  function Step(s: Sim): (d: (real, real))
    reads s, s.robot
    ensures UnitStep(s.stepOf) ==> -1.0 <= d.0 <= 1.0 && -1.0 <= d.1 <= 1.0
  {
    UnitStepAt(s.stepOf, s.robot.heading);
    s.stepOf(s.robot.heading)
  }

  /**
   * The cell (rx, ry) rmb_forward aims at: the continuous position plus the
   * step, truncated. For a robot at least one cell from the array's low
   * edges it is one of its eight neighbours or its own cell, whatever the
   * heading.
   */
  function Target(s: Sim): (t: (int, int))
    reads s, s.robot
    ensures UnitStep(s.stepOf) && s.robot.Tracked() && 1 <= s.robot.x && 1 <= s.robot.y ==>
      s.robot.x - 1 <= t.0 <= s.robot.x + 1 && s.robot.y - 1 <= t.1 <= s.robot.y + 1
  {
    (Trunc(s.robot.px + Step(s).0), Trunc(s.robot.py + Step(s).1))
  }

  /** Whether the aimed-at cell is inside the array (sim_world_is_wall does not check). */
  predicate TargetInGrid(s: Sim)
    reads s, s.robot
  {
    InGrid(Target(s).1, Target(s).0)
  }

  /** The battery a successful step costs: straight unless |dx * dy| reaches 1e-4. */
  function MoveCost(dx: real, dy: real): (c: real)
    ensures c == COST_MOVE || c == COST_MOVE_DIAG
    ensures dx == 0.0 || dy == 0.0 ==> c == COST_MOVE
    ensures dx == dy && 0.01 <= dx ==> c == COST_MOVE_DIAG
  {
    var p := dy * dx;
    if (if p < 0.0 then -p else p) < DIAG_EPS then COST_MOVE else COST_MOVE_DIAG
  }

  /** A robot one cell or more inside the array aims at a cell of the array. */
  lemma TargetStaysInGrid(s: Sim)
    requires s.Valid()
    requires 1 <= s.robot.x < WORLDSIZE - 1 && 1 <= s.robot.y < WORLDSIZE - 1
    ensures TargetInGrid(s)
  {
  }

  // ---------------------------------------------------------------------------
  // The robot stays inside a walled map
  // ---------------------------------------------------------------------------

  /** Strictly inside the nrow x ncol map: off its border. */
  predicate InsideMap(nrow: int, ncol: int, y: int, x: int) {
    1 <= y < nrow - 1 && 1 <= x < ncol - 1
  }

  /** The base rmb_awake would use lies inside the map. */
  predicate BaseInside(m: Map)
    reads m
  {
    InsideMap(m.nrow, m.ncol, 1, 1) &&
    (m.baseX > 0 && m.baseY > 0 ==> InsideMap(m.nrow, m.ncol, m.baseY, m.baseX))
  }

  /** The map's border is walls, the base is inside it and so is the robot. */
  ghost predicate Enclosed(s: Sim)
    reads s, s.world, s.world.cells, s.robot, s.stats, s.stats.visited, s.config
  {
    s.Valid() && s.world.Bordered() && BaseInside(s.world) &&
    InsideMap(s.world.nrow, s.world.ncol, s.robot.y, s.robot.x)
  }

  /** Inside a walled map the aimed-at cell is on the grid, and it is a wall or inside the map. */
  lemma EnclosedTarget(s: Sim)
    requires Enclosed(s)
    ensures TargetInGrid(s)
    ensures InsideMap(s.world.nrow, s.world.ncol, Target(s).1, Target(s).0) || s.world.IsWall(Target(s).1, Target(s).0)
  {
    TargetStaysInGrid(s);
    var (rx, ry) := Target(s);
    if !InsideMap(s.world.nrow, s.world.ncol, ry, rx) {
      assert OnBorder(s.world.nrow, s.world.ncol, ry, rx);
    }
  }

  // ---------------------------------------------------------------------------
  // Actions
  // ---------------------------------------------------------------------------

  /** apply_battery: the amount leaves the battery and joins bat_total. */
  method ApplyBattery(s: Sim, amount: real)
    requires s.Valid() && 0.0 <= amount
    modifies s.robot, s.stats
    ensures s.Valid()
    ensures s.robot.battery == old(s.robot.battery) - amount
    ensures s.robot.battery + s.stats.batTotal == old(s.robot.battery + s.stats.batTotal)
    ensures s.robot.State() == old(s.robot.State()).(battery := s.robot.battery)
    ensures s.robot.px == old(s.robot.px) && s.robot.py == old(s.robot.py)
    ensures s.stats.Get() == old(s.stats.Get()).(batTotal := old(s.stats.batTotal) + amount)
  {
    s.robot.battery := s.robot.battery - amount;
    s.stats.BatteryConsume(amount);
  }

  /**
   * rmb_awake: the robot wakes on the recorded base (re-marked, with the
   * heading base_heading gives) or, with none recorded, on a new base at
   * (1, 1) facing east; the battery is full, the continuous position is the
   * cell, one tick is recorded, no battery is charged and 1 is returned.
   */
  method DoAwake(s: Sim) returns (x: int, y: int, r: int)
    requires s.Valid() && s.Live()
    modifies s, s.world, s.world.cells, s.robot, s.hist
    ensures s.Valid()
    ensures r == 1
    ensures old(s.world.baseX > 0 && s.world.baseY > 0) ==>
      x == old(s.world.baseX) && y == old(s.world.baseY) && s.robot.heading == BaseHeading(s.world.ncol, x, y)
    ensures !old(s.world.baseX > 0 && s.world.baseY > 0) ==> x == 1 && y == 1 && s.robot.heading == 0.0
    ensures s.world.cells[y, x] == BASE
    ensures forall i, j :: 0 <= i < WORLDSIZE && 0 <= j < WORLDSIZE && (i, j) != (y, x) ==> s.world.cells[i, j] == old(s.world.cells[i, j])
    ensures s.world.nrow == old(s.world.nrow) && s.world.ncol == old(s.world.ncol) && s.world.name == old(s.world.name)
    ensures s.robot.x == x && s.robot.y == y && s.robot.px == x as real && s.robot.py == y as real
    ensures s.robot.battery == MAXBAT
    ensures s.robot.bumper == old(s.robot.bumper) && s.robot.infrared == old(s.robot.infrared)
    ensures s.hist[old(s.timer)] == s.robot.State()
    ensures forall k :: 0 <= k < s.hist.Length && k != old(s.timer) ==> s.hist[k] == old(s.hist[k])
    ensures s.timer == old(s.timer) + 1 && (s.stopped <==> s.timer >= s.config.execTime)
    ensures s.stats.Get() == old(s.stats.Get())
    ensures old(BaseInside(s.world)) ==> InsideMap(s.world.nrow, s.world.ncol, y, x)
    ensures old(Enclosed(s)) ==> Enclosed(s)
  {
    ghost var enclosed := Enclosed(s);
    var h;
    x, y, h := WakeBase(s);
    if enclosed {
      assert forall i, j :: 0 <= i < WORLDSIZE && 0 <= j < WORLDSIZE && OnBorder(s.world.nrow, s.world.ncol, i, j) ==> (i, j) != (y, x);
    }
    WakeAt(s, x, y, h);
    s.Tick(0);
    r := 1;
  }

  /** The base part of rmb_awake: the recorded base re-marked, or a new one at (1, 1). */
  method WakeBase(s: Sim) returns (x: int, y: int, h: real)
    requires s.Valid()
    modifies s.world, s.world.cells
    ensures s.Valid() && InGrid(y, x)
    ensures old(s.world.baseX > 0 && s.world.baseY > 0) ==>
      x == old(s.world.baseX) && y == old(s.world.baseY) && h == BaseHeading(s.world.ncol, x, y)
    ensures !old(s.world.baseX > 0 && s.world.baseY > 0) ==> x == 1 && y == 1 && h == 0.0
    ensures s.world.cells[y, x] == BASE
    ensures forall i, j :: 0 <= i < WORLDSIZE && 0 <= j < WORLDSIZE && (i, j) != (y, x) ==> s.world.cells[i, j] == old(s.world.cells[i, j])
    ensures s.world.nrow == old(s.world.nrow) && s.world.ncol == old(s.world.ncol) && s.world.name == old(s.world.name)
    ensures old(BaseInside(s.world)) ==> InsideMap(s.world.nrow, s.world.ncol, y, x) && BaseInside(s.world)
  {
    if s.world.baseX > 0 && s.world.baseY > 0 {
      x, y := s.world.baseX, s.world.baseY;
      h := s.world.PutBase(x, y);
    } else {
      x, y, h := s.world.SetBaseOrigin();
    }
  }

  /** The robot part of rmb_awake: on cell (x, y) with heading h, a full battery and no fraction. */
  method WakeAt(s: Sim, x: int, y: int, h: real)
    requires s.Valid() && InGrid(y, x)
    modifies s.robot
    ensures s.Valid()
    ensures s.robot.State() == old(s.robot.State()).(x := x, y := y, heading := h, battery := MAXBAT)
    ensures s.robot.px == x as real && s.robot.py == y as real
  {
    s.robot.heading, s.robot.x, s.robot.y, s.robot.battery, s.robot.px, s.robot.py := h, x, y, MAXBAT, x as real, y as real;
  }

  /**
   * rmb_turn: the heading turned by alpha, the bumper released, COST_TURN
   * charged and one more TURN; position, map and history stay.
   */
  method DoTurn(s: Sim, alpha: real)
    requires s.Valid()
    modifies s.robot, s.stats, s.stats.moves
    ensures s.Valid()
    ensures s.robot.heading == TurnHeading(old(s.robot.heading), alpha)
    ensures s.robot.bumper == 0 && s.robot.infrared == old(s.robot.infrared)
    ensures s.robot.battery == old(s.robot.battery) - COST_TURN
    ensures s.robot.battery + s.stats.batTotal == old(s.robot.battery + s.stats.batTotal)
    ensures s.robot.x == old(s.robot.x) && s.robot.y == old(s.robot.y)
    ensures s.robot.px == old(s.robot.px) && s.robot.py == old(s.robot.py)
    ensures s.stats.Get() == old(s.stats.Get()).(batTotal := s.stats.batTotal, moves := old(s.stats.moves[..])[TURN := old(s.stats.moves[TURN]) + 1])
  {
    var t := s.robot.heading + alpha;
    if t < 0.0 {
      t := t + TWO_PI;
    }
    s.robot.heading := FModTwoPi(t);
    s.robot.bumper := 0;
    ApplyBattery(s, COST_TURN);
    s.stats.Move(TURN);
  }

  /**
   * rmb_forward into a wall: the bumper pressed, one more BUMP and a tick
   * with the bump sentinel (so the timer stays), then COST_BUMP charged
   * unless that tick ended the run; the positions stay.
   */
  method Bumped(s: Sim)
    requires s.Valid() && s.Live()
    modifies s, s.robot, s.stats, s.stats.moves, s.hist
    ensures s.Valid()
    ensures s.robot.bumper == 1
    ensures s.robot.x == old(s.robot.x) && s.robot.y == old(s.robot.y) && s.robot.heading == old(s.robot.heading)
    ensures s.robot.px == old(s.robot.px) && s.robot.py == old(s.robot.py) && s.robot.infrared == old(s.robot.infrared)
    ensures s.hist[old(s.timer)] == old(s.robot.State()).(bumper := 1)
    ensures forall k :: 0 <= k < s.hist.Length && k != old(s.timer) ==> s.hist[k] == old(s.hist[k])
    ensures s.timer == old(s.timer)
    ensures s.stopped <==> old(s.robot.battery) < LOW_BATTERY
    ensures s.robot.battery == if s.stopped then old(s.robot.battery) else old(s.robot.battery) - COST_BUMP
    ensures s.robot.battery + s.stats.batTotal == old(s.robot.battery + s.stats.batTotal)
    ensures !s.stopped ==> s.timer < s.config.execTime
    ensures s.stats.Get() == old(s.stats.Get()).(batTotal := s.stats.batTotal, moves := old(s.stats.moves[..])[BUMP := old(s.stats.moves[BUMP]) + 1])
  {
    s.robot.bumper := 1;
    s.stats.Bump();
    TickThenCharge(s, BUMP_ACTION, COST_BUMP);
  }

  /**
   * A tick followed by apply_battery, as rmb_forward ends: the sample keeps
   * the battery before the charge, and a tick that ends the run leaves the
   * charge undone.
   */
  method TickThenCharge(s: Sim, action: int, cost: real)
    requires s.Valid() && s.Live() && 0.0 <= cost
    modifies s, s.robot, s.stats, s.hist
    ensures s.Valid()
    ensures s.hist[old(s.timer)] == old(s.robot.State())
    ensures forall k :: 0 <= k < s.hist.Length && k != old(s.timer) ==> s.hist[k] == old(s.hist[k])
    ensures s.timer == old(s.timer) + (if Advances(old(s.robot.battery), action) then 1 else 0)
    ensures s.stopped <==> old(s.robot.battery) < LOW_BATTERY || (action != BUMP_ACTION && old(s.timer) + 1 >= s.config.execTime)
    ensures s.robot.battery == if s.stopped then old(s.robot.battery) else old(s.robot.battery) - cost
    ensures s.robot.State() == old(s.robot.State()).(battery := s.robot.battery)
    ensures s.robot.px == old(s.robot.px) && s.robot.py == old(s.robot.py)
    ensures s.robot.battery + s.stats.batTotal == old(s.robot.battery + s.stats.batTotal)
    ensures s.stats.Get() == old(s.stats.Get()).(batTotal := s.stats.batTotal)
    ensures !s.stopped ==> s.timer < s.config.execTime
  {
    s.Tick(action);
    if !s.stopped {
      ApplyBattery(s, cost);
    }
  }

  /**
   * rmb_forward onto a free cell: the continuous position moves by the step
   * and the cell becomes its truncation, the infrared reads the new cell's
   * dirt, one more FWD, the cell is visited, the tick records the pre-cost
   * battery, then the step's cost is charged unless that tick ended the run.
   */
  method Moved(s: Sim, dx: real, dy: real, rx: int, ry: int)
    requires s.Valid() && s.Live()
    requires (dx, dy) == Step(s) && (rx, ry) == Target(s) && InGrid(ry, rx)
    modifies s, s.robot, s.stats, s.stats.moves, s.stats.visited, s.hist
    ensures s.Valid()
    ensures s.robot.px == old(s.robot.px) + dx && s.robot.py == old(s.robot.py) + dy
    ensures s.robot.x == rx && s.robot.y == ry
    ensures s.robot.heading == old(s.robot.heading) && s.robot.bumper == old(s.robot.bumper)
    ensures s.robot.infrared == s.world.CellDirt(ry, rx)
    ensures s.hist[old(s.timer)] == old(s.robot.State()).(x := rx, y := ry, infrared := s.robot.infrared)
    ensures forall k :: 0 <= k < s.hist.Length && k != old(s.timer) ==> s.hist[k] == old(s.hist[k])
    ensures s.timer == old(s.timer) + (if Advances(old(s.robot.battery), s.robot.infrared) then 1 else 0)
    ensures s.stopped <==> old(s.robot.battery) < LOW_BATTERY || (s.robot.infrared != BUMP_ACTION && old(s.timer) + 1 >= s.config.execTime)
    ensures s.robot.battery == if s.stopped then old(s.robot.battery) else old(s.robot.battery) - MoveCost(dx, dy)
    ensures s.robot.battery + s.stats.batTotal == old(s.robot.battery + s.stats.batTotal)
    ensures !s.stopped ==> s.timer < s.config.execTime
    ensures s.stats.visited[ry, rx]
    ensures s.stats.Visited() == old(s.stats.Visited()) + {(ry, rx)}
    ensures s.stats.cellVisited == old(s.stats.cellVisited) + (if old(s.stats.visited[ry, rx]) then 0 else 1)
    ensures s.stats.Get() == old(s.stats.Get()).(cellVisited := s.stats.cellVisited, batTotal := s.stats.batTotal,
                                                 moves := old(s.stats.moves[..])[FWD := old(s.stats.moves[FWD]) + 1])
  {
    Relocate(s, dx, dy, rx, ry);
    CountStep(s, rx, ry);
    TickThenCharge(s, s.robot.infrared, MoveCost(dx, dy));
  }

  /** The position part of a successful step: both positions move and the infrared reads the new cell. */
  method Relocate(s: Sim, dx: real, dy: real, rx: int, ry: int)
    requires s.Valid()
    requires (dx, dy) == Step(s) && (rx, ry) == Target(s) && InGrid(ry, rx)
    modifies s.robot
    ensures s.Valid()
    ensures s.robot.px == old(s.robot.px) + dx && s.robot.py == old(s.robot.py) + dy
    ensures s.robot.State() == old(s.robot.State()).(x := rx, y := ry, infrared := s.world.CellDirt(ry, rx))
  {
    s.robot.px, s.robot.py := s.robot.px + dx, s.robot.py + dy;
    s.robot.x, s.robot.y := rx, ry;
    s.robot.infrared := s.world.CellDirt(ry, rx);
  }

  /** The statistics of a successful step: one more FWD and the visit of cell (rx, ry). */
  method CountStep(s: Sim, rx: int, ry: int)
    requires s.Valid() && InGrid(ry, rx)
    modifies s.stats, s.stats.moves, s.stats.visited
    ensures s.Valid()
    ensures s.stats.visited[ry, rx]
    ensures s.stats.Visited() == old(s.stats.Visited()) + {(ry, rx)}
    ensures s.stats.cellVisited == old(s.stats.cellVisited) + (if old(s.stats.visited[ry, rx]) then 0 else 1)
    ensures s.stats.Get() == old(s.stats.Get()).(cellVisited := s.stats.cellVisited,
                                                 moves := old(s.stats.moves[..])[FWD := old(s.stats.moves[FWD]) + 1])
  {
    s.stats.Move(FWD);
    s.stats.VisitCell(rx, ry);
  }

  /**
   * rmb_forward: one step along the heading, or a bump when the aimed-at
   * cell is a wall. That cell must lie on the grid.
   */
  method DoForward(s: Sim)
    requires s.Valid() && s.Live() && TargetInGrid(s)
    modifies s, s.robot, s.stats, s.stats.moves, s.stats.visited, s.hist
    ensures s.Valid()
    ensures old(s.world.IsWall(Target(s).1, Target(s).0)) ==>
      s.robot.State() == old(s.robot.State()).(bumper := 1, battery := s.robot.battery) &&
      s.robot.px == old(s.robot.px) && s.robot.py == old(s.robot.py) && s.timer == old(s.timer) &&
      s.hist[old(s.timer)] == old(s.robot.State()).(bumper := 1) &&
      (s.stopped <==> old(s.robot.battery) < LOW_BATTERY) &&
      s.robot.battery == (if s.stopped then old(s.robot.battery) else old(s.robot.battery) - COST_BUMP) &&
      s.stats.Get() == old(s.stats.Get()).(batTotal := s.stats.batTotal,
                                           moves := old(s.stats.moves[..])[BUMP := old(s.stats.moves[BUMP]) + 1]) &&
      s.stats.Visited() == old(s.stats.Visited())
    ensures !old(s.world.IsWall(Target(s).1, Target(s).0)) ==>
      s.robot.State() == old(s.robot.State()).(x := old(Target(s).0), y := old(Target(s).1),
                                               infrared := s.robot.infrared, battery := s.robot.battery) &&
      s.robot.px == old(s.robot.px + Step(s).0) && s.robot.py == old(s.robot.py + Step(s).1) &&
      !s.world.IsWall(s.robot.y, s.robot.x) && s.robot.infrared == s.world.CellDirt(s.robot.y, s.robot.x) &&
      s.hist[old(s.timer)] == old(s.robot.State()).(x := s.robot.x, y := s.robot.y, infrared := s.robot.infrared) &&
      s.timer == old(s.timer) + (if Advances(old(s.robot.battery), s.robot.infrared) then 1 else 0) &&
      (s.stopped <==> old(s.robot.battery) < LOW_BATTERY || (s.robot.infrared != BUMP_ACTION && old(s.timer) + 1 >= s.config.execTime)) &&
      s.robot.battery == (if s.stopped then old(s.robot.battery) else old(s.robot.battery) - old(MoveCost(Step(s).0, Step(s).1))) &&
      s.stats.visited[s.robot.y, s.robot.x] &&
      s.stats.Visited() == old(s.stats.Visited()) + {(s.robot.y, s.robot.x)} &&
      s.stats.cellVisited == old(s.stats.cellVisited) + (if old(s.stats.visited[Target(s).1, Target(s).0]) then 0 else 1) &&
      s.stats.Get() == old(s.stats.Get()).(cellVisited := s.stats.cellVisited, batTotal := s.stats.batTotal,
                                           moves := old(s.stats.moves[..])[FWD := old(s.stats.moves[FWD]) + 1])
    ensures s.robot.x == Trunc(s.robot.px) && s.robot.y == Trunc(s.robot.py)
    ensures s.hist[old(s.timer)].battery == old(s.robot.battery)
    ensures forall k :: 0 <= k < s.hist.Length && k != old(s.timer) ==> s.hist[k] == old(s.hist[k])
    ensures s.robot.battery + s.stats.batTotal == old(s.robot.battery + s.stats.batTotal)
    ensures s.robot.battery <= old(s.robot.battery)
    ensures old(s.timer) <= s.timer <= old(s.timer) + 1
    ensures !s.stopped ==> s.timer < s.config.execTime
    ensures old(Enclosed(s)) ==> Enclosed(s)
  {
    ghost var enclosed := Enclosed(s);
    if enclosed {
      EnclosedTarget(s);
    }
    var (dx, dy) := s.stepOf(s.robot.heading);
    var rx, ry := Trunc(s.robot.px + dx), Trunc(s.robot.py + dy);
    if s.world.IsWall(ry, rx) {
      Bumped(s);
      return;
    }
    Moved(s, dx, dy, rx, ry);
  }

  /**
   * rmb_clean: on a cell with dirt d > 0 one level is removed, COST_CLEAN is
   * charged, the infrared reads d - 1 and stats_clean_action(d, d - 1) is
   * credited; a cell without dirt only gets the tick. The tick reports the
   * remaining dirt.
   */
  method DoClean(s: Sim)
    requires s.Valid() && s.Live()
    modifies s, s.world.cells, s.robot, s.stats, s.stats.moves, s.hist
    ensures s.Valid()
    ensures var d := old(s.world.CellDirt(s.robot.y, s.robot.x));
      && (d > 0 ==>
            s.world.cells[s.robot.y, s.robot.x] == CleanChar(old(s.world.cells[s.robot.y, s.robot.x])) &&
            s.robot.State() == old(s.robot.State()).(infrared := d - 1, battery := old(s.robot.battery) - COST_CLEAN) &&
            s.stats.dirtCleaned == old(s.stats.dirtCleaned) + (if d == 1 then 1 else 0) &&
            s.stats.Get() == old(s.stats.Get()).(dirtCleaned := s.stats.dirtCleaned, batTotal := s.stats.batTotal,
                                                 moves := old(s.stats.moves[..])[CLEAN := old(s.stats.moves[CLEAN]) + 1]))
      && (d <= 0 ==>
            s.world.cells[s.robot.y, s.robot.x] == old(s.world.cells[s.robot.y, s.robot.x]) &&
            s.robot.State() == old(s.robot.State()) && s.stats.Get() == old(s.stats.Get()))
      && s.timer == old(s.timer) + (if Advances(s.robot.battery, if d > 0 then d - 1 else d) then 1 else 0)
      && (s.stopped <==> s.robot.battery < LOW_BATTERY || ((if d > 0 then d - 1 else d) != BUMP_ACTION && old(s.timer) + 1 >= s.config.execTime))
    ensures forall i, j :: 0 <= i < WORLDSIZE && 0 <= j < WORLDSIZE && (i, j) != (s.robot.y, s.robot.x) ==> s.world.cells[i, j] == old(s.world.cells[i, j])
    ensures s.robot.x == old(s.robot.x) && s.robot.y == old(s.robot.y) && s.robot.px == old(s.robot.px) && s.robot.py == old(s.robot.py)
    ensures s.hist[old(s.timer)] == s.robot.State()
    ensures forall k :: 0 <= k < s.hist.Length && k != old(s.timer) ==> s.hist[k] == old(s.hist[k])
    ensures s.robot.battery + s.stats.batTotal == old(s.robot.battery + s.stats.batTotal)
    ensures !s.stopped ==> s.timer < s.config.execTime
    ensures old(Enclosed(s)) ==> Enclosed(s)
  {
    ghost var enclosed := Enclosed(s);
    var dirt := s.world.CellDirt(s.robot.y, s.robot.x);
    if dirt > 0 {
      dirt := CleanOnce(s, dirt);
    }
    s.Tick(dirt);
    if enclosed {
      assert forall i, j :: 0 <= i < WORLDSIZE && 0 <= j < WORLDSIZE && OnBorder(s.world.nrow, s.world.ncol, i, j) ==> (i, j) != (s.robot.y, s.robot.x);
    }
  }

  /** The dirty-cell branch of rmb_clean: one level less, COST_CLEAN, the infrared and the credit. */
  method CleanOnce(s: Sim, before: int) returns (dirt: int)
    requires s.Valid() && before == s.world.CellDirt(s.robot.y, s.robot.x) && 0 < before
    modifies s.world.cells, s.robot, s.stats, s.stats.moves
    ensures s.Valid() && dirt == before - 1
    ensures s.world.cells[s.robot.y, s.robot.x] == CleanChar(old(s.world.cells[s.robot.y, s.robot.x]))
    ensures forall i, j :: 0 <= i < WORLDSIZE && 0 <= j < WORLDSIZE && (i, j) != (s.robot.y, s.robot.x) ==> s.world.cells[i, j] == old(s.world.cells[i, j])
    ensures s.robot.State() == old(s.robot.State()).(infrared := dirt, battery := old(s.robot.battery) - COST_CLEAN)
    ensures s.robot.px == old(s.robot.px) && s.robot.py == old(s.robot.py)
    ensures s.robot.battery + s.stats.batTotal == old(s.robot.battery + s.stats.batTotal)
    ensures s.stats.dirtCleaned == old(s.stats.dirtCleaned) + (if before == 1 then 1 else 0)
    ensures s.stats.Get() == old(s.stats.Get()).(dirtCleaned := s.stats.dirtCleaned, batTotal := s.stats.batTotal,
                                                 moves := old(s.stats.moves[..])[CLEAN := old(s.stats.moves[CLEAN]) + 1])
  {
    dirt := s.world.CleanCell(s.robot.y, s.robot.x);
    ApplyBattery(s, COST_CLEAN);
    s.robot.infrared := dirt;
    s.stats.CleanAction(before, dirt);
  }

  /**
   * rmb_load: on the base one charge cycle (LOAD_STEP, capped at MAXBAT),
   * a tick and 1; elsewhere only one more LOAD, no tick, and 0.
   */
  method DoLoad(s: Sim) returns (r: int)
    requires s.Valid() && !s.stopped
    requires s.world.IsBase(s.robot.y, s.robot.x) ==> s.Live()
    modifies s, s.robot, s.stats.moves, s.hist
    ensures s.Valid()
    ensures r == 1 <==> old(s.world.IsBase(s.robot.y, s.robot.x))
    ensures r == 0 || r == 1
    ensures r == 1 ==>
      s.robot.battery == (if old(s.robot.battery) + LOAD_STEP > MAXBAT then MAXBAT else old(s.robot.battery) + LOAD_STEP) &&
      s.robot.State() == old(s.robot.State()).(battery := s.robot.battery) &&
      s.hist[old(s.timer)] == s.robot.State() &&
      s.timer == old(s.timer) + (if Advances(s.robot.battery, 0) then 1 else 0) &&
      (s.stopped <==> s.robot.battery < LOW_BATTERY || old(s.timer) + 1 >= s.config.execTime) &&
      s.stats.Get() == old(s.stats.Get())
    ensures r == 0 ==>
      s.robot.State() == old(s.robot.State()) && s.timer == old(s.timer) && s.stopped == old(s.stopped) &&
      s.stats.Get() == old(s.stats.Get()).(moves := old(s.stats.moves[..])[LOAD := old(s.stats.moves[LOAD]) + 1]) &&
      s.robot.battery + s.stats.batTotal == old(s.robot.battery + s.stats.batTotal)
    ensures old(s.robot.battery) <= s.robot.battery <= MAXBAT
    ensures s.robot.x == old(s.robot.x) && s.robot.y == old(s.robot.y) && s.robot.px == old(s.robot.px) && s.robot.py == old(s.robot.py)
    ensures forall k :: 0 <= k < s.hist.Length && k != old(s.timer) ==> s.hist[k] == old(s.hist[k])
    ensures old(s.timer) <= s.timer <= old(s.timer) + 1
    ensures old(s.Live()) && !s.stopped ==> s.timer < s.config.execTime
  {
    if s.world.IsBase(s.robot.y, s.robot.x) {
      s.robot.battery := s.robot.battery + LOAD_STEP;
      if s.robot.battery > MAXBAT {
        s.robot.battery := MAXBAT;
      }
      s.Tick(0);
      return 1;
    }
    s.stats.Move(LOAD);
    return 0;
  }

  // ---------------------------------------------------------------------------
  // Queries
  // ---------------------------------------------------------------------------

  /** rmb_bumper. */
  function Bumper(s: Sim): int
    reads s, s.robot
  {
    s.robot.bumper
  }

  /** rmb_ifr. */
  function Ifr(s: Sim): int
    reads s, s.robot
  {
    s.robot.infrared
  }

  /** rmb_battery. */
  function Battery(s: Sim): real
    reads s, s.robot
  {
    s.robot.battery
  }

  /** rmb_at_base: whether the robot's cell is a base. */
  function AtBase(s: Sim): (b: bool)
    reads s, s.world, s.world.cells, s.robot, s.stats, s.stats.visited, s.config
    requires s.Valid()
    ensures b <==> s.world.CellAt(s.robot.y, s.robot.x) == Base
  {
    s.world.IsBase(s.robot.y, s.robot.x)
  }
}
