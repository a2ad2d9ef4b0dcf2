/**
 * The driver of simula.c: configure stores the callbacks, clamps the
 * execution budget, registers the exit handlers and generates a default map
 * when none was loaded; run resets the timer, calls on_start once and then
 * the behaviour until the kernel ends the run; load_map delegates to the
 * world loader.
 *
 * The callbacks are user code. Each call is modelled as the one primitive
 * action it performs (SimContext.Action), the endless `for(;;)` of run as
 * a finite sequence of behaviour calls, and exit(0) inside tick as the
 * `stopped` flag, after which nothing more runs.
 */
module Simula {
  import opened Types
  import opened Pgm
  import opened SimWorld
  import opened SimStats
  import opened SimContext
  import opened SimRobot

  // ---------------------------------------------------------------------------
  // configure
  // ---------------------------------------------------------------------------

  /** The budget configure stores: the request when it is positive and below the grid area, the grid area otherwise. */
  function ClampExecTime(e: int): (r: int)
    ensures 1 <= r <= WORLDAREA
    ensures r == e || r == WORLDAREA
    ensures 1 <= e <= WORLDAREA ==> r == e
  {
    if e > 0 && e < WORLDAREA then e else WORLDAREA
  }

  /** A stored budget is kept as it is when configure runs again. */
  lemma ClampIdempotent(e: int)
    ensures ClampExecTime(ClampExecTime(e)) == ClampExecTime(e)
  {
  }

  /**
   * The atexit registrations of configure, in order: on_stop when there is
   * one and the build is not the competition build, then the log writer,
   * then the statistics writer.
   */
  function Registered(hasStop: bool, competition: bool): (hs: seq<Handler>)
    ensures StopHandler in hs <==> hasStop && !competition
    ensures 2 <= |hs| <= 3 && hs[|hs| - 2] == SaveLog && hs[|hs| - 1] == SaveStats
    ensures |hs| == 3 ==> hs[0] == StopHandler
  {
    (if hasStop && !competition then [StopHandler] else []) + [SaveLog, SaveStats]
  }

  /** The reverse of a sequence: the order atexit runs its handlers in. */
  function Reversed<T>(s: seq<T>): (r: seq<T>)
    ensures |r| == |s|
    ensures forall k :: 0 <= k < |s| ==> r[k] == s[|s| - 1 - k]
  {
    if s == [] then [] else Reversed(s[1..]) + [s[0]]
  }

  /**
   * At exit the statistics are written first, then the log, and on_stop,
   * when registered, runs last.
   */
  lemma {:induction false} ExitOrder(hasStop: bool, competition: bool)
    ensures var order := Reversed(Registered(hasStop, competition));
      order[0] == SaveStats && order[1] == SaveLog &&
      (StopHandler in order <==> hasStop && !competition) &&
      (StopHandler in order ==> |order| == 3 && order[2] == StopHandler)
  {
    var hs := Registered(hasStop, competition);
    var order := Reversed(hs);
    assert hs[|hs| - 2] == SaveLog && hs[|hs| - 1] == SaveStats;
    assert order[0] == hs[|hs| - 1] && order[1] == hs[|hs| - 2];
    assert StopHandler in order <==> StopHandler in hs by {
      assert forall h :: h in order <==> h in hs by {
        forall h
          ensures h in order <==> h in hs
        {
          if h in hs {
            var k :| 0 <= k < |hs| && hs[k] == h;
            assert order[|hs| - 1 - k] == h;
          }
        }
      }
    }
  }

  /** rand()/(float)RAND_MAX * 0.05: the obstacle proportion of the default map. */
  function Density(v: nat): (d: real)
    ensures 0.0 <= d
    ensures v <= RAND_MAX ==> d <= 0.05
  {
    (v as real) / (RAND_MAX as real) * 0.05
  }

  /**
   * map.name == NULL, as the code writes it: with the name held in a
   * 256-character array inside the map, the array's address is never
   * NULL, so the test never holds.
   */
  predicate NameIsNull(name: string): (b: bool)
    ensures !b
  {
    false
  }

  /** The test configure means: no map has been loaded, so the stored name is empty. */
  predicate NoMapLoaded(name: string) {
    name == []
  }

  /**
   * On a fresh map, before any load_map, no map is loaded, yet the written
   * test reports a name: configure as written never generates the default
   * map and the run starts on an all-zero grid.
   */
  lemma FreshMapNotGenerated()
    ensures var none: string := [];
      NoMapLoaded(none) && !NameIsNull(none)
  {
  }

  /** After load_map the stored name is the file name (truncated), so a non-empty file name keeps the loaded map. */
  lemma LoadedMapKept(filename: string)
    requires filename != []
    ensures !NoMapLoaded(StoredName(filename))
  {
    assert StoredName(filename)[0] == filename[0];
  }

  /**
   * The default map of configure: when no map is loaded, a WORLDSIZE x
   * WORLDSIZE map with 100 dirty cells, its obstacle density drawn from the
   * first random value and the map from the rest. `generated` says whether
   * generation ran, `ok` whether the random values sufficed for it.
   */
  method DefaultMap(w: Map, rnd: seq<nat>) returns (generated: bool, ok: bool)
    requires w.Valid()
    requires |rnd| > 0 ==> rnd[0] <= RAND_MAX
    modifies w, w.cells
    ensures w.Valid()
    ensures generated <==> |rnd| > 0 && NoMapLoaded(old(w.name))
    ensures !generated ==> unchanged(w) && unchanged(w.cells)
    ensures generated ==> w.nrow == WORLDSIZE && w.ncol == WORLDSIZE && w.Bordered() && w.MapChars()
    ensures generated && ok ==> w.ndirt == 100 && |w.dirt| == 100 && w.DirtPlaced()
    ensures generated && ok ==>
      (0.0 < Density(rnd[0]) ==> |rnd[1..]| >= RANDOM_SIDE * RANDOM_SIDE) &&
      forall i, j :: 0 <= i < WORLDSIZE && 0 <= j < WORLDSIZE ==>
        (w.cells[i, j] == WALL <==> OnBorder(WORLDSIZE, WORLDSIZE, i, j) || Obstacle(WORLDSIZE, WORLDSIZE, Density(rnd[0]), rnd[1..], i, j))
    ensures |rnd| == 0 ==> !ok
  {
    generated, ok := false, |rnd| > 0;
    if |rnd| > 0 && NoMapLoaded(w.name) {
      var density := Density(rnd[0]);
      assert GenerateFits(WORLDSIZE, WORLDSIZE, 100, density, rnd[1..]);
      var r;
      r, ok := w.Generate(WORLDSIZE, WORLDSIZE, 100, density, rnd[1..]);
      generated := true;
    }
  }

  /**
   * configure(start, beh, stop, exec_time): the callbacks, the clamped
   * budget and the handlers are stored, then the default map is generated
   * when none was loaded.
   */
  method Configure(s: Sim, start: Option<Action>, beh: seq<Action>, stop: Option<Action>, execTime: int,
                   competition: bool, rnd: seq<nat>) returns (generated: bool, ok: bool)
    requires s.Valid() && s.timer <= ClampExecTime(execTime)
    requires |rnd| > 0 ==> rnd[0] <= RAND_MAX
    modifies s.config, s.world, s.world.cells
    ensures s.Valid()
    ensures s.config.onStart == start && s.config.behaviour == beh && s.config.onStop == stop
    ensures s.config.execTime == ClampExecTime(execTime)
    ensures s.config.handlers == Registered(stop.Some?, competition)
    ensures generated <==> |rnd| > 0 && NoMapLoaded(old(s.world.name))
    ensures !generated ==> unchanged(s.world) && unchanged(s.world.cells)
    ensures generated ==>
      s.world.nrow == WORLDSIZE && s.world.ncol == WORLDSIZE && s.world.Bordered() && s.world.MapChars()
    ensures generated && ok ==> s.world.ndirt == 100 && |s.world.dirt| == 100 && s.world.DirtPlaced()
    ensures generated && ok ==>
      (0.0 < Density(rnd[0]) ==> |rnd[1..]| >= RANDOM_SIDE * RANDOM_SIDE) &&
      forall i, j :: 0 <= i < WORLDSIZE && 0 <= j < WORLDSIZE ==>
        (s.world.cells[i, j] == WALL <==>
           OnBorder(WORLDSIZE, WORLDSIZE, i, j) || Obstacle(WORLDSIZE, WORLDSIZE, Density(rnd[0]), rnd[1..], i, j))
    ensures |rnd| == 0 ==> !ok
  {
    s.config.onStart, s.config.behaviour, s.config.onStop := start, beh, stop;
    s.config.execTime := ClampExecTime(execTime);
    s.config.handlers := Registered(stop.Some?, competition);
    generated, ok := DefaultMap(s.world, rnd);
  }

  // ---------------------------------------------------------------------------
  // run
  // ---------------------------------------------------------------------------

  /**
   * One callback call, as the kernel action it performs. A forward whose
   * aimed-at cell lies off the 50 x 50 grid would index the grid out of
   * bounds in C; the model reports it as a fault and changes nothing.
   */
  method Perform(s: Sim, a: Action) returns (fault: bool)
    requires s.Valid() && s.Live()
    modifies s, s.world, s.world.cells, s.robot, s.stats, s.stats.moves, s.stats.visited, s.hist
    ensures s.Valid()
    ensures fault <==> a == Forward && !old(TargetInGrid(s))
    ensures fault || a == Idle ==> unchanged(s) && unchanged(s.robot) && unchanged(s.world) && unchanged(s.world.cells)
    ensures old(s.timer) <= s.timer <= old(s.timer) + 1
    ensures !s.stopped ==> s.timer < s.config.execTime
    ensures a.Turn? ==> s.timer == old(s.timer) && !s.stopped
    ensures a.Turn? || a == Forward || a == Clean ==>
      s.robot.battery + s.stats.batTotal == old(s.robot.battery + s.stats.batTotal)
    ensures a != Awake && a != Load ==> s.robot.battery <= old(s.robot.battery)
    ensures s.world.name == old(s.world.name) && s.world.nrow == old(s.world.nrow) && s.world.ncol == old(s.world.ncol)
    ensures old(Enclosed(s)) ==> !fault && Enclosed(s)
  {
    fault := false;
    match a {
      case Idle =>
      case Awake =>
        var x, y, r := DoAwake(s);
      case Turn(alpha) =>
        DoTurn(s, alpha);
      case Forward =>
        if !TargetInGrid(s) {
          ghost var enclosed := Enclosed(s);
          if enclosed {
            EnclosedTarget(s);
          }
          return true;
        }
        DoForward(s);
      case Clean =>
        DoClean(s);
      case Load =>
        var r := DoLoad(s);
    }
  }

  /**
   * run(): the timer restarts at 0, on_start runs once when set, then the
   * behaviour is called until the kernel stops the run. `calls` counts the
   * behaviour calls made. The budget is never overrun, every call advances
   * the timer by at most one, and on a walled map no forward leaves the grid.
   */
  method Run(s: Sim) returns (calls: nat, fault: bool)
    requires s.Valid() && !s.stopped && 1 <= s.config.execTime
    modifies s, s.world, s.world.cells, s.robot, s.stats, s.stats.moves, s.stats.visited, s.hist
    ensures s.Valid()
    ensures calls <= |s.config.behaviour|
    ensures calls < |s.config.behaviour| ==> s.stopped || fault
    ensures !s.stopped ==> s.timer < s.config.execTime
    ensures s.timer <= calls + (if s.config.onStart.Some? then 1 else 0)
    ensures old(Enclosed(s)) ==> !fault
  {
    s.timer := 0;
    ghost var enclosed := Enclosed(s);
    calls, fault := 0, false;
    if s.config.onStart.Some? {
      fault := Perform(s, s.config.onStart.value);
      if fault {
        return;
      }
    }
    ghost var offset := if s.config.onStart.Some? then 1 else 0;
    while calls < |s.config.behaviour| && !s.stopped
      invariant s.Valid() && !fault
      invariant calls <= |s.config.behaviour|
      invariant !s.stopped ==> s.timer < s.config.execTime
      invariant s.timer <= calls + offset
      invariant enclosed ==> Enclosed(s)
      decreases |s.config.behaviour| - calls
    {
      fault := Perform(s, s.config.behaviour[calls]);
      calls := calls + 1;
      if fault {
        return;
      }
    }
  }

  /** load_map(filename): the world loader on the map's file, read when it could be opened. */
  method LoadMap(s: Sim, filename: string, file: Option<string>) returns (r: int)
    requires s.Valid()
    modifies s.world, s.world.cells
    ensures s.Valid()
    ensures r == 0 || r == -1
    ensures r == 0 <==> file.Some? && Decode(file.value).Decoded?
    ensures r == 0 ==>
      s.world.name == StoredName(filename) &&
      s.world.nrow == Decode(file.value).img.height && s.world.ncol == Decode(file.value).img.width &&
      s.world.dirt == LoadedDirt(Decode(file.value).img.rows, |Decode(file.value).img.rows|, 0, false)
    ensures file.None? ==> unchanged(s.world) && unchanged(s.world.cells)
    ensures file.Some? && !Decode(file.value).Decoded? ==>
      s.world.ndirt == 0 && s.world.dirt == [] && unchanged(s.world.cells) &&
      s.world.nrow == old(s.world.nrow) && s.world.ncol == old(s.world.ncol) && s.world.name == old(s.world.name) &&
      s.world.baseX == old(s.world.baseX) && s.world.baseY == old(s.world.baseY)
    ensures r == 0 ==>
      Shaped(Decode(file.value).img.rows, s.world.nrow, s.world.ncol) && s.world.ndirt == |s.world.dirt| &&
      (s.world.baseX, s.world.baseY) == LoadedBase(Decode(file.value).img.rows, |Decode(file.value).img.rows|, 0, (old(s.world.baseX), old(s.world.baseY)))
    ensures r == 0 ==>
      forall y, x :: 0 <= y < WORLDSIZE && 0 <= x < WORLDSIZE ==>
        s.world.cells[y, x] == if y < s.world.nrow && x < s.world.ncol then CharOfSample(Decode(file.value).img.rows[y][x]) else old(s.world.cells[y, x])
  {
    r := s.world.Load(filename, file);
  }
}
