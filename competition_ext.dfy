/**
 * The competition extension (competition/competition_ext.c): the
 * (repetition, map) rotation kept in config.txt, the per-process
 * competition run on one map, the polled behaviour loop, the mean battery
 * of the statistics row and the team name taken from the working
 * directory.
 *
 * Files are values: the contents of config.txt and of the map file are
 * `Option<string>` parameters (None when fopen fails), what update_config
 * writes is returned, and getcwd's answer is a parameter. In the
 * competition build the end of the run is the sim_should_stop request,
 * which the model reads from the `stopped` flag of the tick.
 */
module CompetitionExt {
  import opened Types
  import opened Pgm
  import opened SimWorld
  import opened SimStats
  import opened SimContext
  import opened SimRobot
  import opened Simula

  const COMP_MAPS_COUNT: int := 4
  const COMP_REPS_PER_MAP: int := 5

  /** The built-in map list of run_competition. */
  const MAPS: seq<string> := ["../maps/noobs.pgm", "../maps/random1.pgm", "../maps/random3.pgm", "../maps/random5.pgm"]

  /** The default maps directory, g_maps_dir. */
  const MAPS_DIR: string := "../maps"

  // ---------------------------------------------------------------------------
  // The rotation
  // ---------------------------------------------------------------------------

  /**
   * update_config's arithmetic: the next repetition is (rep + 1) % 5 with
   * C's remainder, and the map advances exactly when it wraps to 0.
   */
  function NextRound(rep: int, mapId: int): (next: (int, int))
    ensures 0 <= rep ==> 0 <= next.0 < COMP_REPS_PER_MAP
    ensures 0 <= rep < COMP_REPS_PER_MAP - 1 ==> next == (rep + 1, mapId)
    ensures rep == COMP_REPS_PER_MAP - 1 ==> next == (0, mapId + 1)
    ensures next.1 == mapId || (next.0 == 0 && next.1 == mapId + 1)
  {
    var r := CMod(rep + 1, COMP_REPS_PER_MAP);
    (r, if r == 0 then mapId + 1 else mapId)
  }

  /** The configuration after n competition runs from `start`. */
  function Rounds(n: nat, start: (int, int)): (int, int) {
    if n == 0 then start else NextRound(Rounds(n - 1, start).0, Rounds(n - 1, start).1)
  }

  /** From "0 0", run n of the cycle is repetition n % 5 of map n / 5. */
  lemma {:induction false} RoundsFromStart(n: nat)
    ensures Rounds(n, (0, 0)) == (n % COMP_REPS_PER_MAP, n / COMP_REPS_PER_MAP)
  {
    if n > 0 {
      RoundsFromStart(n - 1);
      var m := n - 1;
      if m % 5 < 4 {
        assert n % 5 == m % 5 + 1 && n / 5 == m / 5;
      } else {
        assert n % 5 == 0 && n / 5 == m / 5 + 1;
      }
    }
  }

  /**
   * The full cycle: from "0 0" every map is run on exactly five consecutive
   * runs, runs 0..19 all find a valid map, and run 20 finds map 4, which
   * ends the competition.
   */
  lemma CompetitionCycle(n: nat)
    ensures n < COMP_MAPS_COUNT * COMP_REPS_PER_MAP ==> 0 <= Rounds(n, (0, 0)).1 < COMP_MAPS_COUNT
    ensures forall k :: Rounds(n, (0, 0)).1 == k <==> 5 * k <= n < 5 * k + 5
    ensures Rounds(COMP_MAPS_COUNT * COMP_REPS_PER_MAP, (0, 0)) == (0, COMP_MAPS_COUNT)
  {
    RoundsFromStart(n);
    RoundsFromStart(COMP_MAPS_COUNT * COMP_REPS_PER_MAP);
  }

  /** The line update_config writes: "%d %d\n". */
  function ConfigText(rep: int, mapId: int): (t: string)
    ensures |t| >= 4 && t[|t| - 1] == '\n' && '\n' !in t[..|t| - 1]
  {
    IntToStringOneLine(rep);
    IntToStringOneLine(mapId);
    var line := IntToString(rep) + " " + IntToString(mapId);
    assert (line + "\n")[..|line|] == line;
    line + "\n"
  }

  /** fscanf(fd, "%d %d", &rep, &map_id) == 2: both numbers, or nothing. */
  function ParseConfig(text: string): (p: Option<(int, int)>)
    ensures (forall k :: 0 <= k < |text| ==> !IsDigit(text[k])) ==> p.None?
  {
    match ScanInt(text)
    case None => None
    case Some((rep, rest)) =>
      match ScanInt(rest)
      case None => None
      case Some((mapId, _)) => Some((rep, mapId))
  }

  /** Reading the configuration text back gives both numbers. */
  lemma ConfigRoundTrip(rep: int, mapId: int)
    ensures ParseConfig(ConfigText(rep, mapId)) == Some((rep, mapId))
  {
    var a, b := IntToString(rep), IntToString(mapId);
    assert ConfigText(rep, mapId) == "" + (a + (" " + (b + "\n")));
    ScanIntString("", rep, " " + (b + "\n"));
    assert " " + (b + "\n") == " " + (b + "\n");
    ScanIntString(" ", mapId, "\n");
  }

  /**
   * update_config(rep, map_id): when config.txt opens for writing, the text
   * of the next round; otherwise nothing is written.
   */
  function UpdateConfig(rep: int, mapId: int, canOpen: bool): (written: Option<string>)
    ensures written.Some? <==> canOpen
    ensures written.Some? ==> ParseConfig(written.value) == Some(NextRound(rep, mapId))
  {
    if canOpen then
      ConfigRoundTrip(NextRound(rep, mapId).0, NextRound(rep, mapId).1);
      Some(ConfigText(NextRound(rep, mapId).0, NextRound(rep, mapId).1))
    else None
  }

  // ---------------------------------------------------------------------------
  // Paths and the team name
  // ---------------------------------------------------------------------------

  /** strrchr(s, '/'): the index of the last slash, if any. */
  function LastSlash(s: string): (k: Option<nat>)
    ensures k.Some? ==> k.value < |s| && s[k.value] == '/' && forall j :: k.value < j < |s| ==> s[j] != '/'
    ensures k.None? ==> forall j :: 0 <= j < |s| ==> s[j] != '/'
  {
    if s == [] then None
    else if s[|s| - 1] == '/' then Some(|s| - 1)
    else LastSlash(s[..|s| - 1])
  }

  /** The component after the last slash, when there is a slash. */
  function AfterLastSlash(s: string): (r: Option<string>)
    ensures r.Some? ==> '/' !in r.value && |r.value| < |s| && s[|s| - |r.value| - 1] == '/' && s[|s| - |r.value|..] == r.value
    ensures r.None? <==> '/' !in s
  {
    match LastSlash(s)
    case None => None
    case Some(k) => Some(s[k + 1..])
  }

  /** A path ending in "/name" has name as its last component. */
  lemma {:induction false} AfterLastSlashOf(dir: string, name: string)
    requires '/' !in name
    ensures AfterLastSlash(dir + "/" + name) == Some(name)
  {
    var s := dir + "/" + name;
    assert s[|dir|] == '/';
    assert s[|s| - |name|..] == name;
  }

  /**
   * get_team_id: the component after the last '/' of the working
   * directory, or "unknown" when getcwd fails (no answer, or one that does
   * not fit the 256-byte buffer with its terminator) or the path has no '/'.
   */
  function TeamId(cwd: Option<string>): (id: string)
    ensures cwd.None? || |cwd.value| >= 256 || '/' !in cwd.value ==> id == "unknown"
    ensures cwd.Some? && |cwd.value| < 256 && '/' in cwd.value ==>
      '/' !in id && |id| < |cwd.value| && cwd.value[|cwd.value| - |id| - 1] == '/' && cwd.value[|cwd.value| - |id|..] == id
  {
    if cwd.None? || |cwd.value| >= 256 then "unknown"
    else match AfterLastSlash(cwd.value)
      case None => "unknown"
      case Some(t) => t
  }

  /** A team working in dir/team is named team. */
  lemma TeamIdOfDirectory(dir: string, team: string)
    requires '/' !in team && |dir + "/" + team| < 256
    ensures TeamId(Some(dir + "/" + team)) == team
  {
    AfterLastSlashOf(dir, team);
  }

  /**
   * The map_path of run_competition: with a maps directory, dir/basename of
   * the built-in path, cut to the 255 characters the buffer holds; without
   * one, the built-in path.
   */
  function MapPath(mapsDir: Option<string>, mapId: int): (path: string)
    requires 0 <= mapId < COMP_MAPS_COUNT
    ensures |path| < 256
  {
    match mapsDir
    case None => MAPS[mapId]
    case Some(dir) =>
      match AfterLastSlash(MAPS[mapId])
      case None => StoredName(dir + "/")
      case Some(base) => StoredName(dir + "/" + base)
  }

  /** With the default maps directory the built-in paths are used unchanged. */
  lemma DefaultMapPath(mapId: int)
    requires 0 <= mapId < COMP_MAPS_COUNT
    ensures MapPath(Some(MAPS_DIR), mapId) == MAPS[mapId]
  {
    var names := ["noobs.pgm", "random1.pgm", "random3.pgm", "random5.pgm"];
    var name := names[mapId];
    assert MAPS[mapId] == MAPS_DIR + "/" + name;
    assert '/' !in name by {
      assert forall c :: c in name ==> c != '/';
    }
    AfterLastSlashOf(MAPS_DIR, name);
  }

  // ---------------------------------------------------------------------------
  // The run
  // ---------------------------------------------------------------------------

  /** How the process ends: exit(code), or run_competition returning after writing `next` to config.txt. */
  datatype Outcome = Exited(code: int) | Finished(mapId: int, next: Option<string>)

  /**
   * competition_execute_map(filename): the map name is stored and the map
   * loaded, exit(1) when that fails; then the polled loop. `calls` counts
   * the behaviour calls.
   */
  method ExecuteMap(s: Sim, filename: string, file: Option<string>) returns (exitCode: Option<int>, calls: nat, fault: bool)
    requires s.Valid() && s.Live()
    modifies s, s.world, s.world.cells, s.robot, s.stats, s.stats.moves, s.stats.visited, s.hist
    ensures s.Valid()
    ensures exitCode.Some? <==> !(file.Some? && Decode(file.value).Decoded?)
    ensures exitCode.Some? ==> exitCode == Some(1) && calls == 0 && !fault && s.timer == old(s.timer)
    ensures exitCode.None? ==>
      s.world.name == StoredName(filename) &&
      s.world.nrow == Decode(file.value).img.height && s.world.ncol == Decode(file.value).img.width
    ensures calls <= |s.config.behaviour|
    ensures old(s.timer) <= s.timer <= s.config.execTime
    ensures s.timer <= old(s.timer) + calls + (if s.config.onStart.Some? then 1 else 0)
    ensures exitCode.None? && !fault ==> s.stopped || s.timer == s.config.execTime || calls == |s.config.behaviour|
  {
    s.world.name := StoredName(filename);
    var r := s.world.Load(filename, file);
    if r != 0 {
      return Some(1), 0, false;
    }
    exitCode := None;
    calls, fault := PolledLoop(s);
  }

  /**
   * The body of competition_execute_map after the load: on_start runs
   * once, then the behaviour runs while the timer is below the budget, and
   * a stop request ends the loop after the call that raised it.
   */
  method PolledLoop(s: Sim) returns (calls: nat, fault: bool)
    requires s.Valid() && s.Live()
    modifies s, s.world, s.world.cells, s.robot, s.stats, s.stats.moves, s.stats.visited, s.hist
    ensures s.Valid()
    ensures s.world.name == old(s.world.name) && s.world.nrow == old(s.world.nrow) && s.world.ncol == old(s.world.ncol)
    ensures calls <= |s.config.behaviour|
    ensures old(s.timer) <= s.timer <= s.config.execTime
    ensures s.timer <= old(s.timer) + calls + (if s.config.onStart.Some? then 1 else 0)
    ensures !fault ==> s.stopped || s.timer == s.config.execTime || calls == |s.config.behaviour|
  {
    calls, fault := 0, false;
    if s.config.onStart.Some? {
      fault := Perform(s, s.config.onStart.value);
      if fault || s.stopped {
        return;
      }
    }
    ghost var offset := if s.config.onStart.Some? then 1 else 0;
    while s.timer < s.config.execTime && calls < |s.config.behaviour|
      invariant s.Valid() && !s.stopped && !fault
      invariant calls <= |s.config.behaviour|
      invariant old(s.timer) <= s.timer <= old(s.timer) + calls + offset
      invariant s.world.name == old(s.world.name) && s.world.nrow == old(s.world.nrow) && s.world.ncol == old(s.world.ncol)
      decreases |s.config.behaviour| - calls
    {
      fault := Perform(s, s.config.behaviour[calls]);
      calls := calls + 1;
      if fault || s.stopped {
        return;
      }
    }
  }

  /**
   * run_competition: config.txt must exist and hold two numbers (else
   * exit(1)); a map number outside 0..3 means the cycle is over (exit(0),
   * nothing run); otherwise the map is run and config.txt advanced.
   */
  method RunCompetition(s: Sim, configFile: Option<string>, mapsDir: Option<string>, mapFile: Option<string>,
                        canWrite: bool) returns (out: Outcome)
    requires s.Valid() && s.Live()
    modifies s, s.world, s.world.cells, s.robot, s.stats, s.stats.moves, s.stats.visited, s.hist
    ensures s.Valid()
    ensures configFile.None? ==> out == Exited(1)
    ensures configFile.Some? && ParseConfig(configFile.value).None? ==> out == Exited(1)
    ensures out == Exited(0) <==>
      configFile.Some? && ParseConfig(configFile.value).Some? &&
      !(0 <= ParseConfig(configFile.value).value.1 < COMP_MAPS_COUNT)
    ensures out.Exited? && out.code != 1 ==> unchanged(s, s.robot, s.world, s.world.cells)
    ensures out.Finished? ==>
      configFile.Some? && ParseConfig(configFile.value).Some? &&
      var (rep, mapId) := ParseConfig(configFile.value).value;
      0 <= mapId < COMP_MAPS_COUNT && out.mapId == mapId &&
      out.next == UpdateConfig(rep, mapId, canWrite) &&
      s.world.name == StoredName(MapPath(mapsDir, mapId))
    ensures out.Finished? <==>
      configFile.Some? && ParseConfig(configFile.value).Some? &&
      0 <= ParseConfig(configFile.value).value.1 < COMP_MAPS_COUNT &&
      mapFile.Some? && Decode(mapFile.value).Decoded?
  {
    if configFile.None? {
      return Exited(1);
    }
    var parsed := ParseConfig(configFile.value);
    if parsed.None? {
      return Exited(1);
    }
    var (rep, mapId) := parsed.value;
    if mapId < 0 || mapId >= COMP_MAPS_COUNT {
      return Exited(0);
    }
    var path := MapPath(mapsDir, mapId);
    var exitCode, calls, fault := ExecuteMap(s, path, mapFile);
    if exitCode.Some? {
      return Exited(exitCode.value);
    }
    out := Finished(mapId, UpdateConfig(rep, mapId, canWrite));
  }

  // ---------------------------------------------------------------------------
  // save_stats_competition
  // ---------------------------------------------------------------------------

  /** The battery of the first n samples, summed. */
  function SumBattery(h: seq<Sample>, n: nat): real
    requires n <= |h|
  {
    if n == 0 then 0.0 else SumBattery(h, n - 1) + h[n - 1].battery
  }

  /** The number of samples the mean reads: those below both the budget and the timer. */
  function Averaged(execTime: int, timer: int): (n: nat)
    ensures n <= timer || n == 0
    ensures 0 <= timer <= execTime ==> n == timer
  {
    if execTime <= 0 || timer <= 0 then 0 else if execTime < timer then execTime else timer
  }

  /** bat_mean: the averaged samples' battery over the timer, 0 when the timer is not positive. */
  function MeanOf(h: seq<Sample>, execTime: int, timer: int): real
    requires Averaged(execTime, timer) <= |h|
  {
    if timer > 0 then SumBattery(h, Averaged(execTime, timer)) / (timer as real) else 0.0
  }

  /** The sum of n samples each within [lo, hi] lies within [n * lo, n * hi]. */
  lemma {:induction false} SumBatteryWithin(h: seq<Sample>, n: nat, lo: real, hi: real)
    requires n <= |h|
    requires forall k :: 0 <= k < n ==> lo <= h[k].battery <= hi
    ensures (n as real) * lo <= SumBattery(h, n) <= (n as real) * hi
  {
    if n > 0 {
      SumBatteryWithin(h, n - 1, lo, hi);
    }
  }

  /** Within the budget the mean is an average: between the least and the greatest battery recorded. */
  lemma MeanWithin(h: seq<Sample>, execTime: int, timer: int, lo: real, hi: real)
    requires 0 < timer <= execTime && timer <= |h|
    requires forall k :: 0 <= k < timer ==> lo <= h[k].battery <= hi
    ensures lo <= MeanOf(h, execTime, timer) <= hi
  {
    var t := timer as real;
    var sum := SumBattery(h, timer);
    SumBatteryWithin(h, timer, lo, hi);
    var mean := sum / t;
    assert mean * t == sum;
    if mean < lo {
      assert mean * t < lo * t;
    }
    if mean > hi {
      assert mean * t > hi * t;
    }
  }

  /**
   * The bat_mean loop of save_stats_competition: the batteries of hist[i]
   * for i below both the budget and the timer, summed, then divided by the
   * timer when it is positive.
   */
  method MeanBattery(hist: array<Sample>, execTime: int, timer: int) returns (mean: real)
    requires Averaged(execTime, timer) <= hist.Length
    ensures mean == MeanOf(hist[..], execTime, timer)
  {
    mean := 0.0;
    var i := 0;
    while i < execTime && i < timer
      invariant 0 <= i <= Averaged(execTime, timer)
      invariant mean == SumBattery(hist[..], i)
      decreases timer - i
    {
      mean := mean + hist[i].battery;
      i := i + 1;
    }
    assert i == Averaged(execTime, timer);
    if timer > 0 {
      mean := mean / (timer as real);
    }
  }

  /**
   * save_stats_competition, up to the row it appends: the team name, the
   * mean battery stored in the statistics, and the map type read from
   * config.txt (0 when it cannot be read). None when the statistics file
   * does not open, after the mean has been stored.
   */
  method SaveStatsCompetition(s: Sim, cwd: Option<string>, canOpenStats: bool, configFile: Option<string>)
    returns (row: Option<(string, int)>)
    requires s.Valid()
    modifies s.stats
    ensures s.Valid()
    ensures s.stats.Get() == old(s.stats.Get()).(batMean := MeanOf(s.hist[..], s.config.execTime, s.timer))
    ensures row.None? <==> !canOpenStats
    ensures row.Some? ==> row.value.0 == TeamId(cwd)
    ensures row.Some? ==>
      row.value.1 == if configFile.Some? && ParseConfig(configFile.value).Some? then ParseConfig(configFile.value).value.1 else 0
  {
    var team := TeamId(cwd);
    var mean := MeanBattery(s.hist, s.config.execTime, s.timer);
    s.stats.SetMeanBattery(mean);
    if !canOpenStats {
      return None;
    }
    var mapType := 0;
    if configFile.Some? {
      var parsed := ParseConfig(configFile.value);
      if parsed.Some? {
        mapType := parsed.value.1;
      }
    }
    row := Some((team, mapType));
  }
}
